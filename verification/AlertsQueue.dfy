/** The notification bench: a producer, the 64-slot queue and the worker, and the probe that is
    offered after a sample to show that the worker took everything before it. */
module AlertsQueue {
  import opened Options
  import opened Decimal

  const SLOTS: nat := 64
  const SESSIONS: nat := 64

  /** A notice; `question` marks the hook permission request the worker records as standing. */
  datatype Notice = Notice(key: string, question: bool)

  function SessionKey(n: nat): string {
    "term-bench-" + Print(n % SESSIONS)
  }

  function SampleNotice(n: nat): Notice {
    Notice(SessionKey(n), false)
  }

  function ProbeKey(number: nat): string {
    "term-bench-probe-" + Print(number)
  }

  function Probe(number: nat): Notice {
    Notice(ProbeKey(number), true)
  }

  /** Two probes share a key exactly when they share a number, and no session has a probe's key. */
  lemma ProbeKeysCollideExactly(m: nat, n: nat)
    ensures ProbeKey(m) == ProbeKey(n) <==> m == n
    ensures SessionKey(m) != ProbeKey(n)
  {
    var prefix := "term-bench-probe-";
    assert |prefix| == 17;
    assert ProbeKey(m)[17..] == Print(m) && ProbeKey(n)[17..] == Print(n);
    PrintedValue(m);
    PrintedValue(n);
    assert ProbeKey(n)[11] == 'p';
    assert SessionKey(m)[11] == Print(m % SESSIONS)[0];
  }

  // ---- The queue and the worker ---------------------------------------------------------------

  /** `accepted` and `taken` are the queue's whole history. */
  datatype Intake = Intake(accepted: seq<Notice>, taken: seq<Notice>, queue: seq<Notice>, standing: set<string>)

  const EMPTY: Intake := Intake([], [], [], {})

  function Accept(q: Intake, n: Notice): Intake {
    q.(accepted := q.accepted + [n], queue := q.queue + [n])
  }

  /** The worker takes the head. A question stands its session; any other notice may end it. */
  function TakeOne(q: Intake, ends: bool): Intake
    requires q.queue != []
  {
    var n := q.queue[0];
    q.(taken := q.taken + [n], queue := q.queue[1..],
       standing := if n.question then q.standing + {n.key} else if ends then q.standing - {n.key} else q.standing)
  }

  /** One FIFO: what was taken and then what waits is what was accepted, in order. */
  ghost predicate Fifo(q: Intake) {
    q.taken + q.queue == q.accepted && |q.queue| <= SLOTS
  }

  // ---- The producer -----------------------------------------------------------------------------

  /** Where the producer stands. `at` is the place of the accepted probe in the queue's history,
      and `clean` tells that no other notice with its key was about when it was accepted. */
  datatype Phase =
    | Idle
    | Sending(arm: nat, sent: nat)
    | Offering(number: nat)
    | Waiting(number: nat, at: nat, clean: bool)
    | Answering(number: nat, stood: nat)

  /** The whole bench. Each arm counts its own probes. `timedOut` holds the numbers of samples that
      gave up with their probe accepted, `results` what every finished sample answered. */
  datatype Bench = Bench(intake: Intake, phase: Phase, counters: map<nat, nat>, timedOut: set<nat>, retries: nat,
      results: seq<nat>)

  const START: Bench := Bench(EMPTY, Idle, map[], {}, 0, [])

  datatype Event =
    | StartSample(arm: nat)
    | OfferNotice(coalesced: bool)
    | FinishSending
    | OfferProbe
    | GiveUpOffering
    | Look
    | GiveUpWaiting
    | AnswerProbe
    | Take(ends: bool)

  function Counter(b: Bench, arm: nat): nat {
    if arm in b.counters then b.counters[arm] else 0
  }

  predicate HasRoom(q: Intake) {
    |q.queue| < SLOTS
  }

  /** No notice with the key waits, and the key does not stand. */
  predicate Clean(q: Intake, key: string) {
    key !in q.standing && forall i :: 0 <= i < |q.queue| ==> q.queue[i].key != key
  }

  /** What an event does; `None` when it cannot happen. */
  function Next(notices: nat, b: Bench, e: Event): Option<Bench> {
    match (e, b.phase)
    case (Take(ends), _) => if b.intake.queue == [] then None else Some(b.(intake := TakeOne(b.intake, ends)))
    case (StartSample(arm), Idle) => Some(b.(phase := Sending(arm, 0)))
    case (OfferNotice(coalesced), Sending(arm, sent)) =>
      if sent >= notices then None
      else if coalesced then Some(b.(phase := Sending(arm, sent + 1)))
      else if HasRoom(b.intake) then
        Some(b.(intake := Accept(b.intake, SampleNotice(sent)), phase := Sending(arm, sent + 1)))
      else Some(b.(retries := b.retries + 1))
    case (FinishSending, Sending(arm, sent)) =>
      if sent != notices then None
      else Some(b.(phase := Offering(Counter(b, arm)), counters := b.counters[arm := Counter(b, arm) + 1]))
    case (OfferProbe, Offering(number)) =>
      if !HasRoom(b.intake) then Some(b)
      else
        Some(b.(intake := Accept(b.intake, Probe(number)),
                phase := Waiting(number, |b.intake.accepted|, Clean(b.intake, ProbeKey(number)))))
    case (GiveUpOffering, Offering(_)) => Some(b.(phase := Idle, results := b.results + [0]))
    case (Look, Waiting(number, _, _)) =>
      Some(if ProbeKey(number) in b.intake.standing then b.(phase := Answering(number, 1)) else b)
    case (GiveUpWaiting, Waiting(number, _, _)) =>
      Some(b.(phase := Answering(number, 0), timedOut := b.timedOut + {number}))
    case (AnswerProbe, Answering(number, stood)) =>
      Some(b.(intake := b.intake.(standing := b.intake.standing - {ProbeKey(number)}),
              phase := Idle, results := b.results + [stood]))
    case _ => None
  }

  function Run(notices: nat, b: Bench, events: seq<Event>): Option<Bench> {
    if events == [] then Some(b)
    else
      match Run(notices, b, events[..|events| - 1])
      case None => None
      case Some(c) => Next(notices, c, events[|events| - 1])
  }

  // ---- What every interleaving keeps -----------------------------------------------------------------

  /** While a cleanly accepted probe is waited for, only its own notice can stand its key, and the
      key stands only once that notice has been taken. */
  ghost predicate ProbeGuards(q: Intake, key: string, at: nat) {
    && at < |q.accepted| && q.accepted[at] == Notice(key, true)
    && (forall i :: |q.taken| <= i < |q.accepted| && q.accepted[i].key == key ==> i == at)
    && (key in q.standing ==> at < |q.taken|)
  }

  /** A number about which nothing is left over: no waiting notice and no standing question. */
  ghost predicate Settled(b: Bench, m: nat) {
    match b.phase
    case Waiting(number, _, _) => number == m || Clean(b.intake, ProbeKey(m))
    case Answering(number, stood) =>
      if number == m
      then forall i :: 0 <= i < |b.intake.queue| ==> b.intake.queue[i].key != ProbeKey(m)
      else Clean(b.intake, ProbeKey(m))
    case _ => Clean(b.intake, ProbeKey(m))
  }

  ghost predicate Inv(b: Bench) {
    && Fifo(b.intake)
    && (b.phase.Waiting? && b.phase.clean ==> ProbeGuards(b.intake, ProbeKey(b.phase.number), b.phase.at))
    && (b.phase.Waiting? ==> b.phase.at < |b.intake.accepted|)
    && (b.phase.Waiting? && b.phase.number !in b.timedOut ==> b.phase.clean)
    && (forall m :: m in b.timedOut || Settled(b, m))
  }

  lemma AcceptKeepsFifo(q: Intake, n: Notice)
    requires Fifo(q) && HasRoom(q)
    ensures Fifo(Accept(q, n))
  {
    assert q.taken + (q.queue + [n]) == (q.taken + q.queue) + [n];
  }

  lemma TakeKeepsFifo(q: Intake, ends: bool)
    requires Fifo(q) && q.queue != []
    ensures Fifo(TakeOne(q, ends))
    ensures q.accepted[|q.taken|] == q.queue[0]
  {
    assert q.taken + q.queue == (q.taken + [q.queue[0]]) + q.queue[1..];
  }

  lemma TakeKeepsGuards(q: Intake, ends: bool, key: string, at: nat)
    requires Fifo(q) && q.queue != [] && ProbeGuards(q, key, at)
    ensures ProbeGuards(TakeOne(q, ends), key, at)
  {
    TakeKeepsFifo(q, ends);
  }

  lemma TakeKeepsClean(q: Intake, ends: bool, key: string)
    requires q.queue != [] && Clean(q, key)
    ensures Clean(TakeOne(q, ends), key)
  {}

  lemma TakeKeepsInv(b: Bench, ends: bool)
    requires Inv(b) && b.intake.queue != []
    ensures Inv(b.(intake := TakeOne(b.intake, ends)))
  {
    hide ProbeKey;
    var c := b.(intake := TakeOne(b.intake, ends));
    TakeKeepsFifo(b.intake, ends);
    if b.phase.Waiting? && b.phase.clean { TakeKeepsGuards(b.intake, ends, ProbeKey(b.phase.number), b.phase.at); }
    forall m ensures m in c.timedOut || Settled(c, m) {
      assert m in b.timedOut || Settled(b, m);
      if Clean(b.intake, ProbeKey(m)) { TakeKeepsClean(b.intake, ends, ProbeKey(m)); }
    }
  }

  lemma AcceptKeepsClean(q: Intake, n: Notice, key: string)
    requires Clean(q, key) && n.key != key
    ensures Clean(Accept(q, n), key)
  {}

  lemma OfferNoticeKeepsInv(b: Bench)
    requires Inv(b) && b.phase.Sending? && HasRoom(b.intake)
    ensures Inv(b.(intake := Accept(b.intake, SampleNotice(b.phase.sent)),
              phase := Sending(b.phase.arm, b.phase.sent + 1)))
  {
    hide ProbeKey, SessionKey;
    var n := SampleNotice(b.phase.sent);
    AcceptKeepsFifo(b.intake, n);
    forall m ensures m in b.timedOut || Clean(Accept(b.intake, n), ProbeKey(m)) {
      assert m in b.timedOut || Settled(b, m);
      ProbeKeysCollideExactly(b.phase.sent, m);
      if m !in b.timedOut { AcceptKeepsClean(b.intake, n, ProbeKey(m)); }
    }
  }

  lemma OfferProbeKeepsInv(notices: nat, b: Bench)
    requires Inv(b) && b.phase.Offering? && HasRoom(b.intake)
    ensures Inv(Next(notices, b, OfferProbe).value)
  {
    hide ProbeKey;
    var m := b.phase.number;
    var q, c := b.intake, Next(notices, b, OfferProbe).value;
    AcceptKeepsFifo(q, Probe(m));
    assert m in b.timedOut || Settled(b, m);
    if Clean(q, ProbeKey(m)) {
      forall i | |q.taken| <= i < |q.accepted| ensures q.accepted[i].key != ProbeKey(m) {
        assert q.accepted[i] == q.queue[i - |q.taken|];
      }
    }
    forall k ensures k in c.timedOut || Settled(c, k) {
      assert k in b.timedOut || Settled(b, k);
      ProbeKeysCollideExactly(m, k);
      if k !in b.timedOut && k != m { AcceptKeepsClean(q, Probe(m), ProbeKey(k)); }
    }
  }

  lemma LookKeepsInv(notices: nat, b: Bench)
    requires Inv(b) && b.phase.Waiting?
    ensures Inv(Next(notices, b, Look).value)
  {
    hide ProbeKey;
    var m, q, c := b.phase.number, b.intake, Next(notices, b, Look).value;
    forall k ensures k in c.timedOut || Settled(c, k) {
      assert k in b.timedOut || Settled(b, k);
      if k == m && k !in b.timedOut && c.phase.Answering? {
        forall i | 0 <= i < |q.queue| ensures q.queue[i].key != ProbeKey(m) {
          assert q.queue[i] == q.accepted[|q.taken| + i];
        }
      }
    }
  }

  lemma AnswerKeepsInv(notices: nat, b: Bench)
    requires Inv(b) && b.phase.Answering?
    ensures Inv(Next(notices, b, AnswerProbe).value)
  {
    hide ProbeKey;
    var c := Next(notices, b, AnswerProbe).value;
    forall k ensures k in c.timedOut || Settled(c, k) {
      assert k in b.timedOut || Settled(b, k);
    }
  }

  lemma NextKeepsInv(notices: nat, b: Bench, e: Event)
    requires Inv(b) && Next(notices, b, e).Some?
    ensures Inv(Next(notices, b, e).value)
  {
    hide ProbeKey, SessionKey, Clean, ProbeGuards, Fifo;
    var c := Next(notices, b, e).value;
    match e
    case Take(ends) => TakeKeepsInv(b, ends);
    case OfferNotice(coalesced) =>
      if !coalesced && HasRoom(b.intake) { OfferNoticeKeepsInv(b); }
      else { forall m ensures m in c.timedOut || Settled(c, m) { assert m in b.timedOut || Settled(b, m); } }
    case OfferProbe => if HasRoom(b.intake) { OfferProbeKeepsInv(notices, b); }
    case Look => LookKeepsInv(notices, b);
    case AnswerProbe => AnswerKeepsInv(notices, b);
    case GiveUpWaiting =>
      forall m ensures m in c.timedOut || Settled(c, m) { assert m in b.timedOut || Settled(b, m); }
    case _ =>
      forall m ensures m in c.timedOut || Settled(c, m) { assert m in b.timedOut || Settled(b, m); }
  }

  lemma {:induction false} RunKeepsInv(notices: nat, events: seq<Event>)
    requires Run(notices, START, events).Some?
    ensures Inv(Run(notices, START, events).value)
  {
    hide ProbeKey;
    if events != [] {
      hide Inv, Next;
      RunKeepsInv(notices, events[..|events| - 1]);
      NextKeepsInv(notices, Run(notices, START, events[..|events| - 1]).value, events[|events| - 1]);
    }
  }

  /** Everything the queue accepted up to and including the notice at `at` has been taken. */
  ghost predicate TookUpTo(q: Intake, at: nat) {
    at < |q.taken| <= |q.accepted| && q.taken[..at + 1] == q.accepted[..at + 1]
  }

  /** Over every interleaving: what was taken and then what waits is what was accepted, and the
      queue never holds more than 64. */
  lemma TakenAndWaitingIsAccepted(notices: nat, events: seq<Event>)
    requires Run(notices, START, events).Some?
    ensures Fifo(Run(notices, START, events).value.intake)
  {
    RunKeepsInv(notices, events);
  }

  /** Over every interleaving: a probe whose number no earlier sample timed out on is evidence. When
      its key stands, the worker has taken it and everything accepted before it. */
  lemma StandingProbeIsEvidence(notices: nat, events: seq<Event>)
    requires Run(notices, START, events).Some?
    ensures var b := Run(notices, START, events).value;
            b.phase.Waiting? && (b.phase.clean || b.phase.number !in b.timedOut)
                && ProbeKey(b.phase.number) in b.intake.standing
            ==> TookUpTo(b.intake, b.phase.at)
  {
    RunKeepsInv(notices, events);
  }

  // ---- When the probe deceives ------------------------------------------------------------------------

  /** A schedule after which the key of the offered probe stands although it is not taken yet, so that the next
      look answers 1. */
  ghost predicate DeceivedBy(notices: nat, b: Bench, events: seq<Event>) {
    var c := Run(notices, b, events);
    && b.phase.Offering? && c.Some?
    && c.value.phase.Waiting? && c.value.phase.number == b.phase.number
    && ProbeKey(b.phase.number) in c.value.intake.standing
    && !TookUpTo(c.value.intake, c.value.phase.at)
  }

  function Takes(n: nat): (events: seq<Event>)
    ensures forall e <- events :: e.Take?
  {
    if n == 0 then [] else Takes(n - 1) + [Take(false)]
  }

  lemma {:induction false} TakesRun(notices: nat, b: Bench, n: nat)
    requires n <= |b.intake.queue| && Fifo(b.intake)
    ensures var c := Run(notices, b, Takes(n));
            && c.Some? && c.value == b.(intake := c.value.intake) && Fifo(c.value.intake)
            && c.value.intake.accepted == b.intake.accepted && c.value.intake.queue == b.intake.queue[n..]
            && (forall k :: k in b.intake.standing ==> k in c.value.intake.standing)
            && (n > 0 && b.intake.queue[n - 1].question ==> b.intake.queue[n - 1].key in c.value.intake.standing)
  {
    if n > 0 {
      TakesRun(notices, b, n - 1);
      assert Takes(n)[..|Takes(n)| - 1] == Takes(n - 1);
      var c := Run(notices, b, Takes(n - 1)).value;
      TakeKeepsFifo(c.intake, false);
    } else {
      assert b.intake.queue[0..] == b.intake.queue;
    }
  }

  lemma RunOneMore(notices: nat, b: Bench, events: seq<Event>, e: Event)
    requires Run(notices, b, events).Some?
    ensures Run(notices, b, events + [e]) == Next(notices, Run(notices, b, events).value, e)
  {
    assert (events + [e])[..|events + [e]| - 1] == events;
  }

  /** Every waiting notice with a probe's key is a probe. */
  ghost predicate ProbesAreQuestions(q: Intake, key: string) {
    forall i :: 0 <= i < |q.queue| && q.queue[i].key == key ==> q.queue[i].question
  }

  /** The worker can make a stale key stand, and room for one more. */
  lemma StaleKeyStands(notices: nat, b: Bench, key: string) returns (n: nat, c: Bench)
    requires Fifo(b.intake) && !Clean(b.intake, key) && ProbesAreQuestions(b.intake, key)
    ensures Run(notices, b, Takes(n)) == Some(c) && c == b.(intake := c.intake)
    ensures Fifo(c.intake) && HasRoom(c.intake) && key in c.intake.standing
  {
    hide Run, Next, Takes;
    n := if HasRoom(b.intake) then 0 else 1;
    if key !in b.intake.standing {
      var i :| 0 <= i < |b.intake.queue| && b.intake.queue[i].key == key;
      n := i + 1;
    }
    TakesRun(notices, b, n);
    c := Run(notices, b, Takes(n)).value;
  }

  /** A stale key deceives, with room for the probe or once the worker has made some. */
  lemma StaleKeyDeceives(notices: nat, b: Bench) returns (events: seq<Event>)
    requires Fifo(b.intake) && b.phase.Offering?
    requires !Clean(b.intake, ProbeKey(b.phase.number)) && ProbesAreQuestions(b.intake, ProbeKey(b.phase.number))
    ensures DeceivedBy(notices, b, events) && StillThisSample(events)
  {
    hide ProbeKey, Run, Next, Clean, ProbesAreQuestions, TookUpTo, Takes, Fifo, HasRoom;
    var n, c := StaleKeyStands(notices, b, ProbeKey(b.phase.number));
    RunOneMore(notices, b, Takes(n), OfferProbe);
    OfferedBehind(notices, c);
    events := Takes(n) + [OfferProbe];
  }

  /** A probe just offered is not taken, whatever stands. */
  lemma OfferedBehind(notices: nat, c: Bench)
    requires Fifo(c.intake) && c.phase.Offering? && HasRoom(c.intake)
    ensures var d := Next(notices, c, OfferProbe);
            && d.Some? && d.value.phase.Waiting? && d.value.phase.number == c.phase.number
            && d.value.intake.standing == c.intake.standing && !TookUpTo(d.value.intake, d.value.phase.at)
  {
    hide ProbeKey, Clean;
  }

  /** From a point where a clean probe is offered, no schedule deceives. */
  lemma {:induction false} CleanKeyCannotDeceive(notices: nat, b: Bench, events: seq<Event>)
    requires Inv(b) && b.phase.Offering? && Clean(b.intake, ProbeKey(b.phase.number))
    requires StillThisSample(events)
    ensures !DeceivedBy(notices, b, events)
    ensures var c := Run(notices, b, events);
            c.Some? ==>
              && Inv(c.value) && !c.value.phase.Sending?
              && (c.value.phase.Offering?
                  ==> c.value.phase == b.phase && Clean(c.value.intake, ProbeKey(b.phase.number)))
              && (c.value.phase.Waiting? ==> c.value.phase.number == b.phase.number && c.value.phase.clean)
  {
    hide ProbeKey;
    if events != [] {
      var before, e := events[..|events| - 1], events[|events| - 1];
      CleanKeyCannotDeceive(notices, b, before);
      if Run(notices, b, events).Some? {
        var c := Run(notices, b, before).value;
        NextKeepsInv(notices, c, e);
        if e.Take? && c.phase.Offering? { TakeKeepsClean(c.intake, e.ends, ProbeKey(b.phase.number)); }
      }
    }
  }

  /** The events up to the answer of the sample at hand. */
  ghost predicate StillThisSample(events: seq<Event>) {
    forall e <- events :: !e.StartSample?
  }

  /** Only probes are questions, and every notice without a session's key is a probe. */
  ghost predicate Kinds(q: Intake) {
    forall i :: 0 <= i < |q.accepted| ==> q.accepted[i].question || exists n: nat :: q.accepted[i].key == SessionKey(n)
  }

  lemma KindsMakeQuestions(q: Intake, m: nat)
    requires Fifo(q) && Kinds(q)
    ensures ProbesAreQuestions(q, ProbeKey(m))
  {
    hide ProbeKey, SessionKey;
    forall i | 0 <= i < |q.queue| && q.queue[i].key == ProbeKey(m) ensures q.queue[i].question {
      assert q.queue[i] == q.accepted[|q.taken| + i];
      forall n: nat ensures SessionKey(n) != ProbeKey(m) { ProbeKeysCollideExactly(n, m); }
    }
  }

  lemma {:induction false} RunKeepsKinds(notices: nat, events: seq<Event>)
    requires Run(notices, START, events).Some?
    ensures Kinds(Run(notices, START, events).value.intake)
  {
    hide ProbeKey, SessionKey;
    if events != [] {
      RunKeepsKinds(notices, events[..|events| - 1]);
    }
  }

  /** The probe is evidence exactly when its key is clean as it is offered, whether or not the queue has
      room for it: then no schedule of this sample deceives, and otherwise some schedule does. */
  lemma ProbeIsEvidenceExactlyWhen(notices: nat, history: seq<Event>)
    requires Run(notices, START, history).Some?
    ensures var b := Run(notices, START, history).value;
            b.phase.Offering? ==>
              (Clean(b.intake, ProbeKey(b.phase.number))
               <==> forall events :: StillThisSample(events) ==> !DeceivedBy(notices, b, events))
  {
    RunKeepsInv(notices, history);
    RunKeepsKinds(notices, history);
    hide Run, ProbeKey;
    var b := Run(notices, START, history).value;
    if b.phase.Offering? {
      KindsMakeQuestions(b.intake, b.phase.number);
      if Clean(b.intake, ProbeKey(b.phase.number)) {
        forall events | StillThisSample(events) ensures !DeceivedBy(notices, b, events) {
          CleanKeyCannotDeceive(notices, b, events);
        }
      } else {
        var events := StaleKeyDeceives(notices, b);
      }
    }
  }

  // ---- How the arms number their probes -----------------------------------------------------------------

  lemma {:induction false} CountersRise(notices: nat, b: Bench, events: seq<Event>, arm: nat)
    requires Run(notices, b, events).Some?
    ensures Counter(Run(notices, b, events).value, arm) >= Counter(b, arm)
  {
    hide ProbeKey, SessionKey;
    if events != [] { CountersRise(notices, b, events[..|events| - 1], arm); }
  }

  /** Two samples of one arm never share a number: the later one's is higher. */
  lemma NumbersRisePerArm(notices: nat, b: Bench, between: seq<Event>)
    requires b.phase.Sending? && Next(notices, b, FinishSending).Some?
    requires var c := Run(notices, Next(notices, b, FinishSending).value, between);
             c.Some? && c.value.phase.Sending? && c.value.phase.arm == b.phase.arm
                 && Next(notices, c.value, FinishSending).Some?
    ensures var c := Run(notices, Next(notices, b, FinishSending).value, between).value;
            Next(notices, c, FinishSending).value.phase.number > Next(notices, b, FinishSending).value.phase.number
  {
    CountersRise(notices, Next(notices, b, FinishSending).value, between, b.phase.arm);
  }

  lemma {:induction false} RunAppends(notices: nat, b: Bench, first: seq<Event>, second: seq<Event>)
    requires Run(notices, b, first).Some?
    ensures Run(notices, b, first + second) == Run(notices, Run(notices, b, first).value, second)
  {
    hide Next;
    if second == [] {
      assert first + second == first;
    } else {
      assert (first + second)[..|first + second| - 1] == first + second[..|second| - 1];
      RunAppends(notices, b, first, second[..|second| - 1]);
    }
  }

  lemma RunOne(notices: nat, b: Bench, e: Event)
    ensures Run(notices, b, [e]) == Next(notices, b, e)
  {
    assert [e][..0] == [];
  }

  /** n notices offered, the worker taking one after each. */
  function Pairs(n: nat): seq<Event> {
    if n == 0 then [] else Pairs(n - 1) + [OfferNotice(false), Take(false)]
  }

  /** The key stands, or the one waiting notice is going to stand it. */
  predicate Stale(q: Intake, key: string) {
    key in q.standing || (|q.queue| == 1 && q.queue[0] == Notice(key, true))
  }

  /** One such pair sends one notice, keeps the queue's length and leaves a stale key stale. */
  lemma OnePair(notices: nat, b: Bench, key: string) returns (c: Bench)
    requires b.phase.Sending? && b.phase.sent < notices && |b.intake.queue| <= 1
    ensures Run(notices, b, [OfferNotice(false), Take(false)]) == Some(c)
    ensures c == b.(intake := c.intake, phase := Sending(b.phase.arm, b.phase.sent + 1))
    ensures |c.intake.queue| == |b.intake.queue|
    ensures Stale(b.intake, key) ==> Stale(c.intake, key)
  {
    hide SampleNotice;
    var n := SampleNotice(b.phase.sent);
    var d := Next(notices, b, OfferNotice(false)).value;
    c := Next(notices, d, Take(false)).value;
    assert d.intake.queue == b.intake.queue + [n];
    assert [OfferNotice(false), Take(false)] == [OfferNotice(false)] + [Take(false)];
    RunOne(notices, b, OfferNotice(false));
    RunOneMore(notices, b, [OfferNotice(false)], Take(false));
  }

  lemma {:induction false} PairsRun(notices: nat, b: Bench, n: nat, key: string) returns (c: Bench)
    requires b.phase.Sending? && b.phase.sent + n <= notices && |b.intake.queue| <= 1
    ensures Run(notices, b, Pairs(n)) == Some(c)
    ensures c == b.(intake := c.intake, phase := Sending(b.phase.arm, b.phase.sent + n))
    ensures |c.intake.queue| == |b.intake.queue|
    ensures Stale(b.intake, key) ==> Stale(c.intake, key)
  {
    hide Next, Stale;
    if n == 0 {
      c := b;
    } else {
      var d := PairsRun(notices, b, n - 1, key);
      c := OnePair(notices, d, key);
      RunAppends(notices, b, Pairs(n - 1), [OfferNotice(false), Take(false)]);
    }
  }

  const GIVES_UP: seq<Event> := [FinishSending, OfferProbe, GiveUpWaiting, AnswerProbe]

  /** A sample that has sent everything, finds the queue empty and gives up on its probe at once leaves
      the probe waiting. */
  lemma ProbeIsLeftBehind(notices: nat, b: Bench) returns (c: Bench)
    requires b.phase.Sending? && b.phase.sent == notices && b.intake.queue == []
    ensures Run(notices, b, GIVES_UP) == Some(c)
    ensures c.phase == Idle && c.counters == b.counters[b.phase.arm := Counter(b, b.phase.arm) + 1]
    ensures c.intake.queue == [Probe(Counter(b, b.phase.arm))]
    ensures c.timedOut == b.timedOut + {Counter(b, b.phase.arm)}
  {
    hide Probe, ProbeKey;
    var b1 := Next(notices, b, FinishSending).value;
    var b2 := Next(notices, b1, OfferProbe).value;
    var b3 := Next(notices, b2, GiveUpWaiting).value;
    c := Next(notices, b3, AnswerProbe).value;
    assert [] + [Probe(b1.phase.number)] == [Probe(b1.phase.number)];
    hide Next;
    RunOne(notices, b, FinishSending);
    RunOneMore(notices, b, [FinishSending], OfferProbe);
    RunOneMore(notices, b, [FinishSending] + [OfferProbe], GiveUpWaiting);
    RunOneMore(notices, b, [FinishSending] + [OfferProbe] + [GiveUpWaiting], AnswerProbe);
    assert GIVES_UP == [FinishSending] + [OfferProbe] + [GiveUpWaiting] + [AnswerProbe];
  }

  /** The first sample of one arm, which gives up, and the first of the other up to its probe. */
  function TwoFirstSamples(notices: nat): seq<Event> {
    [StartSample(0)] + Pairs(notices) + GIVES_UP + [StartSample(1)] + Pairs(notices) + [FinishSending]
  }

  /** The first sample of one arm, with its probe left behind. */
  lemma FirstSampleGivesUp(notices: nat) returns (b: Bench)
    ensures Run(notices, START, [StartSample(0)] + Pairs(notices) + GIVES_UP) == Some(b)
    ensures b.phase == Idle && b.counters == map[0 := 1] && b.intake.queue == [Probe(0)]
  {
    hide Probe, Next;
    var b1 := START.(phase := Sending(0, 0));
    assert Run(notices, START, [StartSample(0)]) == Some(b1) by { Starts(notices, START, 0); }
    var b2 := PairsRun(notices, b1, notices, ProbeKey(0));
    RunAppends(notices, START, [StartSample(0)], Pairs(notices));
    b := ProbeIsLeftBehind(notices, b2);
    RunAppends(notices, START, [StartSample(0)] + Pairs(notices), GIVES_UP);
  }

  lemma Starts(notices: nat, b: Bench, arm: nat)
    requires b.phase == Idle
    ensures Run(notices, b, [StartSample(arm)]) == Some(b.(phase := Sending(arm, 0)))
  {
    RunOne(notices, b, StartSample(arm));
  }

  lemma Finishes(notices: nat, b: Bench)
    requires b.phase.Sending? && b.phase.sent == notices
    ensures var number := Counter(b, b.phase.arm);
            Run(notices, b, [FinishSending])
            == Some(b.(phase := Offering(number), counters := b.counters[b.phase.arm := number + 1]))
  {
    RunOne(notices, b, FinishSending);
  }

  /** Samples of different arms do share numbers, and that deceives, however many notices a sample has.
      When the first sample of one arm times out with its probe accepted, the first sample of the other
      arm drives that probe through the queue, or finds it waiting, and offers its own under the same
      key; some schedule makes it answer 1 with its own probe not taken. */
  lemma TwoArmsCollide(notices: nat) returns (events: seq<Event>)
    ensures Run(notices, START, TwoFirstSamples(notices)).Some?
    ensures DeceivedBy(notices, Run(notices, START, TwoFirstSamples(notices)).value, events) && StillThisSample(events)
  {
    hide Next, Pairs, GIVES_UP, Probe, Clean, DeceivedBy, Fifo;
    var before := [StartSample(0)] + Pairs(notices) + GIVES_UP;
    var b := FirstSampleGivesUp(notices);
    Starts(notices, b, 1);
    RunAppends(notices, START, before, [StartSample(1)]);
    assert Stale(b.intake, ProbeKey(0)) by { ProbeIsNotice(0); }
    var c := PairsRun(notices, b.(phase := Sending(1, 0)), notices, ProbeKey(0));
    RunAppends(notices, START, before + [StartSample(1)], Pairs(notices));
    Finishes(notices, c);
    RunAppends(notices, START, before + [StartSample(1)] + Pairs(notices), [FinishSending]);
    RunKeepsInv(notices, TwoFirstSamples(notices));
    RunKeepsKinds(notices, TwoFirstSamples(notices));
    KindsMakeQuestions(c.intake, 0);
    StaleIsNotClean(c.intake, ProbeKey(0));
    events := StaleKeyDeceives(notices, Run(notices, START, TwoFirstSamples(notices)).value);
  }

  lemma ProbeIsNotice(number: nat)
    ensures Probe(number) == Notice(ProbeKey(number), true)
  {
  }

  lemma StaleIsNotClean(q: Intake, key: string)
    requires Stale(q, key)
    ensures !Clean(q, key)
  {
  }

  // ---- The bench as it runs --------------------------------------------------------------------------------

  datatype Offer = Accepted | Coalesced | QueueFull | Refused

  /** How the queue meets an offer: it takes it in when there is room, folds it into a notice that
      waits, or refuses it outright. */
  datatype Handling = Queues | Folds | Refuses

  /** What the worker does before the producer's next step: the notices it takes, and for each whether
      it ends what its session asked; then how the queue meets the offer. */
  datatype Turn = Turn(takes: seq<bool>, handling: Handling)

  /** The notices of the given numbers. */
  function Notices(numbers: seq<nat>): (r: seq<Notice>)
    ensures |r| == |numbers| && forall i :: 0 <= i < |r| ==> r[i] == SampleNotice(numbers[i])
  {
    if numbers == [] then [] else Notices(numbers[..|numbers| - 1]) + [SampleNotice(numbers[|numbers| - 1])]
  }

  /** The numbers rise and stay below n. */
  ghost predicate RisesBelow(numbers: seq<nat>, n: nat) {
    && (forall i :: 0 <= i < |numbers| ==> numbers[i] < n)
    && (forall i, j :: 0 <= i < j < |numbers| ==> numbers[i] < numbers[j])
  }

  // ---- What the worker has taken after a stretch of a schedule -----------------------------------------------

  /** The notices of two numbers are the same exactly when the numbers agree modulo the 64 sessions, and no notice
      of a sample is a question. */
  lemma SampleNoticesRepeat(m: nat, n: nat)
    ensures SampleNotice(m) == SampleNotice(n) <==> m % 64 == n % 64
    ensures !SampleNotice(m).question
  {
    var prefix := "term-bench-";
    assert SampleNotice(m).key[|prefix|..] == Print(m % 64) && SampleNotice(n).key[|prefix|..] == Print(n % 64);
    PrintedValue(m % 64);
    PrintedValue(n % 64);
  }

  /** What a stretch of takes leaves: the worker stops where the queue is empty. */
  function TakeMany(q: Intake, takes: seq<bool>): Intake {
    if takes == [] then q
    else
      var p := TakeMany(q, takes[..|takes| - 1]);
      if p.queue == [] then p else TakeOne(p, takes[|takes| - 1])
  }

  /** How many of the waiting notices are left after so many takes. */
  function Left(waiting: nat, takes: nat): nat {
    if takes < waiting then waiting - takes else 0
  }

  /** The notice at place k of the queue ends what its session asked, as one that is no question may. */
  predicate EndsKey(q: Intake, takes: seq<bool>, k: nat, key: string)
    requires k < |takes| && k < |q.queue|
  {
    q.queue[k].key == key && !q.queue[k].question && takes[k]
  }

  /** The first n waiting notices leave the key standing: a question with the key that none of them ends after it
      is among them, or the key stood before and none of them ends it. */
  ghost predicate LeftStanding(q: Intake, takes: seq<bool>, n: nat, key: string)
    requires n <= |takes| && n <= |q.queue|
  {
    || (key in q.standing && forall k :: 0 <= k < n ==> !EndsKey(q, takes, k, key))
    || (exists i :: 0 <= i < n && q.queue[i] == Notice(key, true)
                    && forall k :: i < k < n ==> !EndsKey(q, takes, k, key))
  }

  /** One more taken notice stands its key if it is a question, and otherwise takes its key away if it ends it. */
  lemma OneMoreStands(q: Intake, takes: seq<bool>, n: nat, key: string)
    requires n < |takes| && n < |q.queue|
    ensures LeftStanding(q, takes, n + 1, key)
            <==> q.queue[n] == Notice(key, true)
                 || (LeftStanding(q, takes, n, key) && !EndsKey(q, takes, n, key))
  {
    if q.queue[n] != Notice(key, true) && LeftStanding(q, takes, n, key) && !EndsKey(q, takes, n, key) {
      if key in q.standing && forall k :: 0 <= k < n ==> !EndsKey(q, takes, k, key) {
        assert forall k :: 0 <= k < n + 1 ==> !EndsKey(q, takes, k, key);
      }
    }
  }

  /** A stretch of takes takes that many notices from the head, or all of them, in order, and a key stands after
      it exactly when the notices taken leave it standing. */
  lemma {:induction false} TakenInOrder(q: Intake, takes: seq<bool>)
    ensures var r, n := TakeMany(q, takes), |q.queue| - Left(|q.queue|, |takes|);
            && r.accepted == q.accepted
            && r.taken == q.taken + q.queue[..n]
            && r.queue == q.queue[n..]
            && forall key :: key in r.standing <==> LeftStanding(q, takes, n, key)
  {
    if takes != [] {
      hide LeftStanding, TakeOne;
      var last := |takes| - 1;
      TakenInOrder(q, takes[..last]);
      var n := |q.queue| - Left(|q.queue|, last);
      forall key ensures LeftStanding(q, takes[..last], n, key) <==> LeftStanding(q, takes, n, key) {
        SameTakes(q, takes[..last], takes, n, key);
      }
      if last < |q.queue| { OneMoreTaken(q, takes, TakeMany(q, takes[..last])); }
    }
  }

  lemma OneMoreTaken(q: Intake, takes: seq<bool>, p: Intake)
    requires 0 < |takes| <= |q.queue|
    requires p.accepted == q.accepted
    requires p.taken == q.taken + q.queue[..|takes| - 1] && p.queue == q.queue[|takes| - 1..]
    requires forall key :: key in p.standing <==> LeftStanding(q, takes, |takes| - 1, key)
    ensures var r := TakeOne(p, takes[|takes| - 1]);
            && r.accepted == q.accepted && r.taken == q.taken + q.queue[..|takes|] && r.queue == q.queue[|takes|..]
            && forall key :: key in r.standing <==> LeftStanding(q, takes, |takes|, key)
  {
    hide LeftStanding;
    var last := |takes| - 1;
    assert p.queue[0] == q.queue[last];
    assert q.queue[..last + 1] == q.queue[..last] + [q.queue[last]];
    forall key ensures key in TakeOne(p, takes[last]).standing <==> LeftStanding(q, takes, last + 1, key) {
      OneMoreStands(q, takes, last, key);
    }
  }

  lemma SameTakes(q: Intake, some: seq<bool>, more: seq<bool>, n: nat, key: string)
    requires n <= |some| <= |more| && more[..|some|] == some && n <= |q.queue|
    ensures LeftStanding(q, some, n, key) <==> LeftStanding(q, more, n, key)
  {
    assert forall k :: 0 <= k < n ==> (EndsKey(q, some, k, key) <==> EndsKey(q, more, k, key)) by {
      assert forall k :: 0 <= k < n ==> some[k] == more[k];
    }
  }

  lemma {:induction false} TakeManyAppends(q: Intake, first: seq<bool>, second: seq<bool>)
    ensures TakeMany(q, first + second) == TakeMany(TakeMany(q, first), second)
  {
    if second == [] {
      assert first + second == first;
    } else {
      assert (first + second)[..|first + second| - 1] == first + second[..|second| - 1];
      TakeManyAppends(q, first, second[..|second| - 1]);
    }
  }

  lemma NothingTaken(q: Intake)
    ensures TakeMany(q, []) == q
  {
  }

  lemma {:induction false} TakeManyKeeps(q: Intake, takes: seq<bool>, key: string)
    requires Fifo(q)
    ensures Fifo(TakeMany(q, takes)) && TakeMany(q, takes).accepted == q.accepted
    ensures |TakeMany(q, takes).queue| == Left(|q.queue|, |takes|)
    ensures Clean(q, key) ==> Clean(TakeMany(q, takes), key)
  {
    if takes != [] {
      hide Clean, Fifo;
      var p := TakeMany(q, takes[..|takes| - 1]);
      TakeManyKeeps(q, takes[..|takes| - 1], key);
      if p.queue != [] {
        TakeKeepsFifo(p, takes[|takes| - 1]);
        if Clean(q, key) { TakeKeepsClean(p, takes[|takes| - 1], key); }
      }
    }
  }

  /** The takes of the turns from one to before the other, in order. */
  function TakesBetween(schedule: seq<Turn>, from: nat, to: nat): seq<bool>
    requires from <= to <= |schedule|
  {
    if from == to then [] else TakesBetween(schedule, from, to - 1) + schedule[to - 1].takes
  }

  // ---- A probe that is offered by a schedule -------------------------------------------------------------------

  /** The intake as the probe is offered at turn i, when it was not taken in or folded before. */
  function Before(q: Intake, schedule: seq<Turn>, i: nat): Intake
    requires i < |schedule|
  {
    TakeMany(q, TakesBetween(schedule, 0, i + 1))
  }

  /** The probe enters the queue at turn i, if it is offered then: fewer than 64 notices are left of those that
      waited as the offering began. */
  predicate EntersAt(waiting: nat, schedule: seq<Turn>, i: nat)
    requires i < |schedule|
  {
    schedule[i].handling.Queues? && Left(waiting, |TakesBetween(schedule, 0, i + 1)|) < 64
  }

  /** Turn i is the first one at which the probe enters the queue or is folded. */
  ghost predicate OfferedAt(waiting: nat, schedule: seq<Turn>, i: nat) {
    && i < |schedule| && (schedule[i].handling.Folds? || EntersAt(waiting, schedule, i))
    && forall k :: 0 <= k < i ==> !schedule[k].handling.Folds? && !EntersAt(waiting, schedule, k)
  }

  /** The intake after the offer at turn i. */
  function After(q: Intake, schedule: seq<Turn>, i: nat, probe: Notice): Intake
    requires i < |schedule|
  {
    var before := Before(q, schedule, i);
    if EntersAt(|q.queue|, schedule, i)
    then before.(accepted := before.accepted + [probe], queue := before.queue + [probe])
    else before
  }

  /** The intake as the worker has taken what the turns after i and before j allow. */
  function SeenAt(q: Intake, schedule: seq<Turn>, i: nat, j: nat, probe: Notice): Intake
    requires i < j <= |schedule|
  {
    TakeMany(After(q, schedule, i, probe), TakesBetween(schedule, i + 1, j))
  }

  /** Enough is taken between turn i and the last look, which is at the start of the last turn: everything that
      waited as the probe was taken in, and the probe. */
  predicate TakenInTime(waiting: nat, schedule: seq<Turn>, i: nat)
    requires i < |schedule|
  {
    && i + 1 < |schedule|
    && |TakesBetween(schedule, i + 1, |schedule| - 1)| >= Left(waiting, |TakesBetween(schedule, 0, i + 1)|) + 1
  }

  lemma {:induction false} TakesBetweenRises(schedule: seq<Turn>, from: nat, j: nat, to: nat)
    requires from <= j <= to <= |schedule|
    ensures |TakesBetween(schedule, from, j)| <= |TakesBetween(schedule, from, to)|
  {
    if j < to { TakesBetweenRises(schedule, from, j, to - 1); }
  }

  /** Under a clean key the probe stands exactly when it is taken, with everything before it. */
  lemma CleanKeyStandsExactlyWhen(q: Intake, key: string, takes: seq<bool>)
    requires Fifo(q) && Clean(q, key)
    ensures var probe := Notice(key, true);
            var p := q.(accepted := q.accepted + [probe], queue := q.queue + [probe]);
            && (key in TakeMany(p, takes).standing <==> |takes| > |q.queue|)
            && (key in TakeMany(p, takes).standing ==> q.accepted <= TakeMany(p, takes).taken)
    ensures key !in TakeMany(q, takes).standing
  {
    hide TakeMany;
    var probe := Notice(key, true);
    var p := q.(accepted := q.accepted + [probe], queue := q.queue + [probe]);
    TakenInOrder(p, takes);
    TakenInOrder(q, takes);
    if |takes| > |q.queue| {
      assert p.queue[|q.queue|] == probe;
      assert p.queue[..|q.queue| + 1] == q.queue + [probe];
      assert q.taken + (q.queue + [probe]) == q.accepted + [probe];
    }
  }

  /** Under a clean key a look at turn j finds the probe standing exactly when the turns between have taken
      everything that waited, and the probe. */
  lemma LookStandsExactlyWhen(q: Intake, number: nat, schedule: seq<Turn>, i: nat, j: nat)
    requires Fifo(q) && Clean(q, ProbeKey(number)) && i < j <= |schedule|
    ensures var seen := SeenAt(q, schedule, i, j, Probe(number));
            && (ProbeKey(number) in seen.standing
                <==> EntersAt(|q.queue|, schedule, i)
                     && |TakesBetween(schedule, i + 1, j)| > Left(|q.queue|, |TakesBetween(schedule, 0, i + 1)|))
            && (ProbeKey(number) in seen.standing ==> q.accepted <= seen.taken)
  {
    hide ProbeKey, TakeMany, Left, TakesBetween, Clean, Fifo;
    var key := ProbeKey(number);
    TakeManyKeeps(q, TakesBetween(schedule, 0, i + 1), key);
    CleanKeyStandsExactlyWhen(Before(q, schedule, i), key, TakesBetween(schedule, i + 1, j));
  }

  // ---- The attempts of a sample --------------------------------------------------------------------------------

  /** One attempt to offer the notice of a number: how many waited as it was made, and how it was met. */
  datatype Attempt = Attempt(waiting: nat, number: nat, offer: Offer)

  /** How many wait after the attempts so far. */
  function WaitingAfter(log: seq<Attempt>, waiting: nat): nat {
    if log == [] then waiting
    else
      var last := log[|log| - 1];
      last.waiting + if last.offer.Accepted? then 1 else 0
  }

  /** The number of the notice that is offered after the attempts so far: the same one again after a full queue. */
  function NumberAfter(log: seq<Attempt>): nat {
    if log == [] then 0
    else
      var last := log[|log| - 1];
      last.number + if last.offer.Accepted? || last.offer.Coalesced? then 1 else 0
  }

  /** The attempts of a sample that finds so many waiting. */
  ghost predicate Logged(log: seq<Attempt>, waiting: nat, schedule: seq<Turn>)
    requires |log| <= |schedule|
  {
    forall a :: 0 <= a < |log| ==>
         && log[a].waiting == Left(WaitingAfter(log[..a], waiting), |schedule[a].takes|)
         && log[a].number == NumberAfter(log[..a])
         && (log[a].offer.Accepted? <==> schedule[a].handling.Queues? && log[a].waiting < 64)
         && (log[a].offer.QueueFull? <==> schedule[a].handling.Queues? && log[a].waiting >= 64)
         && (log[a].offer.Coalesced? <==> schedule[a].handling.Folds?)
  }

  /** The places of the attempts that found the queue full. */
  function FullAt(log: seq<Attempt>): set<nat> {
    set a | 0 <= a < |log| && log[a].offer.QueueFull?
  }

  ghost predicate AcceptedAs(log: seq<Attempt>, number: nat) {
    exists a :: 0 <= a < |log| && log[a].offer.Accepted? && log[a].number == number
  }

  /** The intake after the attempts: the worker's takes before each, and what each added. */
  function AfterAttempts(q: Intake, schedule: seq<Turn>, log: seq<Attempt>): Intake
    requires |log| <= |schedule|
  {
    if log == [] then q
    else
      var last := |log| - 1;
      var p := TakeMany(AfterAttempts(q, schedule, log[..last]), schedule[last].takes);
      if log[last].offer.Accepted? then Accept(p, SampleNotice(log[last].number)) else p
  }

  lemma AfterOne(q: Intake, log: seq<Attempt>, more: Attempt, schedule: seq<Turn>)
    requires |log| < |schedule|
    ensures var p := TakeMany(AfterAttempts(q, schedule, log), schedule[|log|].takes);
            AfterAttempts(q, schedule, log + [more])
            == if more.offer.Accepted? then Accept(p, SampleNotice(more.number)) else p
  {
    assert (log + [more])[..|log|] == log;
  }

  /** One more attempt keeps the log, and is one more full queue or one more accepted number. */
  lemma LogOne(log: seq<Attempt>, more: Attempt, waiting: nat, schedule: seq<Turn>)
    requires |log| < |schedule| && Logged(log, waiting, schedule)
    requires more.waiting == Left(WaitingAfter(log, waiting), |schedule[|log|].takes|)
    requires more.number == NumberAfter(log)
    requires more.offer == match schedule[|log|].handling
                           case Queues => if more.waiting < 64 then Accepted else QueueFull
                           case Folds => Coalesced
                           case Refuses => Refused
    ensures Logged(log + [more], waiting, schedule)
    ensures |FullAt(log + [more])| == |FullAt(log)| + if more.offer.QueueFull? then 1 else 0
    ensures forall n ::
              AcceptedAs(log + [more], n) <==> AcceptedAs(log, n) || (more.offer.Accepted? && n == more.number)
  {
    hide Left, WaitingAfter, NumberAfter;
    var all := log + [more];
    assert all[..|log|] == log;
    forall a | 0 <= a < |log| ensures all[..a] == log[..a] && all[a] == log[a] {}
    if more.offer.QueueFull? {
      assert FullAt(all) == FullAt(log) + {|log|};
    } else {
      assert FullAt(all) == FullAt(log);
    }
    forall n ensures AcceptedAs(all, n) <==> AcceptedAs(log, n) || (more.offer.Accepted? && n == more.number) {
      if AcceptedAs(log, n) {
        var a :| 0 <= a < |log| && log[a].offer.Accepted? && log[a].number == n;
        assert all[a] == log[a];
      }
      if more.offer.Accepted? && n == more.number { assert all[|log|] == more; }
    }
  }

  /** The intake with its queue, and the worker behind it. What other threads do between two steps of
      the producer is given by a schedule. */
  class AlertQueue {
    var queue: seq<Notice>
    var standing: set<string>
    ghost var accepted: seq<Notice>
    ghost var taken: seq<Notice>

    constructor ()
      ensures Contents() == EMPTY
    {
      queue, standing := [], {};
      accepted, taken := [], [];
    }

    ghost function Contents(): Intake
      reads this
    {
      Intake(accepted, taken, queue, standing)
    }

    method TryOffer(n: Notice, handling: Handling) returns (offer: Offer)
      modifies this
      ensures offer == match handling
                       case Queues => if HasRoom(old(Contents())) then Accepted else QueueFull
                       case Folds => Coalesced
                       case Refuses => Refused
      ensures Contents() == if offer.Accepted? then Accept(old(Contents()), n) else old(Contents())
    {
      if handling == Folds { return Coalesced; }
      if handling == Refuses { return Refused; }
      if |queue| >= SLOTS { return QueueFull; }
      queue := queue + [n];
      accepted := accepted + [n];
      return Accepted;
    }

    /** The worker takes notices for as long as there are any, one for each flag at most. */
    method Work(takes: seq<bool>)
      requires Fifo(Contents())
      modifies this
      ensures Contents() == TakeMany(old(Contents()), takes) && Fifo(Contents())
    {
      for t := 0 to |takes|
        invariant Contents() == TakeMany(old(Contents()), takes[..t]) && Fifo(Contents())
      {
        assert takes[..t + 1][..t] == takes[..t];
        if queue != [] { WorkOne(takes[t]); }
      }
      assert takes[..|takes|] == takes;
    }

    method WorkOne(ends: bool)
      requires Fifo(Contents()) && queue != []
      modifies this
      ensures Contents() == TakeOne(old(Contents()), ends) && Fifo(Contents())
    {
      TakeKeepsFifo(Contents(), ends);
      var n := queue[0];
      queue := queue[1..];
      taken := taken + [n];
      if n.question {
        standing := standing + {n.key};
      } else if ends {
        standing := standing - {n.key};
      }
    }

    /** Offers `notices` notices, retrying a full queue, for as long as the schedule lasts. Of the first
        `sent`, in order, those were accepted that were not folded into a waiting one; every attempt at
        a full queue counts as a retry. The bench panics at the first offer refused outright. `log` has an
        entry for every attempt. */
    method RunSample(notices: nat, schedule: seq<Turn>)
      returns (sent: nat, retries: nat, panicked: bool, ghost kept: seq<nat>, ghost log: seq<Attempt>)
      requires Fifo(Contents())
      modifies this
      ensures Fifo(Contents()) && sent <= notices
      ensures |log| <= |schedule| && Logged(log, |old(queue)|, schedule)
      ensures accepted == old(accepted) + Notices(kept) && RisesBelow(kept, sent)
      ensures forall n :: n in kept <==> AcceptedAs(log, n)
      ensures retries == |FullAt(log)|
      ensures |log| == sent + retries + if panicked then 1 else 0
      ensures panicked <==> log != [] && log[|log| - 1].offer.Refused?
      ensures forall a :: 0 <= a < |log| ==> log[a].number < notices && (log[a].offer.Refused? ==> a == |log| - 1)
      ensures sent == notices || panicked || |log| == |schedule|
      ensures Contents() == AfterAttempts(old(Contents()), schedule, log)
    {
      hide SampleNotice, Fifo, Notices, RisesBelow, TakeMany, Left, FullAt, AcceptedAs, Logged, AfterAttempts;
      sent, retries, panicked, kept, log := 0, 0, false, [], [];
      ghost var q := Contents();
      NothingKept();
      NothingLogged(q, schedule);
      for a := 0 to |schedule|
        invariant Fifo(Contents()) && sent <= notices && !panicked && |log| <= a
        invariant Logged(log, |q.queue|, schedule) && Contents() == AfterAttempts(q, schedule, log)
        invariant |queue| == WaitingAfter(log, |q.queue|) && sent == NumberAfter(log)
        invariant accepted == q.accepted + Notices(kept) && RisesBelow(kept, sent)
        invariant forall n :: n in kept <==> AcceptedAs(log, n)
        invariant retries == |FullAt(log)| && |log| == sent + retries
        invariant sent == notices || |log| == a
        invariant forall b :: 0 <= b < |log| ==> log[b].number < notices && !log[b].offer.Refused?
      {
        if sent == notices { break; }
        var offer;
        offer, log := MakeAttempt(q, sent, schedule[a], schedule, log);
        if offer.Refused? {
          panicked := true;
          break;
        }
        if offer.QueueFull? {
          retries := retries + 1;
        } else {
          RisesOn(kept, sent);
          if offer.Accepted? {
            KeepOne(kept, sent);
            kept := kept + [sent];
          }
          sent := sent + 1;
        }
      }
    }

    /** One turn of a sample: the worker's takes, and then the offer of the notice at hand. */
    method MakeAttempt(ghost q: Intake, number: nat, turn: Turn, ghost schedule: seq<Turn>, ghost log: seq<Attempt>)
      returns (offer: Offer, ghost more: seq<Attempt>)
      requires |log| < |schedule| && schedule[|log|] == turn
      requires Fifo(Contents()) && Logged(log, |q.queue|, schedule)
      requires Contents() == AfterAttempts(q, schedule, log)
      requires |queue| == WaitingAfter(log, |q.queue|) && number == NumberAfter(log)
      modifies this
      ensures |more| == |log| + 1 && more[..|log|] == log && more[|log|].offer == offer && more[|log|].number == number
      ensures Fifo(Contents()) && Contents() == AfterAttempts(q, schedule, more)
      ensures Logged(more, |q.queue|, schedule)
      ensures |queue| == WaitingAfter(more, |q.queue|)
      ensures accepted == old(accepted) + if offer.Accepted? then [SampleNotice(number)] else []
      ensures |FullAt(more)| == |FullAt(log)| + if offer.QueueFull? then 1 else 0
      ensures forall n :: AcceptedAs(more, n) <==> AcceptedAs(log, n) || (offer.Accepted? && n == number)
    {
      hide SampleNotice, TakeMany, Left, Fifo, AfterAttempts, AcceptedAs, FullAt, Logged;
      TakeManyKeeps(Contents(), turn.takes, "");
      Work(turn.takes);
      ghost var before := Contents();
      offer := TryOffer(SampleNotice(number), turn.handling);
      if offer.Accepted? { AcceptKeepsFifo(before, SampleNotice(number)); }
      ghost var attempt := Attempt(|before.queue|, number, offer);
      LogOne(log, attempt, |q.queue|, schedule);
      AfterOne(q, log, attempt, schedule);
      more := log + [attempt];
    }

    /** Offers the probe until it is taken in or folded, and polls for it while the schedule lasts; the end of the
        schedule is the time limit. `i` is the turn at which the offering ended and `j` the one at which the
        polling did, and the schedule's length where there was none. */
    method Drained(number: nat, schedule: seq<Turn>) returns (stood: nat, ghost i: nat, ghost j: nat)
      requires Fifo(Contents())
      modifies this
      ensures Fifo(Contents()) && stood <= 1 && i <= |schedule| && j <= |schedule|
      // Where the offering ends, what it adds to the queue, and what the worker has done by then.
      ensures if i < |schedule| then OfferedAt(|old(queue)|, schedule, i) && i < j
              else stood == 0 && forall k :: 0 <= k < |schedule| ==> !OfferedAt(|old(queue)|, schedule, k)
      ensures i < |schedule| && schedule[i].handling.Queues? ==> accepted == old(accepted) + [Probe(number)]
      ensures i == |schedule| || schedule[i].handling.Folds? ==> accepted == old(accepted)
      ensures i == |schedule| ==>
                Contents() == TakeMany(old(Contents()), TakesBetween(schedule, 0, |schedule|))
      // The first look that finds the key standing ends the polling with 1, and the end of the schedule with 0.
      ensures i < |schedule| ==>
                && (forall k :: i < k < j ==>
                        ProbeKey(number) !in SeenAt(old(Contents()), schedule, i, k, Probe(number)).standing)
                && (stood == 1 <==>
                        j < |schedule|
                        && ProbeKey(number) in SeenAt(old(Contents()), schedule, i, j, Probe(number)).standing)
                && (stood == 0 ==> j == |schedule|)
                && Contents() == Unasked(SeenAt(old(Contents()), schedule, i, j, Probe(number)), ProbeKey(number))
      // Under a clean key: 1 exactly when the probe was taken in and taken in time, with all before it.
      ensures Clean(old(Contents()), ProbeKey(number)) ==>
                (stood == 1 <==>
                     i < |schedule| && schedule[i].handling.Queues? && TakenInTime(|old(queue)|, schedule, i))
      ensures stood == 1 && Clean(old(Contents()), ProbeKey(number)) ==> old(accepted) <= taken
      ensures stood == 1 ==> ProbeKey(number) !in standing
    {
      hide ProbeKey, TakeMany, Left, Clean, Fifo, LeftStanding, EndsKey, SeenAt, After, TakenInTime, EntersAt;
      var key, probe := ProbeKey(number), Probe(number);
      ghost var q := Contents();
      NothingTaken(q);
      var clock := 0;
      var offered := false;
      while !offered && clock < |schedule|
        invariant Fifo(Contents()) && clock <= |schedule|
        invariant !offered ==> Contents() == TakeMany(q, TakesBetween(schedule, 0, clock))
        invariant !offered ==> forall k :: 0 <= k < clock ==>
                                   !schedule[k].handling.Folds? && !EntersAt(|q.queue|, schedule, k)
        invariant offered ==> clock > 0 && OfferedAt(|q.queue|, schedule, clock - 1)
        invariant offered ==> Contents() == After(q, schedule, clock - 1, probe)
        invariant accepted
                  == q.accepted + if offered && schedule[clock - 1].handling.Queues? then [probe] else []
        decreases |schedule| - clock, !offered
      {
        offered := Offering(q, number, schedule, clock);
        clock := clock + 1;
      }
      i, j := clock, clock;
      if !offered { return 0, i, j; }
      i := clock - 1;
      stood, j := Polling(q, number, schedule, clock - 1);
      if Clean(q, key) { AnswersExactlyWhen(q, number, schedule, i, j, stood); }
      UnaskedKeepsFifo(Contents(), key);
      standing := standing - {key};
      assert Contents() == Unasked(SeenAt(q, schedule, i, j, probe), key);
    }

    /** The polling for a probe that was offered the turn before. */
    method Polling(ghost q: Intake, number: nat, schedule: seq<Turn>, i: nat) returns (stood: nat, ghost j: nat)
      requires Fifo(Contents()) && i < |schedule|
      requires Contents() == After(q, schedule, i, Probe(number))
      modifies this
      ensures Fifo(Contents()) && accepted == old(accepted) && stood <= 1 && i < j <= |schedule|
      ensures Contents() == SeenAt(q, schedule, i, j, Probe(number))
      ensures forall k :: i < k < j ==>
                ProbeKey(number) !in SeenAt(q, schedule, i, k, Probe(number)).standing
      ensures stood == 1 <==> j < |schedule| && ProbeKey(number) in standing
      ensures stood == 0 ==> j == |schedule|
    {
      hide ProbeKey, TakeMany, After, Fifo;
      var key, probe := ProbeKey(number), Probe(number);
      ghost var offered := Contents();
      var clock := i + 1;
      NothingTaken(offered);
      while clock < |schedule|
        invariant Fifo(Contents()) && accepted == offered.accepted && i < clock <= |schedule|
        invariant Contents() == SeenAt(q, schedule, i, clock, probe)
        invariant forall k :: i < k < clock ==> key !in SeenAt(q, schedule, i, k, probe).standing
      {
        if key in standing { return 1, clock; }
        TakeManyAppends(offered, TakesBetween(schedule, i + 1, clock), schedule[clock].takes);
        TakeManyKeeps(Contents(), schedule[clock].takes, "");
        Work(schedule[clock].takes);
        clock := clock + 1;
      }
      return 0, clock;
    }

    /** One turn of the offering: the worker's takes, and then the offer. */
    method Offering(ghost q: Intake, number: nat, schedule: seq<Turn>, clock: nat) returns (offered: bool)
      requires Fifo(q) && Fifo(Contents()) && clock < |schedule|
      requires Contents() == TakeMany(q, TakesBetween(schedule, 0, clock))
      modifies this
      ensures Fifo(Contents())
      ensures offered <==> schedule[clock].handling.Folds? || EntersAt(|q.queue|, schedule, clock)
      ensures Contents() == After(q, schedule, clock, Probe(number))
      ensures !offered ==> Contents() == TakeMany(q, TakesBetween(schedule, 0, clock + 1))
      ensures accepted == q.accepted + if offered && schedule[clock].handling.Queues? then [Probe(number)] else []
    {
      hide ProbeKey, TakeMany, Left;
      TakeManyAppends(q, TakesBetween(schedule, 0, clock), schedule[clock].takes);
      TakeManyKeeps(q, TakesBetween(schedule, 0, clock + 1), "");
      Work(schedule[clock].takes);
      ghost var before := Contents();
      var offer := TryOffer(Probe(number), schedule[clock].handling);
      if offer.Accepted? { AcceptKeepsFifo(before, Probe(number)); }
      offered := offer.Accepted? || offer.Coalesced?;
    }
  }

  /** The intake with the key's question answered. */
  function Unasked(q: Intake, key: string): Intake {
    q.(standing := set k <- q.standing | k != key)
  }

  lemma UnaskedKeepsFifo(q: Intake, key: string)
    requires Fifo(q)
    ensures Fifo(Unasked(q, key))
  {
  }

  /** Under a clean key the polling answers 1 exactly when the probe is taken in time, and then everything
      accepted before the call has been taken. */
  lemma AnswersExactlyWhen(q: Intake, number: nat, schedule: seq<Turn>, i: nat, j: nat, stood: nat)
    requires Fifo(q) && Clean(q, ProbeKey(number)) && OfferedAt(|q.queue|, schedule, i) && i < j <= |schedule|
    requires forall k :: i < k < j ==> ProbeKey(number) !in SeenAt(q, schedule, i, k, Probe(number)).standing
    requires stood == 0 ==> j == |schedule|
    requires stood == 1 ==>
               j < |schedule| && ProbeKey(number) in SeenAt(q, schedule, i, j, Probe(number)).standing
    requires stood <= 1
    ensures stood == 1 <==> schedule[i].handling.Queues? && TakenInTime(|q.queue|, schedule, i)
    ensures stood == 1 ==> q.accepted <= SeenAt(q, schedule, i, j, Probe(number)).taken
  {
    hide ProbeKey, TakeMany, Left, TakesBetween, Clean, Fifo, SeenAt;
    if stood == 1 {
      LookStandsExactlyWhen(q, number, schedule, i, j);
      TakesBetweenRises(schedule, i + 1, j, |schedule| - 1);
    } else if i + 1 < |schedule| {
      LookStandsExactlyWhen(q, number, schedule, i, |schedule| - 1);
    }
  }

  lemma NothingLogged(q: Intake, schedule: seq<Turn>)
    ensures Logged([], |q.queue|, schedule) && FullAt([]) == {} && AfterAttempts(q, schedule, []) == q
    ensures forall n :: !AcceptedAs([], n)
  {
  }

  lemma NothingKept()
    ensures Notices([]) == [] && RisesBelow([], 0)
  {
  }

  lemma RisesOn(numbers: seq<nat>, n: nat)
    requires RisesBelow(numbers, n)
    ensures RisesBelow(numbers, n + 1)
  {
  }

  lemma KeepOne(numbers: seq<nat>, n: nat)
    requires RisesBelow(numbers, n)
    ensures RisesBelow(numbers + [n], n + 1) && Notices(numbers + [n]) == Notices(numbers) + [SampleNotice(n)]
  {
    assert (numbers + [n])[..|numbers|] == numbers;
  }
}

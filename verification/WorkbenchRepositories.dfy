/** Repository records: which requests keep identities apart and links intact. */
module WorkbenchRepositories {
  import opened Options
  import opened WorkbenchStore
  import opened WorkbenchRuns
  import opened WorkbenchSaves

  ghost predicate DistinctRecords(repos: seq<Repository>) {
    forall i, j :: 0 <= i < j < |repos| ==> repos[i].id != repos[j].id
  }

  ghost predicate DistinctKeys(repos: seq<Repository>) {
    forall i, j :: 0 <= i < j < |repos| ==> repos[i].identityKey != repos[j].identityKey
  }

  ghost predicate Registered(repos: seq<Repository>, id: Id) {
    exists i :: 0 <= i < |repos| && repos[i].id == id
  }

  /** Registering keeps the identity keys apart, and keeps the ids apart exactly when it adds no
      record or adds one under an unused id. */
  lemma RegisterKeepsIdentities(s: Store, q: Request)
    requires q.Register? && DistinctKeys(s.repositories)
    ensures DistinctKeys(Handle(s, q).store.repositories)
    ensures DistinctRecords(s.repositories) ==>
              (DistinctRecords(Handle(s, q).store.repositories)
               <==> (|| !q.registerUnknown
                     || Holder(s.repositories, IdentityKey(q.path), None).Some?
                     || !Registered(s.repositories, q.id)))
  {
    var repos, after := s.repositories, Handle(s, q).store.repositories;
    if after != repos && Registered(repos, q.id) {
      var i :| 0 <= i < |repos| && repos[i].id == q.id;
      assert after[i].id == after[|repos|].id;
    }
  }

  ghost predicate Relinks(s: Store, q: Request) {
    q.Relink? && q.requestId !in s.receipts && Handle(s, q).outcome.Answered?
  }

  /** A relink that goes through, step by step: the one record removed is the other holder of the
      new identity, which no task links; the relinked record keeps its id and takes the identity. */
  lemma RelinkEffect(s: Store, q: Request) returns (holder: Option<nat>, at: nat)
    requires Relinks(s, q)
    ensures holder == Holder(s.repositories, IdentityKey(q.path), Some(q.repositoryId))
    ensures holder.Some? ==> !Linked(s.tasks, s.repositories[holder.value].id)
    ensures var rest, after := Drop(s.repositories, holder), Handle(s, q).store.repositories;
            && RepositoryIndex(rest, q.repositoryId) == Some(at)
            && at < |rest| == |after| && rest[at].id == q.repositoryId
            && after[at].id == q.repositoryId && after[at].identityKey == IdentityKey(q.path)
            && forall i :: 0 <= i < |rest| && i != at ==> after[i] == rest[i]
    ensures Handle(s, q).store.tasks == s.tasks
  {
    holder := Holder(s.repositories, IdentityKey(q.path), Some(q.repositoryId));
    var index := RepositoryIndex(s.repositories, q.repositoryId).value;
    assert s.repositories[index] in s.repositories;
    DropKeepsOthers(s.repositories, holder, q.repositoryId);
    at := RepositoryIndex(Drop(s.repositories, holder), q.repositoryId).value;
  }

  lemma DropIndex(repos: seq<Repository>, gone: Option<nat>, i: nat) returns (k: nat)
    requires gone.Some? ==> gone.value < |repos|
    requires i < |Drop(repos, gone)|
    ensures k < |repos| && Drop(repos, gone)[i] == repos[k]
    ensures k == if gone.Some? && i >= gone.value then i + 1 else i
    ensures gone != Some(k)
  {
    k := if gone.Some? && i >= gone.value then i + 1 else i;
  }

  lemma DropKeepsDistinct(repos: seq<Repository>, gone: Option<nat>)
    requires gone.Some? ==> gone.value < |repos|
    ensures DistinctKeys(repos) ==> DistinctKeys(Drop(repos, gone))
    ensures DistinctRecords(repos) ==> DistinctRecords(Drop(repos, gone))
  {
    var rest := Drop(repos, gone);
    forall i, j | 0 <= i < j < |rest|
      ensures DistinctKeys(repos) ==> rest[i].identityKey != rest[j].identityKey
      ensures DistinctRecords(repos) ==> rest[i].id != rest[j].id
    {
      var k := DropIndex(repos, gone, i);
      var l := DropIndex(repos, gone, j);
      assert k < l;
    }
  }

  /** A record other than the one `findIndex` answers carries the id and already holds the key. */
  ghost predicate TwinHolds(repos: seq<Repository>, id: Id, key: string) {
    exists j: nat :: j < |repos| && repos[j].id == id && repos[j].identityKey == key
        && RepositoryIndex(repos, id) != Some(j)
  }

  /** A relink keeps the identity keys apart exactly when no second record carries the relinked id
      and already holds the new identity. */
  lemma RelinkKeepsKeysExactlyWhen(s: Store, q: Request)
    requires Relinks(s, q) && DistinctKeys(s.repositories)
    ensures DistinctKeys(Handle(s, q).store.repositories)
       <==> !TwinHolds(s.repositories, q.repositoryId, IdentityKey(q.path))
  {
    var repos, after, key := s.repositories, Handle(s, q).store.repositories, IdentityKey(q.path);
    var holder, at := RelinkEffect(s, q);
    var rest := Drop(repos, holder);
    DropKeepsDistinct(repos, holder);
    hide Handle;
    if TwinHolds(repos, q.repositoryId, key) {
      var j: nat :| j < |repos| && repos[j].id == q.repositoryId && repos[j].identityKey == key
                    && RepositoryIndex(repos, q.repositoryId) != Some(j);
      assert rest == repos;
      assert after[j].identityKey == after[at].identityKey && at != j;
    } else {
      forall i, j | 0 <= i < j < |after| ensures after[i].identityKey != after[j].identityKey {
        if i == at || j == at {
          var k := DropIndex(repos, holder, if j == at then i else j);
          assert repos[k] in repos;
          assert repos[k].identityKey != key;
        }
      }
    }
  }

  lemma RelinkKeepsRecords(s: Store, q: Request)
    requires Relinks(s, q) && DistinctRecords(s.repositories) && DistinctKeys(s.repositories)
    ensures DistinctRecords(Handle(s, q).store.repositories) && DistinctKeys(Handle(s, q).store.repositories)
    ensures Registered(Handle(s, q).store.repositories, q.repositoryId)
  {
    var holder, at := RelinkEffect(s, q);
    DropKeepsDistinct(s.repositories, holder);
    assert !TwinHolds(s.repositories, q.repositoryId, IdentityKey(q.path));
    RelinkKeepsKeysExactlyWhen(s, q);
    var rest, after := Drop(s.repositories, holder), Handle(s, q).store.repositories;
    assert forall i :: 0 <= i < |after| ==> after[i].id == rest[i].id;
  }

  /** A registration under an id no record has, or one that adds nothing. */
  ghost predicate FreshRegistration(s: Store, q: Request) {
    q.Register? ==> !q.registerUnknown || !Registered(s.repositories, q.id)
  }

  lemma OtherRequestsKeepRepositories(s: Store, q: Request)
    requires !q.Register? && !q.Relink?
    ensures Handle(s, q).store.repositories == s.repositories
  {
    hide IndexOf, Unreviewed, NewCriteria;
  }

  lemma StepKeepsIdentities(s: Store, q: Request)
    requires DistinctRecords(s.repositories) && DistinctKeys(s.repositories) && FreshRegistration(s, q)
    ensures DistinctRecords(Handle(s, q).store.repositories) && DistinctKeys(Handle(s, q).store.repositories)
  {
    if q.Register? {
      RegisterKeepsIdentities(s, q);
    } else if Relinks(s, q) {
      RelinkKeepsRecords(s, q);
    } else if q.Relink? {
      hide Handle;
      ReceiptStep(s, q);
    } else {
      hide Handle;
      OtherRequestsKeepRepositories(s, q);
    }
  }

  /** Over every run that registers only under unused ids, ids and identity keys stay apart. */
  lemma {:induction false} RunKeepsIdentities(s: Store, run: seq<Request>, n: nat)
    requires n <= |run| && DistinctRecords(s.repositories) && DistinctKeys(s.repositories)
    requires forall i: nat :: i < n ==> FreshRegistration(StoreAt(s, run, i), run[i])
    ensures DistinctRecords(StoreAt(s, run, n).repositories) && DistinctKeys(StoreAt(s, run, n).repositories)
  {
    hide Handle, DistinctRecords, DistinctKeys, FreshRegistration;
    if n > 0 {
      RunKeepsIdentities(s, run, n - 1);
      StepKeepsIdentities(StoreAt(s, run, n - 1), run[n - 1]);
    }
  }

  lemma RelinkKeepsRegistered(s: Store, q: Request, i: nat)
    requires Relinks(s, q) && i < |s.repositories| && Linked(s.tasks, s.repositories[i].id)
    ensures Registered(Handle(s, q).store.repositories, s.repositories[i].id)
  {
    hide Handle, Relinks, RepositoryIndex, Holder, IdentityKey, Linked, Drop;
    var holder, at := RelinkEffect(s, q);
    var k := DropPlace(s.repositories, holder, i);
    assert Handle(s, q).store.repositories[k].id == s.repositories[i].id;
  }

  /** A record that is not dropped keeps its place or moves up one. */
  lemma DropPlace(repos: seq<Repository>, gone: Option<nat>, i: nat) returns (k: nat)
    requires gone.Some? ==> gone.value < |repos|
    requires i < |repos| && gone != Some(i)
    ensures k < |Drop(repos, gone)| && Drop(repos, gone)[k] == repos[i]
  {
    k := if gone.Some? && i > gone.value then i - 1 else i;
  }

  lemma RegisterKeepsRegistered(s: Store, q: Request, i: nat)
    requires q.Register? && i < |s.repositories|
    ensures Registered(Handle(s, q).store.repositories, s.repositories[i].id)
  {
    assert Handle(s, q).store.repositories[i] == s.repositories[i];
  }

  /** Registering and relinking leave every link of every task pointing at a record, if it did. */
  lemma LinksKeepPointing(s: Store, q: Request, task: Task, id: Id)
    requires q.Register? || q.Relink?
    requires task in s.tasks && id in task.repositoryIds && Registered(s.repositories, id)
    ensures Handle(s, q).store.tasks == s.tasks && Registered(Handle(s, q).store.repositories, id)
  {
    var i: nat :| i < |s.repositories| && s.repositories[i].id == id;
    if q.Register? {
      RegisterKeepsRegistered(s, q, i);
    } else if Relinks(s, q) {
      RelinkKeepsRegistered(s, q, i);
      var holder, at := RelinkEffect(s, q);
    } else {
      ReceiptStep(s, q);
    }
  }

  /** Every link of every task points at a record. */
  ghost predicate LinksPoint(s: Store) {
    forall task <- s.tasks :: forall id <- task.repositoryIds :: Registered(s.repositories, id)
  }

  ghost predicate NamesRecords(s: Store, draft: Draft) {
    forall id <- draft.repositoryIds :: Registered(s.repositories, id)
  }

  lemma SaveKeepsLinksExactlyWhen(s: Store, q: Request)
    requires Saves(s, q) && LinksPoint(s)
    ensures LinksPoint(Handle(s, q).store) <==> NamesRecords(s, q.draft)
  {
    hide Registered, IndexOf;
    var item := Saved(Found(s.tasks, q.draft.id), q.draft, q.expected, q.now);
    var tasks := Handle(s, q).store.tasks;
    assert tasks == Without(s.tasks, item.id) + [item];
    assert item in tasks && item.repositoryIds == q.draft.repositoryIds;
  }

  lemma RepositoryStepsKeepLinks(s: Store, q: Request)
    requires (q.Register? || q.Relink?) && LinksPoint(s)
    ensures LinksPoint(Handle(s, q).store)
  {
    hide Handle, Registered;
    OnlyRepositoriesChange(s, q);
    forall task, id | task in s.tasks && id in task.repositoryIds
      ensures Registered(Handle(s, q).store.repositories, id)
    {
      LinksKeepPointing(s, q, task, id);
    }
  }

  lemma OnlyRepositoriesChange(s: Store, q: Request)
    requires q.Register? || q.Relink?
    ensures Handle(s, q).store.tasks == s.tasks
  {
    hide RepositoryIndex, Holder;
  }

  lemma OtherStepsKeepLinks(s: Store, q: Request)
    requires !q.Put? && !q.Register? && !q.Relink? && LinksPoint(s)
    ensures LinksPoint(Handle(s, q).store)
  {
    hide Handle, Registered;
    OtherRequestsKeepRepositories(s, q);
    if WritesTask(s, q) {
      var i := OtherWritesKeepFields(s, q);
      assert s.tasks[i] in s.tasks;
      var tasks := Handle(s, q).store.tasks;
      forall task | task in tasks ensures forall id <- task.repositoryIds :: Registered(s.repositories, id) {
        assert task in s.tasks || task == tasks[i];
      }
    }
  }

  /** A request keeps every link pointing at a record, unless it is a save that names a record there is
      none of; and such a save always breaks one. */
  lemma StepKeepsLinksExactlyWhen(s: Store, q: Request)
    requires LinksPoint(s)
    ensures LinksPoint(Handle(s, q).store) <==> (Saves(s, q) ==> NamesRecords(s, q.draft))
  {
    hide Handle, LinksPoint, NamesRecords;
    if Saves(s, q) {
      SaveKeepsLinksExactlyWhen(s, q);
    } else if q.Put? {
      IdleSave(s, q);
    } else if q.Register? || q.Relink? {
      RepositoryStepsKeepLinks(s, q);
    } else {
      OtherStepsKeepLinks(s, q);
    }
  }

  lemma IdleSave(s: Store, q: Request)
    requires q.Put? && !Saves(s, q)
    ensures Handle(s, q).store == s
  {
    hide IndexOf;
  }

  /** Over every run whose saves name records that are there, every link points at a record. */
  lemma {:induction false} RunKeepsLinks(s: Store, run: seq<Request>, n: nat)
    requires n <= |run| && LinksPoint(s)
    requires forall i: nat :: i < n && Saves(StoreAt(s, run, i), run[i]) ==>
               NamesRecords(StoreAt(s, run, i), run[i].draft)
    ensures LinksPoint(StoreAt(s, run, n))
  {
    hide Handle, LinksPoint, NamesRecords, Saves;
    if n > 0 {
      RunKeepsLinks(s, run, n - 1);
      StepKeepsLinksExactlyWhen(StoreAt(s, run, n - 1), run[n - 1]);
    }
  }

  /** From an empty store: two folders registered under one id, and the record relinked to the second
      folder. Both records then hold the same identity. */
  lemma TwinRecordsCollide(run: seq<Request>)
    requires run == [Register("twin", "/a", true), Register("twin", "/b", true), Relink("request", "twin", 1, "/b")]
    ensures && DistinctKeys(StoreAt(NOTHING, run, 2).repositories) && Relinks(StoreAt(NOTHING, run, 2), run[2])
            && !DistinctKeys(StoreAt(NOTHING, run, 3).repositories)
  {
    var a, b := Repository("twin", FolderName("/a"), 1, 1, IdentityKey("/a")),
        Repository("twin", FolderName("/b"), 1, 1, IdentityKey("/b"));
    assert IdentityKey("/a") != IdentityKey("/b") by {
      assert IdentityKey("/a")[7] == 'a' && IdentityKey("/b")[7] == 'b';
    }
    NextStore(NOTHING, run, 0);
    NextStore(NOTHING, run, 1);
    NextStore(NOTHING, run, 2);
    var s := NOTHING.(repositories := [a, b]);
    assert StoreAt(NOTHING, run, 2) == s by {
      hide FolderName, IdentityKey, StoreAt;
      RegisterFirst(NOTHING, a);
      RegisterSecond(NOTHING.(repositories := [a]), a, b);
    }
    hide StoreAt, Handle;
    RelinkTwin(s, a, b);
  }

  lemma RegisterFirst(s: Store, a: Repository)
    requires s.repositories == [] && a == Repository("twin", FolderName("/a"), 1, 1, IdentityKey("/a"))
    ensures Handle(s, Register("twin", "/a", true)).store == s.(repositories := [a])
  {
    assert [] + [a] == [a];
  }

  lemma RegisterSecond(s: Store, a: Repository, b: Repository)
    requires s.repositories == [a] && a.identityKey == IdentityKey("/a") != IdentityKey("/b")
    requires b == Repository("twin", FolderName("/b"), 1, 1, IdentityKey("/b"))
    ensures Handle(s, Register("twin", "/b", true)).store == s.(repositories := [a, b])
  {
    hide FolderName, IdentityKey;
    assert Holder(s.repositories, IdentityKey("/b"), None).None?;
  }

  lemma RelinkTwin(s: Store, a: Repository, b: Repository)
    requires s.repositories == [a, b] && a.id == "twin" == b.id && a.revision == 1 && s.receipts == map[]
    requires a.identityKey == IdentityKey("/a") != IdentityKey("/b") == b.identityKey
    ensures var q := Relink("request", "twin", 1, "/b");
            DistinctKeys(s.repositories) && Relinks(s, q) && !DistinctKeys(Handle(s, q).store.repositories)
  {
    hide FolderName, IdentityKey;
    var q := Relink("request", "twin", 1, "/b");
    assert s.repositories[0] == a && s.repositories[1] == b;
    assert RepositoryIndex(s.repositories, "twin") == Some(0);
    assert Holder(s.repositories, IdentityKey("/b"), Some("twin")).None?;
    assert Relinks(s, q);
    assert TwinHolds(s.repositories, "twin", IdentityKey("/b")) by { assert s.repositories[1].id == "twin"; }
    RelinkKeepsKeysExactlyWhen(s, q);
  }
}

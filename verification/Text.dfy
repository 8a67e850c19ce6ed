/** Pieces of text the programs share: searching, trimming, splitting and joining. */
module Text {
  import opened Options

  predicate StartsWith(s: string, prefix: string) {
    |prefix| <= |s| && s[..|prefix|] == prefix
  }

  /** Where `needle` first occurs, as `find` answers. */
  function Find(s: string, needle: string): (at: Option<nat>)
    ensures at.Some? ==> at.value + |needle| <= |s| && StartsWith(s[at.value..], needle)
    ensures at.Some? ==> forall i: nat :: i < at.value ==> !StartsWith(s[i..], needle)
    ensures at.None? ==> forall i: nat :: i <= |s| ==> !StartsWith(s[i..], needle)
  {
    if StartsWith(s, needle) then Some(0)
    else if s == [] then None
    else
      var rest := Find(s[1..], needle);
      assert forall i: nat :: 0 < i <= |s| ==> s[i..] == s[1..][i - 1..];
      if rest.None? then None else Some(rest.value + 1)
  }

  function TrimStart(white: char -> bool, s: string): string {
    if s != [] && white(s[0]) then TrimStart(white, s[1..]) else s
  }

  function TrimEnd(white: char -> bool, s: string): string {
    if s != [] && white(s[|s| - 1]) then TrimEnd(white, s[..|s| - 1]) else s
  }

  function Trim(white: char -> bool, s: string): string {
    TrimEnd(white, TrimStart(white, s))
  }

  /** The pieces of `s` between occurrences of `c`; never empty. */
  function Split(s: string, c: char): (parts: seq<string>)
    ensures |parts| > 0
  {
    if s == [] then [[]]
    else
      var rest := Split(s[1..], c);
      if s[0] == c then [[]] + rest else [[s[0]] + rest[0]] + rest[1..]
  }

  function Join(parts: seq<string>, c: char): string {
    if parts == [] then []
    else if |parts| == 1 then parts[0]
    else parts[0] + [c] + Join(parts[1..], c)
  }

  lemma {:induction false} SplitPrefix(a: string, c: char, rest: string)
    requires c !in a
    ensures Split(a + [c] + rest, c) == [a] + Split(rest, c)
  {
    if a == [] {
      assert a + [c] + rest == [c] + rest;
      assert ([c] + rest)[1..] == rest;
    } else {
      assert (a + [c] + rest)[1..] == a[1..] + [c] + rest;
      SplitPrefix(a[1..], c, rest);
      assert [a[0]] + a[1..] == a;
    }
  }

  lemma {:induction false} SplitWhole(a: string, c: char)
    requires c !in a
    ensures Split(a, c) == [a]
  {
    if a != [] {
      SplitWhole(a[1..], c);
      assert [a[0]] + a[1..] == a;
    }
  }

  /** Splitting a join gives the parts back when none of them holds the separator. */
  lemma {:induction false} SplitJoin(parts: seq<string>, c: char)
    requires parts != [] && forall p <- parts :: c !in p
    ensures Split(Join(parts, c), c) == parts
  {
    if |parts| == 1 {
      SplitWhole(parts[0], c);
    } else {
      SplitJoin(parts[1..], c);
      SplitPrefix(parts[0], c, Join(parts[1..], c));
    }
  }
}

/**
 Topic names and topic filters as lists of levels separated by '/' (broker/topics.go).

 A string is a sequence of code points.  The broker never splits a string into a list: it asks
 `isolateParticle` for one level at a time.  `Split` is the list those calls walk over, and
 `IsolateParticle` is proved to return its elements.
 */
module Levels {

  type Path = seq<string>

  /** The position of the first c in s, or -1 (Go's strings.IndexRune). */
  function IndexOf(s: string, c: char): (i: int)
    ensures -1 <= i < |s|
    ensures i < 0 <==> c !in s
    ensures i >= 0 ==> s[i] == c && c !in s[..i]
  {
    if s == "" then -1
    else if s[0] == c then 0
    else
      var j := IndexOf(s[1..], c);
      assert s == [s[0]] + s[1..];
      assert j >= 0 ==> s[..j + 1] == [s[0]] + s[1..][..j];
      if j < 0 then -1 else j + 1
  }

  /** The levels of a topic: "a//b" has the three levels "a", "" and "b". */
  function Split(s: string): (levels: Path)
    ensures levels != []
    ensures forall l | l in levels :: '/' !in l
    decreases |s|
  {
    var i := IndexOf(s, '/');
    if i < 0 then [s] else [s[..i]] + Split(s[i + 1..])
  }

  function Join(levels: Path): string
    requires levels != []
  {
    if |levels| == 1 then levels[0] else levels[0] + "/" + Join(levels[1..])
  }

  lemma {:induction false} JoinOfSplit(s: string)
    ensures Join(Split(s)) == s
    decreases |s|
  {
    var i := IndexOf(s, '/');
    if i >= 0 {
      var tail := Split(s[i + 1..]);
      JoinOfSplit(s[i + 1..]);
      assert ([s[..i]] + tail)[1..] == tail;
      assert s == s[..i] + "/" + s[i + 1..];
    }
  }

  lemma {:induction false} SplitOfJoin(levels: Path)
    requires levels != [] && forall l | l in levels :: '/' !in l
    ensures Split(Join(levels)) == levels
  {
    if |levels| == 1 {
      assert levels == [levels[0]];
      assert levels[0] in levels;
    } else {
      var head, tail := levels[0], Join(levels[1..]);
      assert head in levels;
      SplitOfJoin(levels[1..]);
      FirstSeparator(head, tail);
      assert levels == [head] + levels[1..];
    }
  }

  lemma FirstSeparator(head: string, tail: string)
    requires '/' !in head
    ensures Split(head + "/" + tail) == [head] + Split(tail)
  {
    var s, n := head + "/" + tail, |head|;
    var i := IndexOf(s, '/');
    assert s[n] == '/' && s[..n] == head && s[n + 1..] == tail;
    assert i == n;
  }

  /** Two topics with the same levels are the same topic. */
  lemma SplitInjective(s: string, t: string)
    requires Split(s) == Split(t)
    ensures s == t
  {
    JoinOfSplit(s);
    JoinOfSplit(t);
  }

  /**
   The level at depth d and whether another one follows.  Past the end, the last level is
   returned again; below zero there is none.
   */
  function Isolate(filter: string, d: int): (r: (string, bool)) {
    var levels := Split(filter);
    if d < 0 then ("", false)
    else if d < |levels| then (levels[d], d < |levels| - 1)
    else (levels[|levels| - 1], false)
  }

  /** Extracts the level at depth d by cutting levels off the front of the filter. */
  method IsolateParticle(filter: string, d: int) returns (particle: string, hasNext: bool)
    ensures (particle, hasNext) == Isolate(filter, d)
  {
    particle, hasNext := "", false;
    var rest, end, i := filter, 0, 0;
    while end > -1 && i <= d
      invariant 0 <= i
      invariant i <= d + 1 || d < 0
      invariant d < 0 ==> i == 0 && particle == "" && !hasNext
      invariant end > -1 && i <= d ==> i < |Split(filter)| && Split(rest) == Split(filter)[i..]
      invariant end <= -1 || i > d >= 0 ==> (particle, hasNext) == Isolate(filter, d)
      decreases d + 1 - i
    {
      ghost var levels := Split(filter);
      assert levels[i..][0] == levels[i];
      end := IndexOf(rest, '/');
      if d > -1 && i == d && end > -1 {
        hasNext := true;
        particle := rest[..end];
        assert Split(rest) == [particle] + Split(rest[end + 1..]);
        assert |levels[i..]| > 1;
      } else if end > -1 {
        hasNext := false;
        assert Split(rest) == [rest[..end]] + Split(rest[end + 1..]);
        assert Split(rest[end + 1..]) == levels[i..][1..] == levels[i + 1..];
        rest := rest[end + 1..];
      } else {
        hasNext := false;
        particle := rest;
        assert levels[i..] == [rest];
      }
      i := i + 1;
    }
  }

  /** The path walked by `set` and `seek` from depth d: they take levels until none follows. */
  function PathFrom(filter: string, d: nat): (p: Path)
    ensures p != []
    ensures d == 0 ==> p == Split(filter)
  {
    var levels := Split(filter);
    if d < |levels| then levels[d..] else [levels[|levels| - 1]]
  }

  lemma IsolateAlongPath(filter: string, d: nat, i: nat)
    requires i < |PathFrom(filter, d)|
    ensures Isolate(filter, d + i).0 == PathFrom(filter, d)[i]
    ensures Isolate(filter, d + i).1 <==> i < |PathFrom(filter, d)| - 1
  {
  }

  function Parent(p: Path): Path
    requires p != []
  {
    p[..|p| - 1]
  }

  function Last(p: Path): string
    requires p != []
  {
    p[|p| - 1]
  }
}

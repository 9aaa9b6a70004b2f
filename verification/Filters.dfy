/**
 Filter validity, shared filters, and the two match relations the topic index computes
 (broker/topics.go), compared with section 4.7 of the MQTT 5.0 standard.
 */
module Filters {
  import opened Levels

  const SharePrefix := "$SHARE"
  const SysPrefix := "$SYS"

  /** ASCII case folding of c onto an upper-case letter or symbol. */
  predicate FoldsTo(c: char, upper: char) {
    || c == upper
    || ('A' <= upper <= 'Z' && c == (upper as int + 32) as char)
  }

  /**
   strings.EqualFold(s, "$SHARE").  Unicode simple folding also identifies the long s (U+017F)
   with S; no other letter of the word has a fold outside ASCII.
   */
  predicate IsShareWord(s: string) {
    && |s| == |SharePrefix|
    && s[0] == '$'
    && (FoldsTo(s[1], 'S') || s[1] == '\U{17F}')
    && FoldsTo(s[2], 'H') && FoldsTo(s[3], 'A') && FoldsTo(s[4], 'R') && FoldsTo(s[5], 'E')
  }

  predicate IsSharedFilter(filter: string) {
    IsShareWord(Isolate(filter, 0).0)
  }

  /** The first four bytes fold to "$SYS"; a long s would take two bytes, so only ASCII can match. */
  predicate HasSysPrefix(filter: string) {
    && |filter| >= |SysPrefix|
    && filter[0] == '$'
    && FoldsTo(filter[1], 'S') && FoldsTo(filter[2], 'Y') && FoldsTo(filter[3], 'S')
  }

  predicate HasWildcard(s: string) {
    '+' in s || '#' in s
  }

  /** Filter and topic validation, with the conditions and the order of the source. */
  predicate IsValidFilter(filter: string, forPublish: bool) {
    if !forPublish && filter == "" then false
    else if forPublish && (HasSysPrefix(filter) || HasWildcard(filter)) then false
    else
      var wildhash := IndexOf(filter, '#');
      if wildhash >= 0 && wildhash != |filter| - 1 then false
      else
        var (prefix, hasNext) := Isolate(filter, 0);
        if !hasNext && IsShareWord(prefix) then false
        else if hasNext && IsShareWord(prefix) then
          var (group, more) := Isolate(filter, 1);
          more && !HasWildcard(group)
        else true
  }

  /** Where the index files a filter: at a path of levels, under a group when it is shared. */
  datatype FilterKey = Plain(path: Path) | Shared(group: string, path: Path)

  /** Total, like the source: a shared filter with too few levels reuses its last one. */
  function KeyOf(filter: string): FilterKey {
    if IsSharedFilter(filter) then Shared(Isolate(filter, 1).0, PathFrom(filter, 2))
    else Plain(PathFrom(filter, 0))
  }

  /** On valid filters the key loses nothing but the spelling of the share prefix. */
  lemma KeyOfInjective(f: string, g: string)
    requires IsValidFilter(f, false) && IsValidFilter(g, false)
    ensures KeyOf(f) == KeyOf(g) <==>
            Split(f)[1..] == Split(g)[1..] && (Split(f)[0] == Split(g)[0] || (IsSharedFilter(f) && IsSharedFilter(g)))
    ensures KeyOf(f) == KeyOf(g) && Split(f)[0] == Split(g)[0] ==> f == g
  {
    var a, b := Split(f), Split(g);
    SplitAgree(a, b, 1);
    if IsSharedFilter(f) && IsSharedFilter(g) {
      SplitAgree(a[1..], b[1..], 1);
      assert a[1..][1..] == a[2..] && b[1..][1..] == b[2..];
    }
    if a == b {
      SplitInjective(f, g);
    }
  }

  lemma SplitAgree(a: Path, b: Path, n: nat)
    requires n <= |a| && n <= |b|
    ensures a == b <==> a[..n] == b[..n] && a[n..] == b[n..]
    ensures n == 1 ==> (a[..n] == b[..n] <==> a[0] == b[0])
  {
    assert a == a[..n] + a[n..] && b == b[..n] + b[n..];
    if n == 1 {
      assert a[..n] == [a[0]] && b[..n] == [b[0]];
    }
  }

  // ---------- Folding, and what is valid, told from the levels ----------

  /** Lower case: A to Z, and of the letters outside ASCII the long s and the Kelvin sign. */
  function FoldChar(c: char): char {
    if 'A' <= c <= 'Z' then (c as int + 32) as char
    else if c == '\U{17F}' then 's'
    else if c == '\U{212A}' then 'k'
    else c
  }

  function Fold(s: string): string {
    seq(|s|, i requires 0 <= i < |s| => FoldChar(s[i]))
  }

  /** A word is the share prefix exactly when it folds to "$share". */
  lemma ShareWordIsFolded(w: string)
    ensures IsShareWord(w) <==> Fold(w) == "$share"
  {
    if IsShareWord(w) {
      assert Fold(w) == "$share";
    }
    if Fold(w) == "$share" {
      assert |w| == 6;
      assert Fold(w)[0] == '$' && Fold(w)[1] == 's' && Fold(w)[2] == 'h';
      assert Fold(w)[3] == 'a' && Fold(w)[4] == 'r' && Fold(w)[5] == 'e';
    }
  }

  /** A filter behind a share prefix is filed under its group, any other filter under its levels. */
  lemma KeyByLevels(filter: string)
    ensures var levels := Split(filter);
            KeyOf(filter) == if Fold(levels[0]) != "$share" then Plain(levels)
                             else if |levels| > 2 then Shared(levels[1], levels[2..])
                             else Shared(Last(levels), [Last(levels)])
  {
    ShareWordIsFolded(Split(filter)[0]);
  }

  lemma SharedLevels(word: string, group: string, rest: string)
    requires '/' !in word && '/' !in group
    ensures Split(word + "/" + (group + "/" + rest)) == [word, group] + Split(rest)
  {
    FirstSeparator(word, group + "/" + rest);
    FirstSeparator(group, rest);
  }

  /** No slash folds away: a word that folds to the prefix is one level. */
  lemma FoldedIsLevel(word: string)
    requires Fold(word) == "$share"
    ensures '/' !in word
  {
    forall i | 0 <= i < |word|
      ensures word[i] != '/'
    {
      assert FoldChar(word[i]) == "$share"[i];
    }
  }

  /**
   A filter can be subscribed to exactly when it is not empty, '#' is at most its last character, and
   behind a share prefix there are a group without wildcards and at least one more level.
   */
  lemma ValidFilterExactly(filter: string)
    ensures var levels := Split(filter);
            IsValidFilter(filter, false) <==>
            && filter != ""
            && (forall i | 0 <= i < |filter| - 1 :: filter[i] != '#')
            && (Fold(levels[0]) == "$share" ==> |levels| > 2 && '+' !in levels[1] && '#' !in levels[1])
  {
    HashAtEnd(filter);
    ShareWordIsFolded(Split(filter)[0]);
  }

  lemma HashAtEnd(s: string)
    ensures IndexOf(s, '#') < 0 || IndexOf(s, '#') == |s| - 1 <==> forall i | 0 <= i < |s| - 1 :: s[i] != '#'
  {
    var h := IndexOf(s, '#');
    if h >= 0 && h != |s| - 1 {
      assert s[h] == '#';
    }
  }

  /**
   A topic can be published to exactly when it has no wildcards, does not start with "$SYS" in any
   case, and behind a share prefix there are a group and at least one more level.
   */
  lemma ValidTopicExactly(topic: string)
    ensures var levels := Split(topic);
            IsValidFilter(topic, true) <==>
            && '+' !in topic && '#' !in topic
            && !(|topic| >= 4 && topic[0] == '$' && topic[1] in "sS" && topic[2] in "yY" && topic[3] in "sS")
            && (Fold(levels[0]) == "$share" ==> |levels| > 2)
  {
    ShareWordIsFolded(Split(topic)[0]);
    SysPrefixExactly(topic);
    if !HasWildcard(topic) {
      TopicLevelsHaveNoWildcards(topic);
    }
  }

  lemma SysPrefixExactly(topic: string)
    ensures HasSysPrefix(topic) <==>
            |topic| >= 4 && topic[0] == '$' && topic[1] in "sS" && topic[2] in "yY" && topic[3] in "sS"
  {
  }

  // ---------- '#' in a valid filter ----------

  /** '#' stands nowhere but in the last level. */
  predicate HashOnlyLast(p: Path) {
    forall i | 0 <= i < |p| - 1 :: '#' !in p[i]
  }

  /** A character of a level is a character of the string; only the last level reaches its end. */
  lemma {:induction false} CharOfLevel(s: string, i: nat, c: char) returns (k: nat)
    requires i < |Split(s)| && c in Split(s)[i]
    ensures k < |s| && s[k] == c
    ensures i < |Split(s)| - 1 ==> k < |s| - 1
    decreases |s|
  {
    var j, levels := IndexOf(s, '/'), Split(s);
    if j < 0 {
      assert levels[i] == s;
      k :| 0 <= k < |s| && s[k] == c;
    } else if i == 0 {
      assert levels[i] == s[..j];
      k :| 0 <= k < j && s[..j][k] == c;
    } else {
      var tail := s[j + 1..];
      var rest := Split(tail);
      assert levels == [s[..j]] + rest;
      assert levels[i] == rest[i - 1];
      var m := CharOfLevel(tail, i - 1, c);
      k := j + 1 + m;
      assert s[k] == tail[m];
    }
  }

  lemma ValidFilterPath(filter: string)
    requires IsValidFilter(filter, false)
    ensures HashOnlyLast(KeyOf(filter).path)
    ensures KeyOf(filter).path == if IsSharedFilter(filter) then Split(filter)[2..] else Split(filter)
  {
    var levels := Split(filter);
    forall i | 0 <= i < |levels| - 1
      ensures '#' !in levels[i]
    {
      if '#' in levels[i] {
        var k := CharOfLevel(filter, i, '#');
      }
    }
  }

  // ---------- Section 4.7.1: multi-level and single-level wildcards ----------

  /** '#' stands for any number of levels, including none; '+' for exactly one. */
  predicate StdMatches(filter: Path, topic: Path) {
    if filter == ["#"] then true
    else if filter == [] || topic == [] then filter == topic
    else (filter[0] == "+" || filter[0] == topic[0]) && StdMatches(filter[1..], topic[1..])
  }

  predicate IsWild(level: string) {
    level == "+" || level == "#"
  }

  /** Section 4.7.2: a filter starting with a wildcard does not match a topic starting with '$'. */
  predicate StdAccepts(filter: Path, topic: Path) {
    && StdMatches(filter, topic)
    && !(filter != [] && IsWild(filter[0]) && StartsWithDollar(topic))
  }

  predicate StartsWithDollar(topic: Path) {
    topic != [] && topic[0] != "" && topic[0][0] == '$'
  }

  predicate NoWildcards(topic: Path) {
    forall i | 0 <= i < |topic| :: !HasWildcard(topic[i])
  }

  // ---------- What scanSubscribers visits ----------

  /**
   The node at `filter` below the current one is gathered for the remaining levels `topic`.
   This is exact for every topic, even one that holds wildcard characters itself.
   */
  predicate Matches(filter: Path, topic: Path) {
    && filter != []
    && topic != []
    && (|| filter == ["#"]
        || (&& (filter[0] == topic[0] || filter[0] == "+")
            && if |topic| > 1 then Matches(filter[1..], topic[1..])
               else |filter| == 1 || (filter[1..] == ["#"] && filter[0] != "+")))
  }

  /** Inline subscriptions: as Matches, except that filter/# does not reach its parent level. */
  predicate MatchesInline(filter: Path, topic: Path) {
    && filter != []
    && topic != []
    && (|| filter == ["#"]
        || (&& (filter[0] == topic[0] || filter[0] == "+")
            && if |topic| > 1 then MatchesInline(filter[1..], topic[1..]) else |filter| == 1))
  }

  /** A filter that ends in "+/#" and is one level longer than the topic. */
  predicate EndsPlusHashBeyond(filter: Path, topic: Path) {
    |filter| == |topic| + 1 && |filter| >= 2 && filter[|filter| - 2] == "+" && filter[|filter| - 1] == "#"
  }

  /**
   Subscription matching departs from section 4.7.1 at exactly one family of pairs: a filter
   ending in "+/#" does not match the parent level of its "#".
   */
  lemma {:induction false} MatchesVsStandard(filter: Path, topic: Path)
    requires filter != [] && topic != [] && HashOnlyLast(filter) && NoWildcards(topic)
    ensures Matches(filter, topic) <==> StdMatches(filter, topic) && !EndsPlusHashBeyond(filter, topic)
    decreases |topic|
  {
    assert !HasWildcard(topic[0]);
    if filter != ["#"] {
      var f, t := filter[1..], topic[1..];
      if |topic| > 1 {
        if f != [] {
          assert HashOnlyLast(f) by {
            forall i | 0 <= i < |f| - 1 ensures '#' !in f[i] { assert f[i] == filter[i + 1]; }
          }
          assert NoWildcards(t) by {
            forall i | 0 <= i < |t| ensures !HasWildcard(t[i]) { assert t[i] == topic[i + 1]; }
          }
          MatchesVsStandard(f, t);
        }
      } else if |filter| > 1 {
        assert t == [];
        assert f == ["#"] <==> |f| == 1 && filter[1] == "#";
      }
    }
  }

  /** Inline matching never reaches the parent level of a trailing "#". */
  lemma {:induction false} MatchesInlineVsStandard(filter: Path, topic: Path)
    requires filter != [] && topic != [] && HashOnlyLast(filter) && NoWildcards(topic)
    ensures MatchesInline(filter, topic) <==>
            StdMatches(filter, topic) && !(|filter| == |topic| + 1 && Last(filter) == "#")
    decreases |topic|
  {
    assert !HasWildcard(topic[0]);
    if filter != ["#"] {
      var f, t := filter[1..], topic[1..];
      if |topic| > 1 && f != [] {
        assert HashOnlyLast(f) by {
          forall i | 0 <= i < |f| - 1 ensures '#' !in f[i] { assert f[i] == filter[i + 1]; }
        }
        assert NoWildcards(t) by {
          forall i | 0 <= i < |t| ensures !HasWildcard(t[i]) { assert t[i] == topic[i + 1]; }
        }
        MatchesInlineVsStandard(f, t);
      }
    }
  }

  /** gatherSubscriptions skips a subscription whose filter starts with a wildcard character on a '$' topic. */
  predicate Excluded(topic: string, filter: string)
    requires topic != ""
  {
    filter != "" && topic[0] == '$' && (filter[0] == '+' || filter[0] == '#')
  }

  lemma FirstChar(s: string)
    ensures s != "" && s[0] != '/' ==> Split(s)[0] != "" && Split(s)[0][0] == s[0]
    ensures Split(s)[0] != "" ==> s != "" && s[0] == Split(s)[0][0]
  {
    var i := IndexOf(s, '/');
    if i == 0 {
      assert s[0] == '/';
    }
  }

  /**
   With the '$' exclusion, a non-shared subscription is matched exactly as sections 4.7.1 and
   4.7.2 say, but for the "+/#" family.
   */
  lemma PlainAcceptance(filter: string, topic: string)
    requires IsValidFilter(filter, false) && !IsSharedFilter(filter)
    requires topic != "" && !HasWildcard(topic)
    ensures Matches(KeyOf(filter).path, Split(topic)) && !Excluded(topic, filter) <==>
            StdAccepts(Split(filter), Split(topic)) && !EndsPlusHashBeyond(Split(filter), Split(topic))
  {
    var f, t := Split(filter), Split(topic);
    ValidFilterPath(filter);
    TopicLevelsHaveNoWildcards(topic);
    MatchesVsStandard(f, t);
    FirstChar(filter);
    FirstChar(topic);
    assert f[0] == "+" || f[0] == "#" ==> filter[0] == f[0][0];
    if StdMatches(f, t) && Excluded(topic, filter) {
      assert f[0] != "" && f[0][0] == filter[0];
      assert f == ["#"] || f[0] == "+" || f[0] == t[0];
    }
  }

  /** Shared subscriptions get no '$' exclusion: that is their second departure from the standard. */
  lemma SharedAcceptance(filter: string, topic: string)
    requires IsValidFilter(filter, false) && IsSharedFilter(filter)
    requires topic != "" && !HasWildcard(topic)
    ensures var f, t := Split(filter)[2..], Split(topic);
            Matches(KeyOf(filter).path, t) <==>
            (StdAccepts(f, t) || (StdMatches(f, t) && IsWild(f[0]) && StartsWithDollar(t))) && !EndsPlusHashBeyond(f, t)
  {
    ValidFilterPath(filter);
    TopicLevelsHaveNoWildcards(topic);
    MatchesVsStandard(Split(filter)[2..], Split(topic));
  }

  lemma TopicLevelsHaveNoWildcards(topic: string)
    requires !HasWildcard(topic)
    ensures NoWildcards(Split(topic))
  {
    forall i | 0 <= i < |Split(topic)|
      ensures !HasWildcard(Split(topic)[i])
    {
      if '+' in Split(topic)[i] { var k := CharOfLevel(topic, i, '+'); }
      if '#' in Split(topic)[i] { var k := CharOfLevel(topic, i, '#'); }
    }
  }

  // ---------- What scanMessages visits ----------

  /** The filter level consulted at depth d; beyond the filter's end it stays at the last one. */
  function LevelAt(levels: Path, d: nat): string
    requires levels != []
  {
    if d < |levels| then levels[d] else levels[|levels| - 1]
  }

  /** The node at `suffix` below a node at depth d is considered for the filter. */
  predicate ScanMatches(levels: Path, d: nat, suffix: Path)
    requires levels != []
    decreases |suffix|
  {
    var key, hasNext := LevelAt(levels, d), d < |levels| - 1;
    && suffix != []
    && if IsWild(key) then
         && !(d == 0 && suffix[0] == SysPrefix)
         && (|| (!hasNext && |suffix| == 1)
             || ((hasNext || key == "#") && ScanMatches(levels, d + 1, suffix[1..])))
       else
         && suffix[0] == key
         && if hasNext then ScanMatches(levels, d + 1, suffix[1..]) else |suffix| == 1
  }

  /** Past the end of a filter ending in '#', everything below is considered. */
  lemma {:induction false} ScanPastEnd(levels: Path, d: nat, suffix: Path)
    requires levels != [] && Last(levels) == "#" && d >= |levels| - 1 && d > 0
    ensures ScanMatches(levels, d, suffix) <==> suffix != []
    decreases |suffix|
  {
    if |suffix| > 1 {
      ScanPastEnd(levels, d + 1, suffix[1..]);
    }
  }

  /**
   Retained-message matching departs from section 4.7 in two ways: '#' never returns its parent
   level, and a leading wildcard hides only a first level of exactly "$SYS", not every '$' topic.
   */
  lemma {:induction false} ScanVsStandard(levels: Path, d: nat, suffix: Path)
    requires d < |levels| && suffix != [] && HashOnlyLast(levels)
    ensures ScanMatches(levels, d, suffix) <==>
            && StdMatches(levels[d..], suffix)
            && !(Last(levels) == "#" && |suffix| == |levels| - d - 1)
            && !(d == 0 && (levels[0] == "+" || levels[0] == "#") && suffix[0] == "$SYS")
    decreases |suffix|
  {
    var key, f, s := levels[d], levels[d..], suffix[1..];
    assert f[1..] == levels[d + 1..];
    if d == |levels| - 1 {
      assert f == [key];
      if key == "#" && s != [] {
        ScanPastEnd(levels, d + 1, s);
      }
    } else {
      assert '#' !in levels[d];
      if s != [] {
        ScanVsStandard(levels, d + 1, s);
      } else {
        assert f != ["#"];
        if f[1..] == ["#"] {
          assert Last(levels) == "#";
        }
      }
    }
  }

  /** For a filter without wildcards the walk considers only the filter itself. */
  lemma {:induction false} ScanLiteral(levels: Path, d: nat, suffix: Path)
    requires d < |levels| && forall i | 0 <= i < |levels| :: !HasWildcard(levels[i])
    ensures ScanMatches(levels, d, suffix) <==> suffix == levels[d..]
    decreases |suffix|
  {
    assert !HasWildcard(levels[d]);
    if suffix != [] {
      assert levels[d..] == [levels[d]] + levels[d + 1..];
      assert suffix == [suffix[0]] + suffix[1..];
      if d < |levels| - 1 {
        ScanLiteral(levels, d + 1, suffix[1..]);
      }
    }
  }
}

/**
  String tests used by the article classifier: the models of JavaScript's
  `String.prototype.endsWith`, `startsWith` and `includes` on strings of
  characters, and the facts about suffixes that the rule cascade relies on.
 */
module Text {

  /** `s.endsWith(suffix)` */
  predicate EndsWith(s: string, suffix: string) {
    |suffix| <= |s| && s[|s| - |suffix|..] == suffix
  }

  /** `s.startsWith(prefix)` */
  predicate StartsWith(s: string, prefix: string) {
    |prefix| <= |s| && s[..|prefix|] == prefix
  }

  /** `s.includes(part)`: `part` starts at some position of `s`. */
  predicate Contains(s: string, part: string)
    decreases |s|
  {
    StartsWith(s, part) || (s != [] && Contains(s[1..], part))
  }

  /** Two suffixes of one string: the shorter is a suffix of the longer. */
  lemma SuffixesNest(s: string, u: string, v: string)
    requires EndsWith(s, u) && EndsWith(s, v) && |u| <= |v|
    ensures EndsWith(v, u)
  {
    assert v[|v| - |u|..] == s[|s| - |v|..][|v| - |u|..];
  }

  /** A string that ends with `v` ends with every suffix of `v`. */
  lemma SuffixOfSuffix(s: string, u: string, v: string)
    requires EndsWith(s, v) && EndsWith(v, u)
    ensures EndsWith(s, u)
  {
    assert s[|s| - |u|..] == s[|s| - |v|..][|v| - |u|..];
  }

  /** Two strings of which neither is a suffix of the other cannot both end a string. */
  lemma SuffixesExclude(s: string, u: string, v: string)
    requires !EndsWith(u, v) && !EndsWith(v, u)
    ensures !(EndsWith(s, u) && EndsWith(s, v))
  {
    if EndsWith(s, u) && EndsWith(s, v) {
      if |u| <= |v| {
        SuffixesNest(s, u, v);
      } else {
        SuffixesNest(s, v, u);
      }
    }
  }

  /** An occurrence of `part` at position `i` is found by `Contains`. */
  lemma {:induction false} ContainsAt(s: string, part: string, i: nat)
    requires i + |part| <= |s| && s[i..i + |part|] == part
    ensures Contains(s, part)
    decreases i
  {
    if i > 0 {
      assert s[1..][i - 1..i - 1 + |part|] == part;
      ContainsAt(s[1..], part, i - 1);
    }
  }

  /** What `Contains` finds is an occurrence: the converse of ContainsAt. */
  lemma {:induction false} ContainsWitness(s: string, part: string) returns (i: nat)
    requires Contains(s, part)
    ensures i + |part| <= |s| && s[i..i + |part|] == part
    decreases |s|
  {
    if StartsWith(s, part) {
      i := 0;
    } else {
      var j := ContainsWitness(s[1..], part);
      assert s[1..][j..j + |part|] == s[j + 1..j + 1 + |part|];
      i := j + 1;
    }
  }

  /** Nothing longer than a string occurs in it. */
  lemma {:induction false} ContainsIsNoLonger(s: string, part: string)
    requires Contains(s, part)
    ensures |part| <= |s|
    decreases |s|
  {
    if !StartsWith(s, part) {
      ContainsIsNoLonger(s[1..], part);
    }
  }

  /** A string contains each of its suffixes. */
  lemma EndsWithContains(s: string, part: string)
    requires EndsWith(s, part)
    ensures Contains(s, part)
  {
    ContainsAt(s, part, |s| - |part|);
  }
}

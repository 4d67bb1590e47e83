/**
  The normalizer of the article classifier: `normalizeForMatching`
  (trim, lowercase, fold `ß` to `ss`) and `getBaseForm` (a best-effort
  plural-to-singular reduction of the normalized word).

  Characters are Unicode scalar values. `trim` removes exactly the
  ECMAScript white-space and line-terminator characters; `toLowerCase` is
  given by a table that covers ASCII, the Latin-1 capitals (among them
  `Ä`, `Ö`, `Ü`) and the capital sharp s `ẞ`, and leaves every other
  character unchanged.
 */
module Normalizer {
  import opened Text

  // ---------------------------------------------------------------------
  // Trimming
  // ---------------------------------------------------------------------

  /** The characters `String.prototype.trim` removes (ECMAScript WhiteSpace and LineTerminator). */
  predicate IsSpace(c: char) {
    || c == '\t' || c == '\n' || c == '\U{000B}' || c == '\U{000C}' || c == '\r'
    || c == ' ' || c == '\U{00A0}' || c == '\U{1680}' || ('\U{2000}' <= c <= '\U{200A}')
    || c == '\U{2028}' || c == '\U{2029}' || c == '\U{202F}' || c == '\U{205F}'
    || c == '\U{3000}' || c == '\U{FEFF}'
  }

  predicate AllSpace(s: string) {
    forall k :: 0 <= k < |s| ==> IsSpace(s[k])
  }

  /** Drops the leading white space: the result is the suffix of `s` that starts at its first non-space character. */
  function TrimStart(s: string): (r: string)
    ensures |r| <= |s| && r == s[|s| - |r|..]
    ensures AllSpace(s[..|s| - |r|])
    ensures r == [] || !IsSpace(r[0])
  {
    if s != [] && IsSpace(s[0]) then
      var r := TrimStart(s[1..]);
      var dropped := s[..|s| - |r|];
      assert dropped[0] == s[0] && dropped[1..] == s[1..][..|s| - 1 - |r|];
      AllSpaceFirst(dropped);
      r
    else s
  }

  /** Drops the trailing white space: the result is the prefix of `s` that ends at its last non-space character. */
  function TrimEnd(s: string): (r: string)
    ensures |r| <= |s| && r == s[..|r|]
    ensures AllSpace(s[|r|..])
    ensures r == [] || !IsSpace(r[|r| - 1])
  {
    if s != [] && IsSpace(s[|s| - 1]) then
      var r := TrimEnd(s[..|s| - 1]);
      assert s[|r|..] == s[..|s| - 1][|r|..] + [s[|s| - 1]];
      r
    else s
  }

  /** `word.trim()` */
  function Trim(s: string): (r: string)
    ensures r == [] || (!IsSpace(r[0]) && !IsSpace(r[|r| - 1]))
    ensures r == [] <==> AllSpace(s)
  {
    var t := TrimStart(s);
    assert AllSpace(s) ==> t == [];
    assert t == [] ==> s == s[..|s| - |t|];
    TrimEnd(t)
  }

  // ---------------------------------------------------------------------
  // Lower case and sharp s
  // ---------------------------------------------------------------------

  /** `toLowerCase` on one character, for A-Z, the Latin-1 capitals and `ẞ`. */
  function LowerChar(c: char): char {
    if 'A' <= c <= 'Z' || ('\U{00C0}' <= c <= '\U{00DE}' && c != '\U{00D7}') then
      (c as int + 32) as char
    else if c == '\U{1E9E}' then 'ß'
    else c
  }

  /** `toLowerCase`, character by character. */
  function Lower(s: string): (r: string)
    ensures |r| == |s|
  {
    seq(|s|, k requires 0 <= k < |s| => LowerChar(s[k]))
  }

  /** `replace(/ß/g, 'ss')` */
  function FoldEszett(s: string): (r: string)
    ensures |s| <= |r| && (r == [] <==> s == [])
    ensures s != [] ==> r[0] == (if s[0] == 'ß' then 's' else s[0])
    ensures s != [] ==> r[|r| - 1] == (if s[|s| - 1] == 'ß' then 's' else s[|s| - 1])
    ensures 'ß' !in s ==> r == s
  {
    if s == [] then []
    else
      var rest := FoldEszett(s[1..]);
      assert s[1..] != [] ==> s[1..][|s[1..]| - 1] == s[|s| - 1];
      (if s[0] == 'ß' then "ss" else [s[0]]) + rest
  }

  /** `normalizeForMatching(word)`, script.js:287-289. */
  function NormalizeForMatching(word: string): string {
    FoldEszett(Lower(Trim(word)))
  }

  /** What a normalized word looks like: no surrounding white space, no capitals, no `ß`. */
  predicate IsNormalized(s: string) {
    && (s == [] || (!IsSpace(s[0]) && !IsSpace(s[|s| - 1])))
    && forall k :: 0 <= k < |s| ==> LowerChar(s[k]) == s[k] && s[k] != 'ß'
  }

  // ---------------------------------------------------------------------
  // Base form
  // ---------------------------------------------------------------------

  /** `getBaseForm(word)`, script.js:292-315: normalize, then reduce the plural ending. */
  function GetBaseForm(word: string): (r: string)
    ensures var n := NormalizeForMatching(word); |r| <= |n| && (r != n ==> |r| >= 2)
  {
    BaseOf(NormalizeForMatching(word))
  }

  /**
    The branches of `getBaseForm` (script.js:296-314) on the normalized
    word, as written: the first matching branch decides, and a branch whose
    inner test fails falls through to the next one. The no-op `-er` block
    (script.js:305-308) is omitted.
   */
  function BaseOf(normalized: string): (r: string)
    ensures |r| <= |normalized| && (r != normalized ==> |r| >= 2)
  {
    if EndsWith(normalized, "innen") then
      normalized[..|normalized| - 5] + "in"
    else if EndsWith(normalized, "en") && |normalized| > 3
            && (EndsWith(normalized, "chen") || EndsWith(normalized, "lein")) then
      normalized
    else if EndsWith(normalized, "en") && |normalized| > 3
            && (EndsWith(normalized, "tion") || EndsWith(normalized, "sion")) then
      normalized
    else if EndsWith(normalized, "en") && |normalized| > 3 && |normalized[..|normalized| - 2]| >= 2 then
      normalized[..|normalized| - 2]
    else if EndsWith(normalized, "e") && |normalized| > 2 && |normalized[..|normalized| - 1]| >= 2 then
      normalized[..|normalized| - 1]
    else
      normalized
  }

  /**
    The plural reduction without the tests that cannot change its outcome:
    `-innen` becomes `-in`; otherwise `-en` is dropped when the word is
    longer than three characters and does not end in `chen`; otherwise a
    final `-e` is dropped when the word is longer than two characters.
   */
  function StripPluralSuffix(n: string): string {
    if EndsWith(n, "innen") then n[..|n| - 5] + "in"
    else if EndsWith(n, "en") && |n| > 3 then (if EndsWith(n, "chen") then n else n[..|n| - 2])
    else if EndsWith(n, "e") && |n| > 2 then n[..|n| - 1]
    else n
  }

  // ---------------------------------------------------------------------
  // Lemmas
  // ---------------------------------------------------------------------

  lemma LowerCharIdempotent(c: char)
    ensures LowerChar(LowerChar(c)) == LowerChar(c)
    ensures IsSpace(LowerChar(c)) == IsSpace(c)
    ensures LowerChar(c) != '\U{1E9E}'
  {
  }

  /** Normalizing yields a word with no surrounding white space, no capitals and no `ß`. */
  lemma NormalizedShape(word: string)
    ensures IsNormalized(NormalizeForMatching(word))
  {
    var t := Trim(word);
    var l := Lower(t);
    LowerShape(t);
    if l != [] {
      assert !IsSpace(l[0]) && !IsSpace(l[|l| - 1]);
    }
    FoldShape(l);
  }

  /** Lowering leaves only characters that lowering fixes, and keeps white space where it was. */
  lemma LowerShape(t: string)
    ensures forall k :: 0 <= k < |t| ==> LowerChar(Lower(t)[k]) == Lower(t)[k]
    ensures forall k :: 0 <= k < |t| ==> IsSpace(Lower(t)[k]) == IsSpace(t[k])
  {
    forall k | 0 <= k < |t|
      ensures LowerChar(Lower(t)[k]) == Lower(t)[k]
    {
      LowerCharIdempotent(t[k]);
    }
  }

  /** Folding `ß` keeps a lower-case word lower case, removes every `ß` and keeps its ends. */
  lemma FoldShape(l: string)
    requires l == [] || (!IsSpace(l[0]) && !IsSpace(l[|l| - 1]))
    requires forall k :: 0 <= k < |l| ==> LowerChar(l[k]) == l[k]
    ensures IsNormalized(FoldEszett(l))
  {
    FoldKeepsLowerCase(l);
  }

  /** Folding `ß` leaves no `ß` and only characters that lowering fixes, if lowering fixed every character before. */
  lemma {:induction false} FoldKeepsLowerCase(l: string)
    requires forall k :: 0 <= k < |l| ==> LowerChar(l[k]) == l[k]
    ensures forall k :: 0 <= k < |FoldEszett(l)| ==>
      LowerChar(FoldEszett(l)[k]) == FoldEszett(l)[k] && FoldEszett(l)[k] != 'ß'
    decreases |l|
  {
    if l != [] {
      var head := if l[0] == 'ß' then "ss" else [l[0]];
      var rest := FoldEszett(l[1..]);
      FoldKeepsLowerCase(l[1..]);
      assert LowerChar(l[0]) == l[0];
      assert FoldEszett(l) == head + rest;
      forall k | 0 <= k < |head + rest|
        ensures LowerChar((head + rest)[k]) == (head + rest)[k] && (head + rest)[k] != 'ß'
      {
        if k >= |head| {
          assert (head + rest)[k] == rest[k - |head|];
        }
      }
    }
  }

  /** A normalized word is left unchanged by normalization. */
  lemma NormalizedIsFixedPoint(s: string)
    requires IsNormalized(s)
    ensures NormalizeForMatching(s) == s
  {
    assert TrimStart(s) == s;
    assert TrimEnd(s) == s;
    assert Lower(s) == s;
    assert 'ß' !in s;
  }

  /** `normalizeForMatching` is idempotent. */
  lemma NormalizeIdempotent(word: string)
    ensures NormalizeForMatching(NormalizeForMatching(word)) == NormalizeForMatching(word)
  {
    NormalizedShape(word);
    NormalizedIsFixedPoint(NormalizeForMatching(word));
  }

  /** The normalized word is empty exactly when the input is empty or blank. */
  lemma NormalizedEmpty(word: string)
    ensures NormalizeForMatching(word) == [] <==> AllSpace(word)
  {
  }

  /** The tests for `lein`, `tion` and `sion` inside the `-en` branch can never succeed. */
  lemma DeadBaseFormGuards(n: string)
    requires EndsWith(n, "en")
    ensures !EndsWith(n, "lein") && !EndsWith(n, "tion") && !EndsWith(n, "sion")
  {
    SuffixesExclude(n, "en", "lein");
    SuffixesExclude(n, "en", "tion");
    SuffixesExclude(n, "en", "sion");
  }

  /** `getBaseForm` agrees with the reduction that leaves out the tests that cannot succeed. */
  lemma BaseFormReference(n: string)
    ensures BaseOf(n) == StripPluralSuffix(n)
  {
    if EndsWith(n, "en") {
      DeadBaseFormGuards(n);
    }
  }

  /** A normalized word longer than two characters that ends in `e` loses exactly that `e`. */
  lemma BaseFormOfFinalE(n: string)
    requires EndsWith(n, "e") && |n| > 2
    ensures BaseOf(n) == n[..|n| - 1]
  {
    SuffixesExclude(n, "e", "innen");
    SuffixesExclude(n, "e", "en");
  }

  // ---------------------------------------------------------------------
  // What normalization forgets: case, surrounding white space, ß versus ss
  // ---------------------------------------------------------------------

  /** Two strings that differ at most in the case of their letters. */
  predicate SameUpToCase(a: string, b: string) {
    |a| == |b| && forall k :: 0 <= k < |a| ==> LowerChar(a[k]) == LowerChar(b[k])
  }

  lemma {:induction false} TrimStartUpToCase(a: string, b: string)
    requires SameUpToCase(a, b)
    ensures SameUpToCase(TrimStart(a), TrimStart(b))
    decreases |a|
  {
    if a != [] {
      LowerCharIdempotent(a[0]);
      LowerCharIdempotent(b[0]);
      if IsSpace(a[0]) {
        TrimStartUpToCase(a[1..], b[1..]);
      }
    }
  }

  lemma {:induction false} TrimEndUpToCase(a: string, b: string)
    requires SameUpToCase(a, b)
    ensures SameUpToCase(TrimEnd(a), TrimEnd(b))
    decreases |a|
  {
    if a != [] {
      LowerCharIdempotent(a[|a| - 1]);
      LowerCharIdempotent(b[|b| - 1]);
      if IsSpace(a[|a| - 1]) {
        TrimEndUpToCase(a[..|a| - 1], b[..|b| - 1]);
      }
    }
  }

  /** Words that differ only in letter case normalize to the same word. */
  lemma NormalizeIgnoresCase(a: string, b: string)
    requires SameUpToCase(a, b)
    ensures NormalizeForMatching(a) == NormalizeForMatching(b)
  {
    TrimStartUpToCase(a, b);
    TrimEndUpToCase(TrimStart(a), TrimStart(b));
    assert Lower(Trim(a)) == Lower(Trim(b));
  }

  lemma {:induction false} TrimStartAppend(x: string, y: string)
    ensures TrimStart(x + y) == if AllSpace(x) then TrimStart(y) else TrimStart(x) + y
    decreases |x|
  {
    if x == [] {
      assert x + y == y;
    } else {
      assert (x + y)[0] == x[0] && (x + y)[1..] == x[1..] + y;
      AllSpaceFirst(x);
      if IsSpace(x[0]) {
        TrimStartAppend(x[1..], y);
      }
    }
  }

  lemma {:induction false} TrimEndAppend(x: string, y: string)
    ensures TrimEnd(x + y) == if AllSpace(y) then TrimEnd(x) else x + TrimEnd(y)
    decreases |y|
  {
    if y == [] {
      assert x + y == x;
    } else {
      var z := y[..|y| - 1];
      assert (x + y)[|x + y| - 1] == y[|y| - 1] && (x + y)[..|x + y| - 1] == x + z;
      AllSpaceLast(y);
      if IsSpace(y[|y| - 1]) {
        TrimEndAppend(x, z);
      }
    }
  }

  /** A string is all white space when its first character is and the rest is. */
  lemma AllSpaceFirst(s: string)
    requires s != []
    ensures AllSpace(s) <==> IsSpace(s[0]) && AllSpace(s[1..])
  {
    if IsSpace(s[0]) && AllSpace(s[1..]) {
      forall k | 0 < k < |s| ensures IsSpace(s[k]) {
        assert s[k] == s[1..][k - 1];
      }
    }
  }

  /** A string is all white space when its last character is and the rest is. */
  lemma AllSpaceLast(s: string)
    requires s != []
    ensures AllSpace(s) <==> IsSpace(s[|s| - 1]) && AllSpace(s[..|s| - 1])
  {
  }

  /** Surrounding white space does not change the trimmed word. */
  lemma TrimIgnoresSurroundingSpace(before: string, word: string, after: string)
    requires AllSpace(before) && AllSpace(after)
    ensures Trim(before + word + after) == Trim(word)
  {
    AppendAssociative(before, word, after);
    TrimStartAppend(before, word + after);
    TrimStartAppend(word, after);
    if AllSpace(word) {
      assert TrimStart(word) == [];
      assert TrimStart(after) == [];
    } else {
      TrimEndAppend(TrimStart(word), after);
    }
  }

  /** Surrounding white space does not change the normalized word. */
  lemma NormalizeIgnoresSurroundingSpace(before: string, word: string, after: string)
    requires AllSpace(before) && AllSpace(after)
    ensures NormalizeForMatching(before + word + after) == NormalizeForMatching(word)
  {
    TrimIgnoresSurroundingSpace(before, word, after);
  }

  lemma LowerAppend(x: string, y: string)
    ensures Lower(x + y) == Lower(x) + Lower(y)
  {
  }

  lemma {:induction false} FoldEszettAppend(x: string, y: string)
    ensures FoldEszett(x + y) == FoldEszett(x) + FoldEszett(y)
    decreases |x|
  {
    if x == [] {
      assert x + y == y;
    } else {
      var head := if x[0] == 'ß' then "ss" else [x[0]];
      assert (x + y)[0] == x[0] && (x + y)[1..] == x[1..] + y;
      assert FoldEszett(x + y) == head + FoldEszett(x[1..] + y);
      FoldEszettAppend(x[1..], y);
      AppendAssociative(head, FoldEszett(x[1..]), FoldEszett(y));
    }
  }

  /** Trimming stops at a middle part that starts and ends with a non-space character. */
  lemma TrimAround(before: string, middle: string, after: string)
    requires middle != [] && !IsSpace(middle[0]) && !IsSpace(middle[|middle| - 1])
    ensures Trim(before + middle + after) == TrimFront(before) + middle + TrimBack(after)
  {
    TrimStartAround(before, middle, after);
    TrimEndAround(TrimFront(before), middle, after);
  }

  lemma TrimStartAround(before: string, middle: string, after: string)
    requires middle != [] && !IsSpace(middle[0])
    ensures TrimStart(before + middle + after) == TrimFront(before) + middle + after
  {
    assert TrimStart(middle) == middle;
    TrimStartAppend(middle, after);
    TrimStartAppend(before, middle + after);
    AppendAssociative(before, middle, after);
    AppendAssociative(TrimFront(before), middle, after);
  }

  lemma TrimEndAround(front: string, middle: string, after: string)
    requires middle != [] && !IsSpace(middle[|middle| - 1])
    ensures TrimEnd(front + middle + after) == front + middle + TrimBack(after)
  {
    assert TrimEnd(middle) == middle;
    TrimEndAppend(front, middle);
    TrimEndAppend(front + middle, after);
    if AllSpace(after) {
      AppendEmpty(front + middle);
    }
  }

  lemma AppendEmpty(x: string)
    ensures x + [] == x
  {
  }

  lemma AppendAssociative(x: string, y: string, z: string)
    ensures x + y + z == x + (y + z)
  {
  }

  /** What trimming leaves of a part that is followed by a non-space character. */
  function TrimFront(before: string): string {
    if AllSpace(before) then [] else TrimStart(before)
  }

  /** What trimming leaves of a part that follows a non-space character. */
  function TrimBack(after: string): string {
    if AllSpace(after) then [] else TrimEnd(after)
  }

  /** Normalizing a word whose middle part starts and ends with a non-space character. */
  lemma NormalizeAround(before: string, middle: string, after: string)
    requires middle != [] && !IsSpace(middle[0]) && !IsSpace(middle[|middle| - 1])
    ensures NormalizeForMatching(before + middle + after)
         == FoldEszett(Lower(TrimFront(before))) + FoldEszett(Lower(middle)) + FoldEszett(Lower(TrimBack(after)))
  {
    var front, back := TrimFront(before), TrimBack(after);
    TrimAround(before, middle, after);
    LowerAppend(front + middle, back);
    LowerAppend(front, middle);
    var lf, lm, lb := Lower(front), Lower(middle), Lower(back);
    FoldEszettAppend(lf + lm, lb);
    FoldEszettAppend(lf, lm);
  }

  /** Two middle parts that normalize alike can be swapped inside any word. */
  lemma NormalizeSameMiddle(before: string, m1: string, m2: string, after: string)
    requires m1 != [] && !IsSpace(m1[0]) && !IsSpace(m1[|m1| - 1])
    requires m2 != [] && !IsSpace(m2[0]) && !IsSpace(m2[|m2| - 1])
    requires FoldEszett(Lower(m1)) == FoldEszett(Lower(m2))
    ensures NormalizeForMatching(before + m1 + after) == NormalizeForMatching(before + m2 + after)
  {
    NormalizeAround(before, m1, after);
    NormalizeAround(before, m2, after);
  }

  /** Writing `ß` or `ss` inside a word makes no difference to the normalized word. */
  lemma NormalizeFoldsEszett(before: string, after: string)
    ensures NormalizeForMatching(before + "ß" + after) == NormalizeForMatching(before + "ss" + after)
  {
    EszettAndDoubleS();
    NormalizeSameMiddle(before, "ß", "ss", after);
  }

  lemma EszettAndDoubleS()
    ensures FoldEszett(Lower("ß")) == FoldEszett(Lower("ss"))
  {
    assert Lower("ß") == "ß";
    assert Lower("ss") == "ss";
    assert FoldEszett("ß") == "ss" + FoldEszett([]);
  }
}

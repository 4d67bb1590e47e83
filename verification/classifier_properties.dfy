/**
  What the article classifier promises: it depends only on the normalized
  word, the blank-input guard agrees with the cascade, and the fixed rule
  order has the consequences listed below, some of which are surprising
  German but are what the rules say.
 */
module ClassifierProperties {
  import opened Text
  import opened Normalizer
  import opened Classifier

  // ---------------------------------------------------------------------
  // The outcome depends only on the normalized word
  // ---------------------------------------------------------------------

  /** Distinct articles are reported as distinct strings. */
  lemma ArticleTextInjective(a: Article, b: Article)
    requires ArticleText(a) == ArticleText(b)
    ensures a == b
  {
  }

  /** Words with the same normalized form get the same article. */
  lemma DependsOnlyOnNormalized(a: string, b: string)
    requires NormalizeForMatching(a) == NormalizeForMatching(b)
    ensures DetermineArticle(a) == DetermineArticle(b)
  {
    NormalizedEmpty(a);
    NormalizedEmpty(b);
  }

  /** Letter case does not matter. */
  lemma CaseInsensitive(a: string, b: string)
    requires SameUpToCase(a, b)
    ensures DetermineArticle(a) == DetermineArticle(b)
  {
    NormalizeIgnoresCase(a, b);
    DependsOnlyOnNormalized(a, b);
  }

  /** Surrounding white space does not matter. */
  lemma SurroundingSpaceIgnored(before: string, word: string, after: string)
    requires AllSpace(before) && AllSpace(after)
    ensures DetermineArticle(before + word + after) == DetermineArticle(word)
  {
    NormalizeIgnoresSurroundingSpace(before, word, after);
    DependsOnlyOnNormalized(before + word + after, word);
  }

  /** `ß` and `ss` are the same to the classifier. */
  lemma EszettIsDoubleS(before: string, after: string)
    ensures DetermineArticle(before + "ß" + after) == DetermineArticle(before + "ss" + after)
  {
    NormalizeFoldsEszett(before, after);
    DependsOnlyOnNormalized(before + "ß" + after, before + "ss" + after);
  }

  /**
    The blank-input guard of `determineArticle` never changes the outcome:
    on an empty normalized word no rule of the cascade applies either.
   */
  lemma BlankGuardAgreesWithCascade(word: string)
    ensures DetermineArticle(word) == DetermineArticleByRules(word)
    ensures AllSpace(word) ==> DetermineArticleByRules(word) == None
  {
    NormalizedEmpty(word);
  }

  // ---------------------------------------------------------------------
  // Consequences of the rule order
  // ---------------------------------------------------------------------

  /** Every word ending in `chen` or `lein` is neuter. */
  lemma DiminutivesAreNeuter(word: string)
    requires var n := NormalizeForMatching(word); EndsWith(n, "chen") || EndsWith(n, "lein")
    ensures DetermineArticle(word) == Some(Das)
  {
    BlankGuardAgreesWithCascade(word);
  }

  /**
    A word longer than four characters that starts with `ge` and is not
    caught by an earlier neuter ending is neuter, even if it ends in
    `-ung`, `-heit` or `-schaft`: the `ge-` rule comes before every
    feminine rule.
   */
  lemma GePrefixBeatsFeminineEndings(word: string)
    requires var n := NormalizeForMatching(word); StartsWith(n, "ge") && |n| > 4
    ensures DetermineArticle(word) == Some(Das)
  {
    BlankGuardAgreesWithCascade(word);
  }

  /** A word of more than three characters ending in `eur` is already caught by the `-ur` rule. */
  lemma EurCaughtByUr(n: string)
    requires EndsWith(n, "eur") && |n| > 3
    ensures EndsUr(n)
  {
    SuffixOfSuffix(n, "ur", "eur");
    SuffixesExclude(n, "eur", "atur");
  }

  /** No neuter ending test applies to a word ending in `eur`; only the `ge-` prefix can. */
  lemma EurNotNeuterEnding(n: string)
    requires EndsWith(n, "eur")
    ensures NeuterRuleApplies(n) <==> StartsGe(n)
  {
    SuffixesExclude(n, "eur", "chen");
    SuffixesExclude(n, "eur", "lein");
    SuffixesExclude(n, "eur", "tum");
    SuffixesExclude(n, "eur", "um");
    SuffixesExclude(n, "eur", "ment");
    SuffixesExclude(n, "eur", "nis");
    SuffixesExclude(n, "eur", "sal");
    SuffixesExclude(n, "eur", "sel");
  }

  /**
    A word of more than three characters ending in `eur` is feminine
    (through the `-ur` rule, before the masculine `-eur` rule is reached),
    unless it also starts with `ge` and is longer than four characters.
   */
  lemma EurWordsAreFeminine(word: string)
    requires var n := NormalizeForMatching(word); EndsWith(n, "eur") && |n| > 3
    ensures var n := NormalizeForMatching(word);
      DetermineArticle(word) == if StartsGe(n) then Some(Das) else Some(Die)
  {
    var n := NormalizeForMatching(word);
    EurCaughtByUr(n);
    EurNotNeuterEnding(n);
    BlankGuardAgreesWithCascade(word);
  }

  /** Endings that cannot end a word ending in `e`: the feminine tests before the `-e` rule and `-in`. */
  lemma FinalEExcludesOtherFeminineEndings(n: string)
    requires EndsWith(n, "e")
    ensures !EndsUng(n) && !EndsHeitKeit(n) && !EndsSchaft(n) && !EndsIon(n) && !EndsTaet(n)
    ensures !EndsIk(n) && !EndsUr(n) && !EndsEi(n) && !EndsIn(n)
    ensures !EndsWith(n, "anz") && !EndsWith(n, "enz")
  {
    SuffixesExclude(n, "e", "ung");
    SuffixesExclude(n, "e", "heit");
    SuffixesExclude(n, "e", "keit");
    SuffixesExclude(n, "e", "schaft");
    SuffixesExclude(n, "e", "ion");
    SuffixesExclude(n, "e", "tion");
    SuffixesExclude(n, "e", "sion");
    SuffixesExclude(n, "e", "tät");
    SuffixesExclude(n, "e", "ität");
    SuffixesExclude(n, "e", "ik");
    SuffixesExclude(n, "e", "ur");
    SuffixesExclude(n, "e", "ei");
    SuffixesExclude(n, "e", "in");
    SuffixesExclude(n, "e", "anz");
    SuffixesExclude(n, "e", "enz");
  }

  /** A word whose last character is neither `e` nor `s` is not in the `-e` exception list. */
  lemma NotAnEException(b: string)
    requires b != [] && b[|b| - 1] != 'e' && b[|b| - 1] != 's'
    ensures b !in E_EXCEPTIONS
  {
    assert forall x :: x in E_EXCEPTIONS ==> x != [] && (x[|x| - 1] == 'e' || x[|x| - 1] == 's');
  }

  /** On a normalized word ending in `e`: some feminine rule applies exactly when the word without its `e` is not listed. */
  lemma FinalEFeminine(n: string)
    requires EndsWith(n, "e") && |n| > 2
    ensures FeminineRuleApplies(n, BaseOf(n)) <==> n[..|n| - 1] !in E_EXCEPTIONS
  {
    BaseFormOfFinalE(n);
    FinalEExcludesOtherFeminineEndings(n);
    if EndsWith(n, "ade") || EndsWith(n, "age") {
      AdeAgeCaughtByFinalE(n);
    }
  }

  /**
    The `-e` rule: a word of more than two characters ending in `e` that
    no neuter rule catches is feminine exactly when the word without its
    final `e` is not in the exception list. The list is looked up with the
    base form, which has already lost that `e`.
   */
  lemma FinalERule(word: string)
    requires var n := NormalizeForMatching(word); EndsWith(n, "e") && |n| > 2 && !NeuterRuleApplies(n)
    ensures var n := NormalizeForMatching(word);
      DetermineArticle(word) == Some(Die) <==> n[..|n| - 1] !in E_EXCEPTIONS
  {
    FinalEFeminine(NormalizeForMatching(word));
    BlankGuardAgreesWithCascade(word);
  }

  /**
    A word ending in `ade` or `age` is already caught by the `-e` rule, so
    the `-ade`/`-age` test at script.js:435 never decides anything.
   */
  lemma AdeAgeCaughtByFinalE(n: string)
    requires EndsWith(n, "ade") || EndsWith(n, "age")
    ensures EndsE(n, BaseOf(n))
  {
    var suffix := if EndsWith(n, "ade") then "ade" else "age";
    SuffixOfSuffix(n, "e", suffix);
    BaseFormOfFinalE(n);
    var b := n[..|n| - 1];
    assert b[|b| - 1] == n[|n| - 2] == suffix[1];
    NotAnEException(b);
  }

  /** The `tion` and `sion` tests of the `-ion` rule are covered by its `ion` test. */
  lemma IonRuleIsIon(n: string)
    ensures EndsIon(n) <==> EndsWith(n, "ion")
  {
    if EndsWith(n, "tion") {
      SuffixOfSuffix(n, "ion", "tion");
    }
    if EndsWith(n, "sion") {
      SuffixOfSuffix(n, "ion", "sion");
    }
  }

  /** The `ität` test of the `-tät` rule is covered by its `tät` test. */
  lemma TaetRuleIsTaet(n: string)
    ensures EndsTaet(n) <==> EndsWith(n, "tät")
  {
    if EndsWith(n, "ität") {
      SuffixOfSuffix(n, "tät", "ität");
    }
  }

  /** The `chen` and `lein` guards of the `-er` rule can never fail. */
  lemma ErRuleGuards(n: string)
    ensures EndsEr(n) <==> EndsWith(n, "er") && |n| > 3 && !EndsWith(n, "ier")
  {
    SuffixesExclude(n, "er", "chen");
    SuffixesExclude(n, "er", "lein");
  }

  /** The `endsWith` halves of the `berg` and `fluss` tests are covered by `includes`. */
  lemma BergFlussTestsAreContains(n: string)
    ensures HasBerg(n) <==> Contains(n, "berg")
    ensures HasFluss(n) <==> Contains(n, "fluss")
  {
    if EndsWith(n, "berg") {
      EndsWithContains(n, "berg");
    }
    if EndsWith(n, "fluss") {
      EndsWithContains(n, "fluss");
    }
  }

  /** A word containing `berg` or `fluss` always gets an article. */
  lemma BergFlussAlwaysClassified(word: string)
    requires var n := NormalizeForMatching(word); Contains(n, "berg") || Contains(n, "fluss")
    ensures DetermineArticle(word).Some?
  {
    BlankGuardAgreesWithCascade(word);
  }

  /**
    A word none of whose rules is neuter or feminine and that contains
    `berg` or `fluss` is masculine.
   */
  lemma BergFlussMasculine(word: string)
    requires var n := NormalizeForMatching(word); Contains(n, "berg") || Contains(n, "fluss")
    requires var n := NormalizeForMatching(word);
      !NeuterRuleApplies(n) && !FeminineRuleApplies(n, GetBaseForm(word))
    ensures DetermineArticle(word) == Some(Der)
  {
    BlankGuardAgreesWithCascade(word);
  }
}

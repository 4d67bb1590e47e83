/**
  The rule cascade of the article classifier: `determineArticleByRules`
  (script.js:321-529) and the entry point `determineArticle`
  (script.js:535-544).

  Each `if` of the cascade is one rule predicate below, named after the
  ending or list it tests. All rules look at the normalized word, except
  the `-e` exception list and the tree list, which look at the base form.
  The article strings `'der'`, `'die'` and `'das'` become the datatype
  `Article`, and `null` becomes `None`.
 */
module Classifier {
  import opened Text
  import opened Normalizer

  datatype Article = Der | Die | Das

  datatype Option<T> = None | Some(value: T)

  /** The string the source returns for each article. */
  function ArticleText(a: Article): (s: string)
    ensures s in ["der", "die", "das"]
  {
    match a
    case Der => "der"
    case Die => "die"
    case Das => "das"
  }

  // ---------------------------------------------------------------------
  // Closed lists
  // ---------------------------------------------------------------------

  /** Nouns ending in `-e` that the `-e` rule leaves alone, compared with the base form (script.js:423). */
  const E_EXCEPTIONS: seq<string> := ["name", "see", "auge", "ende", "interesse", "ergebnis"]

  /** script.js:483-485 */
  const DAYS_MONTHS: seq<string> := [
    "montag", "dienstag", "mittwoch", "donnerstag", "freitag", "samstag", "sonntag",
    "januar", "februar", "märz", "april", "mai", "juni", "juli", "august",
    "september", "oktober", "november", "dezember"]

  /** script.js:491 */
  const SEASONS: seq<string> := ["frühling", "sommer", "herbst", "winter"]

  /** script.js:496 */
  const COMPASS: seq<string> := ["norden", "süden", "osten", "westen"]

  /** Compared with the base form (script.js:508). */
  const TREES: seq<string> := ["baum", "birke", "eiche", "buche", "fichte", "tanne", "linde", "ahorn", "ulme"]

  // ---------------------------------------------------------------------
  // Neuter rules (script.js:330-369)
  // ---------------------------------------------------------------------

  predicate EndsDiminutive(n: string) { EndsWith(n, "chen") || EndsWith(n, "lein") }
  predicate EndsTum(n: string) { EndsWith(n, "tum") && |n| > 3 }
  predicate EndsUm(n: string) { EndsWith(n, "um") && |n| > 3 && !EndsWith(n, "tum") }
  predicate EndsMent(n: string) { EndsWith(n, "ment") }
  predicate EndsNis(n: string) { EndsWith(n, "nis") }
  predicate EndsSalSel(n: string) { EndsWith(n, "sal") || EndsWith(n, "sel") }
  predicate StartsGe(n: string) { StartsWith(n, "ge") && |n| > 4 }

  // ---------------------------------------------------------------------
  // Feminine rules (script.js:379-438)
  // ---------------------------------------------------------------------

  predicate EndsUng(n: string) { EndsWith(n, "ung") }
  predicate EndsHeitKeit(n: string) { EndsWith(n, "heit") || EndsWith(n, "keit") }
  predicate EndsSchaft(n: string) { EndsWith(n, "schaft") }
  predicate EndsIon(n: string) { EndsWith(n, "ion") || EndsWith(n, "tion") || EndsWith(n, "sion") }
  predicate EndsTaet(n: string) { EndsWith(n, "tät") || EndsWith(n, "ität") }
  predicate EndsIk(n: string) { EndsWith(n, "ik") && |n| > 3 }
  predicate EndsUr(n: string) { EndsWith(n, "ur") && |n| > 3 && !EndsWith(n, "atur") }
  predicate EndsEi(n: string) { EndsWith(n, "ei") && |n| > 3 && !EndsWith(n, "erei") }
  /** The `-e` rule: the base form, not the normalized word, is looked up in the exception list. */
  predicate EndsE(n: string, b: string) { EndsWith(n, "e") && |n| > 2 && b !in E_EXCEPTIONS }
  predicate EndsIn(n: string) { EndsWith(n, "in") && |n| > 2 && !EndsWith(n, "chin") }
  predicate EndsAdeAgeAnzEnz(n: string) {
    EndsWith(n, "ade") || EndsWith(n, "age") || EndsWith(n, "anz") || EndsWith(n, "enz")
  }

  // ---------------------------------------------------------------------
  // Masculine rules (script.js:445-522)
  // ---------------------------------------------------------------------

  predicate EndsEr(n: string) {
    EndsWith(n, "er") && |n| > 3 && !EndsWith(n, "ier") && !EndsWith(n, "chen") && !EndsWith(n, "lein")
  }
  predicate EndsLing(n: string) { EndsWith(n, "ling") }
  predicate EndsIsmus(n: string) { EndsWith(n, "ismus") }
  predicate EndsOr(n: string) { EndsWith(n, "or") && |n| > 3 }
  predicate EndsEurAer(n: string) { EndsWith(n, "eur") || EndsWith(n, "är") }
  predicate EndsIgIch(n: string) { EndsWith(n, "ig") || EndsWith(n, "ich") }
  predicate EndsUs(n: string) { EndsWith(n, "us") && |n| > 3 && !EndsWith(n, "mus") }
  predicate IsDayOrMonth(n: string) { n in DAYS_MONTHS }
  predicate IsSeason(n: string) { n in SEASONS }
  predicate IsCompassPoint(n: string) { n in COMPASS }
  predicate IsTree(b: string) { b in TREES }
  predicate HasBerg(n: string) { EndsWith(n, "berg") || Contains(n, "berg") }
  predicate HasFluss(n: string) { EndsWith(n, "fluss") || Contains(n, "fluss") }

  // ---------------------------------------------------------------------
  // The cascade
  // ---------------------------------------------------------------------

  /** Some neuter rule applies. */
  predicate NeuterRuleApplies(n: string) {
    || EndsDiminutive(n) || EndsTum(n) || EndsUm(n) || EndsMent(n) || EndsNis(n)
    || EndsSalSel(n) || StartsGe(n)
  }

  /** Some feminine rule applies. */
  predicate FeminineRuleApplies(n: string, b: string) {
    || EndsUng(n) || EndsHeitKeit(n) || EndsSchaft(n) || EndsIon(n) || EndsTaet(n)
    || EndsIk(n) || EndsUr(n) || EndsEi(n) || EndsE(n, b) || EndsIn(n) || EndsAdeAgeAnzEnz(n)
  }

  /** Some masculine rule applies. */
  predicate MasculineRuleApplies(n: string, b: string) {
    || EndsEr(n) || EndsLing(n) || EndsIsmus(n) || EndsOr(n) || EndsEurAer(n) || EndsIgIch(n)
    || EndsUs(n) || IsDayOrMonth(n) || IsSeason(n) || IsCompassPoint(n) || IsTree(b)
    || HasBerg(n) || HasFluss(n)
  }

  /** `determineArticleByRules(word)`, script.js:321-529: normalize, reduce to the base form, run the rules. */
  function DetermineArticleByRules(word: string): Option<Article> {
    ApplyRules(NormalizeForMatching(word), GetBaseForm(word))
  }

  /**
    The rule cascade of script.js:330-528 on the normalized word and its
    base form: the first rule that applies, in source order, decides.
    Since every rule of a gender group yields that group's article, the
    outcome depends only on which groups have an applicable rule: neuter
    before feminine before masculine.
   */
  function ApplyRules(normalized: string, baseForm: string): (r: Option<Article>)
    ensures r == Some(Das) <==> NeuterRuleApplies(normalized)
    ensures r == Some(Die) <==> !NeuterRuleApplies(normalized) && FeminineRuleApplies(normalized, baseForm)
    ensures r == Some(Der) <==> !NeuterRuleApplies(normalized) && !FeminineRuleApplies(normalized, baseForm)
                                && MasculineRuleApplies(normalized, baseForm)
    ensures r == None <==> !NeuterRuleApplies(normalized) && !FeminineRuleApplies(normalized, baseForm)
                           && !MasculineRuleApplies(normalized, baseForm)
  {
    if EndsDiminutive(normalized) then Some(Das)
    else if EndsTum(normalized) then Some(Das)
    else if EndsUm(normalized) then Some(Das)
    else if EndsMent(normalized) then Some(Das)
    else if EndsNis(normalized) then Some(Das)
    else if EndsSalSel(normalized) then Some(Das)
    else if StartsGe(normalized) then Some(Das)
    else if EndsUng(normalized) then Some(Die)
    else if EndsHeitKeit(normalized) then Some(Die)
    else if EndsSchaft(normalized) then Some(Die)
    else if EndsIon(normalized) then Some(Die)
    else if EndsTaet(normalized) then Some(Die)
    else if EndsIk(normalized) then Some(Die)
    else if EndsUr(normalized) then Some(Die)
    else if EndsEi(normalized) then Some(Die)
    else if EndsE(normalized, baseForm) then Some(Die)
    else if EndsIn(normalized) then Some(Die)
    else if EndsAdeAgeAnzEnz(normalized) then Some(Die)
    else if EndsEr(normalized) then Some(Der)
    else if EndsLing(normalized) then Some(Der)
    else if EndsIsmus(normalized) then Some(Der)
    else if EndsOr(normalized) then Some(Der)
    else if EndsEurAer(normalized) then Some(Der)
    else if EndsIgIch(normalized) then Some(Der)
    else if EndsUs(normalized) then Some(Der)
    else if IsDayOrMonth(normalized) then Some(Der)
    else if IsSeason(normalized) then Some(Der)
    else if IsCompassPoint(normalized) then Some(Der)
    else if IsTree(baseForm) then Some(Der)
    else if HasBerg(normalized) then Some(Der)
    else if HasFluss(normalized) then Some(Der)
    else None
  }

  /** `determineArticle(word)`, script.js:535-544: blank input is unknown; anything else goes to the cascade. */
  function DetermineArticle(word: string): (r: Option<Article>)
    ensures AllSpace(word) ==> r == None
    ensures r.Some? ==> NormalizeForMatching(word) != []
  {
    if word == [] || |Trim(word)| == 0 then None
    else DetermineArticleByRules(word)
  }
}

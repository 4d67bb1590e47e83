# German article classifier — a verified model

This project models the rule-based German article classifier of
`script.js`. Given a noun as typed, it reports the noun's article: `der`
(masculine), `die` (feminine) or `das` (neuter). When no rule recognizes
the word, it reports no article (`null` in the source).

The classifier has four parts, each modelled as a pure function:

- `normalizeForMatching` (`Normalizer.NormalizeForMatching`). It trims
  white space, lowercases the word and folds `ß` to `ss`.
- `getBaseForm` (`Normalizer.GetBaseForm`, on the normalized word
  `Normalizer.BaseOf`). It is a best-effort reduction of a plural to its
  singular.
- `determineArticleByRules` (`Classifier.DetermineArticleByRules`). Its
  cascade is `Classifier.ApplyRules`: 31 tests, tried in source order,
  where the first test that applies decides. Each test is one predicate,
  named after the ending or list it checks (`EndsUm`, `EndsE`, `IsTree`, …).
- `determineArticle` (`Classifier.DetermineArticle`). It returns no
  article for empty or blank input and runs the cascade otherwise.

The articles are the datatype `Classifier.Article`, and `null` is `None`.

Every rule of a gender group yields that group's article, so the outcome
depends only on which groups have an applicable rule, in the order neuter,
feminine, masculine. `Classifier.ApplyRules` states exactly this. The
lemmas in `ClassifierProperties` and `ClassifierExamples` then work out
what the fixed order means for particular endings and word lists. Some
of these results are surprising German, but they are what the rules say:

- `baum` is neuter;
- `ahorn` is the only tree the tree list decides;
- the nouns of the `-e` exception list that end in `e` are feminine;
- every word longer than three characters that ends in `-eur` is feminine,
  unless the `ge-` rule (a word longer than four characters starting with
  `ge`) makes it neuter first.

Files:

- `text.dfy` (module `Text`): `endsWith`, `startsWith` and `includes`, with
  facts about suffixes.
- `normalizer.dfy` (module `Normalizer`): the normalizer and the base form.
- `classifier.dfy` (module `Classifier`): the word lists, the rule
  predicates, the cascade and the entry point.
- `classifier_properties.dfy` (module `ClassifierProperties`): properties
  that hold for every input.
- `classifier_examples.dfy` (module `ClassifierExamples`): outcomes for
  the closed word lists and for particular nouns.

## Model

| member | source | states |
|---|---|---|
| Text.EndsWith | script.js:296 | `s.endsWith(suffix)`: the last characters of `s` are `suffix` |
| Text.StartsWith | script.js:367 | `s.startsWith(prefix)`: the first characters of `s` are `prefix` |
| Text.Contains | script.js:514 | `s.includes(part)`: `part` starts at some position of `s` (characterised both ways by ContainsAt and ContainsWitness) |
| Text.ContainsAt | script.js:514-522 | an occurrence of the searched part at any position makes `includes` true |
| Text.ContainsWitness | script.js:514-522 | conversely, when `includes` is true, the part occurs at some position (the returned index) |
| Normalizer.NormalizeForMatching | script.js:287-289 | `normalizeForMatching`: trim, then lowercase, then replace every `ß` by `ss`; its properties are the lemmas below |
| Normalizer.IsSpace | script.js:288 | the characters `trim` removes: the ECMAScript white-space and line-terminator characters |
| Normalizer.AllSpace | script.js:536 | a string made only of such characters, which is what `word.trim().length === 0` detects |
| Normalizer.LowerChar | script.js:288 | `toLowerCase` on one character: `A`-`Z`, the Latin-1 capitals and `ẞ` map to their lowercase letters, every other character to itself |
| Normalizer.Lower | script.js:288 | `toLowerCase` on a word, character by character; it keeps the length |
| Normalizer.IsNormalized | script.js:287-289 | what a result of `normalizeForMatching` looks like: no white space at either end, no capital, no `ß` |
| Normalizer.StripPluralSuffix | script.js:296-314 | the reference reduction that BaseFormReference proves equal to the base form; it leaves out the tests that cannot change its outcome |
| Normalizer.Trim | script.js:288 | `trim` leaves no white space at either end, and gives the empty string exactly when the input is empty or all white space |
| Normalizer.TrimStart | script.js:288 | the leading trim keeps a suffix of the input; everything it drops is white space, and what it keeps starts with a non-space character |
| Normalizer.TrimEnd | script.js:288 | the trailing trim keeps a prefix of the input; everything it drops is white space, and what it keeps ends with a non-space character |
| Normalizer.FoldEszett | script.js:288 | replacing `ß` by `ss` never shortens the word; it keeps the word empty exactly when it was empty, keeps the first and last characters except for `ß` becoming `s`, and leaves a word without `ß` unchanged |
| Normalizer.NormalizedShape | script.js:287-289 | a normalized word has no white space at either end, no capital letter and no `ß` |
| Normalizer.NormalizedIsFixedPoint | script.js:287-289 | normalizing a word that is already normalized leaves it unchanged |
| Normalizer.NormalizeIdempotent | script.js:287-289 | normalizing twice gives the same word as normalizing once |
| Normalizer.NormalizedEmpty | script.js:287-289 | the normalized word is empty exactly when the input is empty or all white space |
| Normalizer.NormalizeIgnoresCase | script.js:288 | two words that differ only in letter case have the same normalized form |
| Normalizer.NormalizeIgnoresSurroundingSpace | script.js:288 | white space added before or after a word does not change its normalized form |
| Normalizer.TrimIgnoresSurroundingSpace | script.js:288 | white space added before or after a word does not change its trimmed form |
| Normalizer.NormalizeSameMiddle | script.js:288 | two non-empty inner parts, each with a non-space first and last character, that lowercase and fold to the same text can be exchanged inside any word without changing the normalized form |
| Normalizer.NormalizeFoldsEszett | script.js:288 | writing `ß` or `ss` anywhere inside a word gives the same normalized form |
| Normalizer.FoldKeepsLowerCase | script.js:288 | folding `ß` in a word whose every character `toLowerCase` leaves unchanged keeps that property and leaves no `ß` |
| Normalizer.GetBaseForm | script.js:292-315 | the base form is never longer than the normalized word, and when it differs from it, it has at least two characters |
| Normalizer.BaseOf | script.js:296-314 | the same length bounds hold for the plural reduction applied to a normalized word |
| Normalizer.DeadBaseFormGuards | script.js:297-300 | inside the `-en` branch, the `lein`, `tion` and `sion` tests can never succeed |
| Normalizer.BaseFormReference | script.js:296-314 | the base form equals a simpler reference reduction: `-innen` becomes `-in`; otherwise `-en` is dropped from a word longer than three characters that does not end in `chen`; otherwise a final `e` is dropped from a word longer than two characters |
| Normalizer.BaseFormOfFinalE | script.js:309-312 | a word longer than two characters that ends in `e` loses exactly that `e` |
| Classifier.EndsDiminutive | script.js:330 | the test of this rule: the normalized word ends in `chen` or `lein` |
| Classifier.EndsTum | script.js:335 | the test of this rule: the normalized word ends in `tum` and is longer than three characters |
| Classifier.EndsUm | script.js:340 | the test of this rule: the normalized word ends in `um`, not `tum`, and is longer than three characters |
| Classifier.EndsMent | script.js:345 | the test of this rule: the normalized word ends in `ment` |
| Classifier.EndsNis | script.js:350 | the test of this rule: the normalized word ends in `nis` |
| Classifier.EndsSalSel | script.js:355 | the test of this rule: the normalized word ends in `sal` or `sel` |
| Classifier.StartsGe | script.js:367 | the test of this rule: the normalized word starts with `ge` and is longer than four characters |
| Classifier.EndsUng | script.js:379 | the test of this rule: the normalized word ends in `ung` |
| Classifier.EndsHeitKeit | script.js:384 | the test of this rule: the normalized word ends in `heit` or `keit` |
| Classifier.EndsSchaft | script.js:389 | the test of this rule: the normalized word ends in `schaft` |
| Classifier.EndsIon | script.js:394 | the test of this rule: the normalized word ends in `ion`, `tion` or `sion` |
| Classifier.EndsTaet | script.js:399 | the test of this rule: the normalized word ends in `tät` or `ität` |
| Classifier.EndsIk | script.js:404 | the test of this rule: the normalized word ends in `ik` and is longer than three characters |
| Classifier.EndsUr | script.js:409 | the test of this rule: the normalized word ends in `ur`, not `atur`, and is longer than three characters |
| Classifier.EndsEi | script.js:414 | the test of this rule: the normalized word ends in `ei`, not `erei`, and is longer than three characters |
| Classifier.EndsE | script.js:419-424 | the test of this rule: the normalized word ends in `e`, is longer than two characters, and its base form is not in the `-e` exception list |
| Classifier.EndsIn | script.js:430 | the test of this rule: the normalized word ends in `in`, not `chin`, and is longer than two characters |
| Classifier.EndsAdeAgeAnzEnz | script.js:435-436 | the test of this rule: the normalized word ends in `ade`, `age`, `anz` or `enz` |
| Classifier.EndsEr | script.js:445-447 | the test of this rule: the normalized word ends in `er`, not in `ier`, `chen` or `lein`, and is longer than three characters |
| Classifier.EndsLing | script.js:453 | the test of this rule: the normalized word ends in `ling` |
| Classifier.EndsIsmus | script.js:458 | the test of this rule: the normalized word ends in `ismus` |
| Classifier.EndsOr | script.js:463 | the test of this rule: the normalized word ends in `or` and is longer than three characters |
| Classifier.EndsEurAer | script.js:468 | the test of this rule: the normalized word ends in `eur` or `är` |
| Classifier.EndsIgIch | script.js:473 | the test of this rule: the normalized word ends in `ig` or `ich` |
| Classifier.EndsUs | script.js:478 | the test of this rule: the normalized word ends in `us`, not `mus`, and is longer than three characters |
| Classifier.IsDayOrMonth | script.js:483-486 | the test of this rule: the normalized word is one of the listed weekdays and months |
| Classifier.IsSeason | script.js:491 | the test of this rule: the normalized word is one of the listed seasons |
| Classifier.IsCompassPoint | script.js:496 | the test of this rule: the normalized word is one of the listed compass points |
| Classifier.IsTree | script.js:508-509 | the test of this rule: the base form is one of the listed trees |
| Classifier.HasBerg | script.js:514 | the test of this rule: the normalized word ends in or contains `berg` |
| Classifier.HasFluss | script.js:520 | the test of this rule: the normalized word ends in or contains `fluss` |
| Classifier.NeuterRuleApplies | script.js:330-369 | some neuter rule applies |
| Classifier.FeminineRuleApplies | script.js:379-438 | some feminine rule applies |
| Classifier.MasculineRuleApplies | script.js:445-522 | some masculine rule applies |
| Classifier.DetermineArticleByRules | script.js:321-323 | `determineArticleByRules`: the cascade run on the normalized word and the base form of the same input |
| Classifier.ArticleText | script.js:330-522 | each article is reported as one of the strings `der`, `die` and `das` |
| Classifier.ApplyRules | script.js:330-528 | the result is `das` exactly when a neuter rule applies; `die` exactly when no neuter rule and some feminine rule applies; `der` exactly when only masculine rules apply; no article exactly when no rule applies |
| Classifier.DetermineArticle | script.js:535-544 | blank input gets no article, and every article is given to a word whose normalized form is not empty |
| ClassifierProperties.ArticleTextInjective | script.js:330-522 | different articles are reported as different strings |
| ClassifierProperties.DependsOnlyOnNormalized | script.js:321-323 | words with the same normalized form get the same outcome |
| ClassifierProperties.CaseInsensitive | script.js:288 | letter case does not change the outcome |
| ClassifierProperties.SurroundingSpaceIgnored | script.js:288 | white space around the word does not change the outcome |
| ClassifierProperties.EszettIsDoubleS | script.js:288 | `ß` and `ss` inside a word give the same outcome |
| ClassifierProperties.BlankGuardAgreesWithCascade | script.js:535-544 | the blank-input guard never changes the outcome: `determineArticle` always agrees with `determineArticleByRules`, which itself finds no rule for blank input |
| ClassifierProperties.DiminutivesAreNeuter | script.js:330-332 | every word ending in `chen` or `lein` is neuter |
| ClassifierProperties.GePrefixBeatsFeminineEndings | script.js:367-391 | a word longer than four characters that starts with `ge` is neuter, whatever its ending |
| ClassifierProperties.EurCaughtByUr | script.js:409-411 | a word longer than three characters that ends in `eur` is caught by the `-ur` rule |
| ClassifierProperties.EurNotNeuterEnding | script.js:330-369 | on a word ending in `eur`, a neuter rule applies exactly when the `ge-` rule does |
| ClassifierProperties.EurWordsAreFeminine | script.js:409-470 | a word longer than three characters that ends in `eur` is feminine, or neuter when the `ge-` rule applies; the masculine `-eur` rule never decides such a word |
| ClassifierProperties.FinalEExcludesOtherFeminineEndings | script.js:379-438 | a word ending in `e` fits none of the other feminine tests except `ade` and `age` |
| ClassifierProperties.NotAnEException | script.js:423 | a word whose last character is neither `e` nor `s` is not in the `-e` exception list |
| ClassifierProperties.FinalEFeminine | script.js:419-438 | for a word longer than two characters that ends in `e`, some feminine rule applies exactly when the word without its `e` is not listed |
| ClassifierProperties.FinalERule | script.js:419-427 | a word longer than two characters that ends in `e`, with no neuter rule applying, is feminine exactly when the word without its final `e` is not in the exception list |
| ClassifierProperties.AdeAgeCaughtByFinalE | script.js:419-438 | every word ending in `ade` or `age` is caught by the `-e` rule, so that half of the last feminine test never decides anything |
| ClassifierProperties.IonRuleIsIon | script.js:394 | the `-ion` rule holds exactly when the word ends in `ion` |
| ClassifierProperties.TaetRuleIsTaet | script.js:399 | the `-tät` rule holds exactly when the word ends in `tät` |
| ClassifierProperties.ErRuleGuards | script.js:445-450 | the `-er` rule holds exactly for words longer than three characters that end in `er` but not in `ier`; its `chen` and `lein` guards never fail |
| ClassifierProperties.BergFlussTestsAreContains | script.js:514-522 | the `berg` and `fluss` tests hold exactly when the word contains `berg` or `fluss` |
| ClassifierProperties.BergFlussAlwaysClassified | script.js:514-522 | a word that contains `berg` or `fluss` always gets an article |
| ClassifierProperties.BergFlussMasculine | script.js:514-522 | a word that contains `berg` or `fluss`, with no neuter and no feminine rule applying, is masculine |
| ClassifierExamples.EndsApartExcludes | script.js:330-480 | a word whose last three characters differ from an ending in one of its last three positions does not end with that ending |
| ClassifierExamples.NoNeuterEnding | script.js:330-369 | a word that fits no neuter ending and does not start with `ge` meets no neuter rule |
| ClassifierExamples.NoFeminineEnding | script.js:379-438 | a word that fits no feminine ending meets no feminine rule |
| ClassifierExamples.NoMasculineEnding | script.js:445-480 | a word that fits no masculine ending meets none of the masculine ending rules |
| ClassifierExamples.NotGePrefix | script.js:367 | a word that does not start with `g` does not meet the `ge-` rule |
| ClassifierExamples.SmallLettersAreNormalized | script.js:287-289 | a word made of the letters a–z, ä, ö and ü (no ß) is already normalized |
| ClassifierExamples.OnNormalized | script.js:321-323 | on a normalized word, the classifier runs the cascade on the word itself and on its base form |
| ClassifierExamples.MasculineOrUnknown | script.js:445-528 | a normalized word of at least three characters that does not start with `ge` and whose last three characters fit no neuter and no feminine ending is masculine exactly when some masculine rule applies, and gets no article otherwise |
| ClassifierExamples.DecidedByLists | script.js:483-528 | a normalized word of at least three characters that does not start with `ge` and whose last three characters fit no ending is masculine exactly when it is in one of the closed lists, its base form is a listed tree, or it contains `berg` or `fluss`, and gets no article otherwise |
| ClassifierExamples.FinalENotNeuter | script.js:330-369 | a word ending in `e` that does not start with `ge` meets no neuter rule |
| ClassifierExamples.BaseOfWithoutPluralEnding | script.js:296-314 | a word ending in neither `e` nor `en` is its own base form |
| ClassifierExamples.NeuterWord | script.js:330-369 | a word made of the letters a–z, ä, ö and ü (no ß) that meets a neuter rule is neuter |
| ClassifierExamples.FeminineWord | script.js:379-438 | a word of at least three letters, made of the letters a–z, ä, ö and ü (no ß), not starting with `g`, whose last three letters fit no neuter ending and that meets a feminine rule is feminine |
| ClassifierExamples.MasculineWord | script.js:445-522 | a word of at least three letters, made of the letters a–z, ä, ö and ü (no ß), not starting with `g`, whose last three letters fit no neuter and no feminine ending and that meets a masculine rule is masculine |
| ClassifierExamples.FinalEWordIsFeminine | script.js:419-427 | a word of at least three letters, made of the letters a–z, ä, ö and ü (no ß), ending in `e`, not starting with `g`, whose stem ends in neither `e` nor `s` or is not listed, is feminine |
| ClassifierExamples.ShortUnknownWord | script.js:528 | a three-letter word made of the letters a–z, ä, ö and ü (no ß), not starting with `g`, that fits no ending, is in no list and whose base form is not a listed tree gets no article |
| ClassifierExamples.CalendarWordIsMasculine | script.js:483-498 | every weekday, month, season and compass word is masculine; some reach this through the earlier `-er` or `-ling` rules |
| ClassifierExamples.TreeOutcome | script.js:508-511 | of the listed trees, `baum` is neuter (by `-um`), `ahorn` is masculine (by the tree list) and the others are feminine (by `-e`) |
| ClassifierExamples.ExceptionListNoun | script.js:419-427 | the listed `-e` exceptions are feminine, because the list is checked against the base form, which has already lost the `e`; `ergebnis` is neuter by `-nis` |
| ClassifierExamples.CommonNouns | script.js:330-450 | `mädchen` is neuter, `freiheit` and `nation` are feminine, and `lehrer` is masculine |
| ClassifierExamples.UnknownExample | script.js:527-538 | `xyz`, the empty string and a blank string get no article |

## Left out

- The text-to-speech part of `script.js` (lines 21-268) is not part of this model. It is browser speech I/O.
- The page wiring of `script.js` (lines 9-15, 547-566 and 569-582) is not part of this model. It reads DOM elements and writes to them, and it only calls `determineArticle`.
- `webpack.config.js` is not part of this model. It is build configuration.
- The two blocks with no effect are omitted: the `-er` block of `getBaseForm` (script.js:305-308) and the infinitive block of the cascade (script.js:361-364). Neither returns nor changes anything.
- `Normalizer.LowerChar` covers only part of `toLowerCase`: `A`-`Z`, the Latin-1 capitals U+00C0 to U+00DE except U+00D7, and `ẞ`. It maps every other character to itself. Other alphabets and multi-character lowercase mappings are not modelled.
- Strings are sequences of Unicode scalar values, not UTF-16 code units. A character outside the Basic Multilingual Plane counts as one character in the model but as two in JavaScript's `length`, so the length guards (script.js:297, 309, 335, 340, 367, 404, 409, 414, 419, 430, 445, 463, 478) can decide differently on such input: U+1F600 followed by `ur` has length 4 in JavaScript and gets `die` at script.js:409, while the model gives no article.
- `determineArticle` also returns `null` for `null` or `undefined` input (`!word`). The model takes only strings, so that case is not modelled.

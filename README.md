# Trading-card identification, modelled in Dafny

This project models two parts of a trading-card scanner app. Both identify a physical card, one from recognised text and one from an image fingerprint.

**The text path** is `DatabaseService`, modelled in `Database.dfy`.
- The service holds the card catalog and three indexes, built by `buildIndexes`:
  - by hit-points,
  - by lower-cased, trimmed name,
  - by the words that follow "the attack" in a card's caption.
- `parseOCRText` reads hints off the recognised text: hit-points, a set fraction such as `04/025`, a card name and attack phrases.
- `findCandidates` scores cards in stages and returns the best three:
  - name plus card number scores 120 and returns early;
  - name plus hit-points scores 100, and name with mismatched hit-points scores 50;
  - name alone scores 40 plus 25 per attack;
  - a fuzzy fallback follows;
  - the candidates are then sorted by descending score.
- `getCardById` finds a card by its id.

Every regular expression of those functions is a hand-written matcher with the leftmost-match semantics of `String.prototype.match` (`Scan.dfy`, `OcrParse.dfy`, `Catalog.dfy`). The index, parsing and ranking rules are specification functions (`Catalog.dfy`, `OcrParse.dfy`, `Ranking.dfy`). Each loop of the service is a method proved to compute the function it stands for. The properties of the service are then lemmas about those functions.

**The image path** is `RecognitionService`, modelled in `Recognition.dfy`, together with the generator script `scripts/generate-hashes.ts`, modelled in `GenerateHashes.dfy`.
- A difference hash puts one bit per pair of horizontally adjacent pixels into a bit string:
  - 8x11 bits over an RGBA buffer in the app;
  - 32x32 bits over a grey buffer in the script.
- The bit string is written as hex (`HashCodec.dfy`).
- Stored hashes are compared with a nibble-wise Hamming distance.
- The closest one is accepted if its distance is below 25.

The class `DatabaseService` keeps the four fields of the original. Its methods update them and call the module-level loop methods. The class `RecognitionService` keeps its `hashes` field.

A card's `hp` is an `Option<int>`. `Some(h)` stands for a truthy raw value whose `parseInt` is `h`, and `None` for a falsy one. A hit-points value of `0` counts as "not given" wherever the source tests `parsed.hp` for truthiness (`Ranking.HpGiven`). Names and ids are `string`.

Two further facts about the code:
- The name is looked up in the name index only. There is no preference for words near the top of the card, no locale translation table and no bucket for variant suffixes.
- The multi-attack bonus counts matches over `parsed.attacks`, which is duplicate-free by construction (`OcrParse.ParsedAttacks`).

## Model

| member | source | states |
|---|---|---|
| Text.LowerStrIsLowerCase | src/services/DatabaseService.ts:74 | ASCII lower-casing keeps the length and leaves no upper-case letter |
| Text.TrimStart | src/services/DatabaseService.ts:74 | the result is a suffix of the input without leading white space, and only white space was removed |
| Text.TrimEnd | src/services/DatabaseService.ts:74 | the result is a prefix of the input without trailing white space, and only white space was removed |
| Text.Dedup | src/services/DatabaseService.ts:212 | `[...new Set(xs)]` is duplicate-free, has exactly the members of the input and is no longer than it |
| Text.DedupOrder | src/services/DatabaseService.ts:212 | `[...new Set(xs)]` keeps the elements in order of their first occurrence |
| Text.FirstIndex | src/services/DatabaseService.ts:212 | the position of the first occurrence of an element: it is there and nowhere before |
| Text.DedupOfDistinct | src/services/DatabaseService.ts:212 | a duplicate-free list is its own de-duplication |
| Text.DedupAppend | src/services/DatabaseService.ts:212 | de-duplicating `a + b` keeps the de-duplication of `a` as prefix; everything after it comes from `b` and not from `a` |
| Text.FilterMembers | src/services/DatabaseService.ts:244-247 | `filter` keeps exactly the elements that satisfy the predicate |
| Text.FilterAppend | src/services/DatabaseService.ts:244-247 | filtering distributes over concatenation |
| Text.CountPositive | src/services/DatabaseService.ts:330-335 | a per-element count is positive iff some element qualifies |
| Text.DecimalValueBound | src/services/DatabaseService.ts:120 | `parseInt` of 2 digits is below 100 and of 3 digits below 1000 |
| Scan.FirstAt | src/services/DatabaseService.ts:118 | the leftmost position from `p` where the pattern matches, with no match before it; `None` when none matches |
| Scan.AllStarts | src/services/DatabaseService.ts:132 | the positions a `g`-flagged scan visits are increasing matches inside the text |
| Scan.AllMatches | src/services/DatabaseService.ts:132 | one match per visited position |
| Scan.AllStartsExact | src/services/DatabaseService.ts:132 | for a pattern whose matches cannot overlap, the global scan visits exactly the positions where it matches |
| Scan.FirstWhere | src/services/DatabaseService.ts:134-142 | the first accepted element of a list, with none accepted before it; `None` iff none is accepted |
| Scan.FirstWhereAt | src/services/DatabaseService.ts:134-142 | a loop that stops at the first accepted element stops where `FirstWhere` points |
| Scan.AcceptedIsVisited | src/services/DatabaseService.ts:132-137 | every accepted position is the start of an element of the global match list |
| Scan.LeftmostAccepted | src/services/DatabaseService.ts:132-142 | the first accepted element of the global match list is the accepted match at the leftmost text position; none iff no position is accepted |
| Catalog.EmptyMap | src/services/DatabaseService.ts:24-26 | a fresh `Map` has no keys and no buckets |
| Catalog.NameKeyShape | src/services/DatabaseService.ts:74 | a name key is lower-case, no longer than the name, and has no white space at either end |
| Catalog.HpKeys | src/services/DatabaseService.ts:67-68 | a card is filed under at most one hit-points value, exactly its own, and under none when it has none |
| Catalog.Push | src/services/DatabaseService.ts:69-70 | `get(k).push(v)` appends `v` to bucket `k` only; a new key goes to the end of the key order |
| Catalog.PushAll | src/services/DatabaseService.ts:82-87 | filing under several keys keeps the multimap well formed |
| Catalog.IndexCards | src/services/DatabaseService.ts:64-91 | the index after the loop over the catalog is well formed |
| Catalog.IndexCardsStep | src/services/DatabaseService.ts:65 | one more loop iteration files one more card under its keys |
| Catalog.WordRunEnd | src/services/DatabaseService.ts:80 | `\w+` runs to the first non-word character |
| Catalog.AttackPhraseAt | src/services/DatabaseService.ts:80 | a match of `/the attack (\w+)/i` starts where it was tried and ends inside the caption |
| Catalog.PushAllGet | src/services/DatabaseService.ts:82-87 | bucket `k` grows by one copy of the card per occurrence of `k` among the keys |
| Catalog.IndexCardsGet | src/services/DatabaseService.ts:64-91 | bucket `k` of the built index is the old bucket followed by every card filed under `k`, in catalog order |
| Catalog.IndexCardsKeys | src/services/DatabaseService.ts:64-91 | every key of the built index was already there or is a key of some catalog card |
| Catalog.PushAllNewKeys | src/services/DatabaseService.ts:82-87 | a key that filing adds is one of the keys filed under |
| Catalog.NameOccurrences | src/services/DatabaseService.ts:74-76 | the cards filed under a name are the catalog cards whose normalised name it is |
| Catalog.NameBucket | src/services/DatabaseService.ts:74-76 | the name bucket is the catalog filtered by normalised name, in catalog order; every card is in its own bucket |
| Catalog.NameBuckets | src/services/DatabaseService.ts:65-77 | every name bucket of the built index is the catalog filtered by that normalised name |
| Catalog.NameKeyList | src/services/DatabaseService.ts:74 | the normalised name of each card, in catalog order |
| Catalog.NameKeysOrder | src/services/DatabaseService.ts:75 | the name index iterates its keys in order of first appearance in the catalog |
| Catalog.PushOne | src/services/DatabaseService.ts:75-76 | filing under one key is a single push |
| Catalog.PushTotal | src/services/DatabaseService.ts:76 | one push grows the sum of bucket sizes by one |
| Catalog.NameBucketSizes | src/services/DatabaseService.ts:74-76 | the name buckets' sizes sum to the number of catalog cards |
| Catalog.HpOccurrences | src/services/DatabaseService.ts:67-71 | the cards filed under a hit-points value are those with that value |
| Catalog.HpBucket | src/services/DatabaseService.ts:67-71 | the hit-points bucket `h` is the catalog filtered by `hp == h`; a card without hit-points is in no bucket |
| Catalog.HpBuckets | src/services/DatabaseService.ts:65-71 | every hit-points bucket of the built index is the catalog filtered by that value |
| Catalog.HpKeyHasCard | src/services/DatabaseService.ts:67-70 | every key of the hit-points index is the value of some catalog card |
| Catalog.CaptionAttackWordsFollow | src/services/DatabaseService.ts:80-83 | every attack word is lower-case, non-empty and follows "the attack " in the caption |
| Catalog.LowerTexts | src/services/DatabaseService.ts:80-83 | each attack match is lower-cased, one word per match, in order |
| Catalog.AttackPhraseText | src/services/DatabaseService.ts:80-83 | the captured word of one match follows "the attack " at its start |
| Catalog.AttackKeysFollow | src/services/DatabaseService.ts:79-84 | every attack key of a card is lower-case, longer than 3 and follows "the attack " in its caption |
| Catalog.OccurrencesMembers | src/services/DatabaseService.ts:65-88 | a card filed under `k` is a catalog card with `k` among its keys |
| Catalog.AttackKeyOrigin | src/services/DatabaseService.ts:79-88 | every attack-index key is lower-case, longer than 3 and follows "the attack " in the caption of some catalog card; every card in the bucket of a key is a catalog card whose caption has the key after "the attack " |
| OcrParse.SkipSpaces | src/services/DatabaseService.ts:113 | `\s*` stops at the first non-space |
| OcrParse.LowerRunEnd | src/services/DatabaseService.ts:182 | `[a-z]*` stops at the first non-lower-case letter |
| OcrParse.HpDigitsLabel | src/services/DatabaseService.ts:113 | `(\d{2,3})\s*HP` captures the 2 or 3 digits where it starts |
| OcrParse.HpLabelDigits | src/services/DatabaseService.ts:114 | `HP\s*(\d{2,3})` captures 2 or 3 digits |
| OcrParse.HpDigitsSpacedLabel | src/services/DatabaseService.ts:115 | `(\d{2,3})\s*H\s*P` captures the 2 or 3 digits where it starts |
| OcrParse.PatternHp | src/services/DatabaseService.ts:118-121 | a pattern yields hit-points only when its leftmost match is in 30..340 |
| OcrParse.HpFromPatterns | src/services/DatabaseService.ts:117-126 | the value of the first pattern that yields in-range hit-points; none iff no pattern does |
| OcrParse.HpFromPatternsAt | src/services/DatabaseService.ts:117-126 | the loop that breaks at pattern `p` returns that pattern's value |
| OcrParse.BareNumberAt | src/services/DatabaseService.ts:132 | `\b(\d{2,3})\b` matches 2 or 3 digits inside the text |
| OcrParse.FirstPart | src/services/DatabaseService.ts:131 | `substring(0, 80)` is the prefix of at most 80 characters |
| OcrParse.HpFromNumbers | src/services/DatabaseService.ts:130-144 | a fallback value is a multiple of 10 in 30..340 |
| OcrParse.ParsedHp | src/services/DatabaseService.ts:111-144 | any hit-points found lie in 30..340 |
| OcrParse.BareNumberWellFormed | src/services/DatabaseService.ts:132 | the number matcher reports matches where it was tried |
| OcrParse.BareNumberNoMatchInside | src/services/DatabaseService.ts:132 | no bare-number match starts inside another |
| OcrParse.HpFromNumbersLeftmost | src/services/DatabaseService.ts:130-144 | the fallback finds the leftmost plausible word-bounded number of the first 80 characters; none iff there is none |
| OcrParse.LeadDigits | src/services/DatabaseService.ts:147 | greedy `\d{1,3}` takes at most 3 digits |
| OcrParse.SetFractionAt | src/services/DatabaseService.ts:147-149 | the set-fraction match starts where it was tried, and the text it keeps, `${m[1]}/${m[2]}`, is 1-3 digits, `/`, 2-3 digits |
| OcrParse.ParsedSetNumber | src/services/DatabaseService.ts:146-150 | a set number has the form 1-3 digits, `/`, 2-3 digits |
| OcrParse.FractionShape | src/services/DatabaseService.ts:149 | joining 1-3 and 2-3 digits with `/` gives a set fraction |
| OcrParse.CleanWord | src/services/DatabaseService.ts:155 | a cleaned word is lower-case letters only |
| OcrParse.CleanWords | src/services/DatabaseService.ts:154-156 | every cleaned word kept is lower-case and longer than 2 |
| OcrParse.ExactName | src/services/DatabaseService.ts:159-164 | the first cleaned word that is a name key; none iff no cleaned word is |
| OcrParse.ExactNameAt | src/services/DatabaseService.ts:159-164 | the loop that breaks at word `w` returns it |
| OcrParse.FirstKeyFor | src/services/DatabaseService.ts:170-175 | the first key in index order containing the word or contained in it; none iff no key is |
| OcrParse.FirstKeyForAt | src/services/DatabaseService.ts:170-175 | the inner loop that breaks at key `e` returns it |
| OcrParse.SubstringScan | src/services/DatabaseService.ts:167-178 | a name found by the substring fallback is a key of the index |
| OcrParse.ParsedName | src/services/DatabaseService.ts:158-178 | a resolved name is always an existing key of the name index |
| OcrParse.SubstringScanFirst | src/services/DatabaseService.ts:167-178 | the fallback's name comes from the first word of length at least 4 with a matching key, and no earlier such word has one |
| OcrParse.FirstTruthyWordShift | src/services/DatabaseService.ts:167-178 | skipping a word that is too short or finds no key keeps the first word that finds one |
| OcrParse.SkipSpacesColons | src/services/DatabaseService.ts:182 | `[\s:]*` stays inside the text |
| OcrParse.MoreCapitalised | src/services/DatabaseService.ts:182 | `(?:\s+[A-Z][a-z]+)*` stays inside the text |
| OcrParse.AbilityAt | src/services/DatabaseService.ts:182 | the ability match starts where it was tried |
| OcrParse.TwoWordAt | src/services/DatabaseService.ts:188 | a two-word match is the text it covers, inside the text |
| OcrParse.AbilityPart | src/services/DatabaseService.ts:182-185 | at most one ability phrase is collected |
| OcrParse.TwoWordKept | src/services/DatabaseService.ts:189-196 | the kept two-word phrases are no more than the matches |
| OcrParse.TwoWordKeptStep | src/services/DatabaseService.ts:190-195 | one more match appends its lower-cased text exactly when it passes the skip list and length test |
| OcrParse.TwoWordKeptShape | src/services/DatabaseService.ts:190-195 | every kept phrase passes the skip list and length test and is some match lower-cased |
| OcrParse.TwoWordPartShape | src/services/DatabaseService.ts:188-197 | every two-word entry passes the filter and is a lower-cased two-word match in the text |
| OcrParse.StandalonePart | src/services/DatabaseService.ts:205-210 | every standalone entry is lower-case, longer than 5 and not a skip word |
| OcrParse.ParsedAttacks | src/services/DatabaseService.ts:212 | the attack list is duplicate-free |
| OcrParse.AttacksOrder | src/services/DatabaseService.ts:182-212 | ability and two-word phrases come first, de-duplicated, then standalone words longer than 5 that are not skip words; members are exactly the union |
| OcrParse.ParseSpec | src/services/DatabaseService.ts:99-217 | the parsed record keeps the word list |
| Ranking.Take | src/services/DatabaseService.ts:280 | `slice(0, n)` is the prefix of length `min(n, len)` |
| Ranking.BeforeFirst | src/services/DatabaseService.ts:243 | `split('/')[0]` is the prefix before the first separator |
| Ranking.AfterLast | src/services/DatabaseService.ts:245 | `split('-').pop()` is the suffix after the last separator |
| Ranking.StripLeadingZeros | src/services/DatabaseService.ts:243 | `replace(/^0+/, '')` removes exactly the leading zeros |
| Ranking.CardNumber | src/services/DatabaseService.ts:243 | the card number is the part of the set number before the first `/` with its leading zeros removed: no `/` in it, no leading zero |
| Ranking.CardNumberSlice | src/services/DatabaseService.ts:243 | the card number sits in the set number after the leading zeros and before the first `/` or the end |
| Ranking.MatchesNumberMeaning | src/services/DatabaseService.ts:244-247 | an id ending in `-` and the number passes the filter; an id with no `-` passes iff it is the number itself |
| Ranking.WithoutDash | src/services/DatabaseService.ts:245-246 | an id with no `-` is its own last `-` piece and contains no `-number` |
| Ranking.AfterLastWithoutSep | src/services/DatabaseService.ts:245 | `split(sep).pop()` of a text without the separator is the whole text |
| Ranking.NoDashInside | src/services/DatabaseService.ts:246 | a text with no `-` contains nothing that starts with `-` |
| Ranking.SpaceFrom | src/services/DatabaseService.ts:329 | the next white space from a position |
| Ranking.SplitSpaces | src/services/DatabaseService.ts:329 | `split(/\s+/)` yields at least one piece, none containing white space |
| Ranking.SplitSpacesKeepsText | src/services/DatabaseService.ts:329 | the pieces concatenated are the text with its white space removed |
| Ranking.SearchPoolCatalog | src/services/DatabaseService.ts:229-234 | the fuzzy pool is the catalog filtered by the parsed hit-points when hit-points were read and some card has them, and the whole catalog otherwise |
| Ranking.CardNumberOfFraction | src/services/DatabaseService.ts:243 | the card number of a set fraction is its numerator without leading zeros: at most 3 digits |
| Ranking.EarlyMatches | src/services/DatabaseService.ts:242-249 | the number-filtered cards all come from the resolved name's bucket |
| Ranking.WithScore | src/services/DatabaseService.ts:251-257 | one candidate per card, in order, with the given score |
| Ranking.NameOnly | src/services/DatabaseService.ts:290-306 | one candidate per bucket card |
| Ranking.NameStageScores | src/services/DatabaseService.ts:237-307 | per branch: no name gives nothing; name and hit-points give exactly the bucket cards with that value at 100, or the first five at 50; name alone gives every bucket card at 40 plus 25 per attack hit |
| Ranking.NameOnlyScoreBounds | src/services/DatabaseService.ts:291-303 | a name-only score is between 40 and 40 + 25 x attacks; a positive hit count means some attack longer than 5 is in the caption |
| Ranking.NameCandidates | src/services/DatabaseService.ts:237-308 | no name-stage candidates unless the name is a key of the name index, and never more than the cards of its bucket |
| Ranking.Fuzzy | src/services/DatabaseService.ts:311-377 | the fuzzy stage only appends to the candidate list |
| Ranking.NamePoints | src/services/DatabaseService.ts:321-336 | the whole name in the text gives 30; the name points are positive iff the name or one of its pieces longer than 3 is in the text |
| Ranking.HpPoints | src/services/DatabaseService.ts:339-342 | 20 points iff hit-points were read and the card has the same value, and 0 otherwise |
| Ranking.AttackPoints | src/services/DatabaseService.ts:345-360 | attack points are positive iff the card has a caption containing a parsed attack longer than 5; two hits earn at least 2 x 25 + 30 |
| Ranking.SetPoints | src/services/DatabaseService.ts:363-371 | set points are positive iff the card has a set name with a piece longer than 4 in the text |
| Ranking.FuzzyScore | src/services/DatabaseService.ts:318-371 | the fuzzy score is never negative; a card whose whole name is in the text scores above the cut-off 10; a hit-points match adds at least 20 |
| Ranking.FuzzyAdds | src/services/DatabaseService.ts:314-375 | every added candidate is a pool card scoring above 10, not already present and in pool order |
| Ranking.FuzzyComplete | src/services/DatabaseService.ts:314-375 | every pool card scoring above 10 ends up among the candidates |
| Ranking.Insert | src/services/DatabaseService.ts:380 | one insertion step grows the list by one |
| Ranking.InsertMultiset | src/services/DatabaseService.ts:380 | insertion adds exactly the element |
| Ranking.InsertSorted | src/services/DatabaseService.ts:380 | insertion keeps the list sorted by descending score |
| Ranking.SortDesc | src/services/DatabaseService.ts:380 | `sort((a, b) => b.score - a.score)` is sorted by descending score and a permutation |
| Ranking.InsertStable | src/services/DatabaseService.ts:380 | insertion keeps the order among equal scores |
| Ranking.SortStable | src/services/DatabaseService.ts:380 | the sort keeps the relative order of candidates with equal score |
| Ranking.SortEqualScores | src/services/DatabaseService.ts:260 | candidates that all share a score keep their order |
| Ranking.CardsOf | src/services/DatabaseService.ts:389 | the cards of the candidates, one per candidate, in order |
| Ranking.Best | src/services/DatabaseService.ts:380-382 | at most 3 candidates, sorted |
| Ranking.BestAreBest | src/services/DatabaseService.ts:380-382 | the top 3 come from the candidates; all are kept when there are at most 3; otherwise each one kept scores at least as high as each one left out |
| Ranking.BestMembers | src/services/DatabaseService.ts:380-382 | every one of the top 3 is one of the candidates |
| Ranking.Ranked | src/services/DatabaseService.ts:222-390 | the candidates returned: at most 3, sorted by descending score |
| Ranking.RankedCards | src/services/DatabaseService.ts:389 | at most 3 cards |
| Ranking.EarlyExit | src/services/DatabaseService.ts:249-262 | when the number filter is non-empty the answer is the first three of exactly those cards, and no later stage contributes |
| Ranking.CardsOfScored | src/services/DatabaseService.ts:249-262 | scoring cards alike and keeping the first `n` keeps the first `n` cards |
| Ranking.RankedOrigin | src/services/DatabaseService.ts:237-377 | every returned candidate comes from the name bucket, or from the fuzzy fallback (run with fewer than 3 named candidates, a search-pool card scoring above 10 and not named) |
| Ranking.GatheredOrigin | src/services/DatabaseService.ts:237-377 | without an early exit, every candidate comes from the name bucket or is a pool card above 10 whose id the name stage did not list |
| Ranking.FuzzyOrigin | src/services/DatabaseService.ts:314-375 | a fuzzy-stage candidate is one it started with, or a pool card above 10 whose id is not among those |
| Ranking.NameStageMembers | src/services/DatabaseService.ts:237-308 | every name-stage candidate is a card of the resolved name's bucket |
| Ranking.Gathered | src/services/DatabaseService.ts:237-377 | the candidates before sorting: the name-stage ones first, unchanged; nothing more when there are 3 or more; every later one a fuzzy addition from the pool |
| Database.ScanHpPatterns | src/services/DatabaseService.ts:112-126 | the pattern loop computes `HpFromPatterns` |
| Database.ScanBareNumbers | src/services/DatabaseService.ts:130-144 | the fallback loop computes `HpFromNumbers` |
| Database.ReadHp | src/services/DatabaseService.ts:111-144 | the hit-points step computes `ParsedHp`: the patterns first, the bare numbers only when they give nothing |
| Database.ScanExactName | src/services/DatabaseService.ts:159-164 | the exact-name loop computes `ExactName` |
| Database.ScanKeys | src/services/DatabaseService.ts:170-175 | the loop over the name keys computes `FirstKeyFor` |
| Database.ScanSubstringName | src/services/DatabaseService.ts:167-178 | the nested substring loops compute `SubstringScan` |
| Database.ReadName | src/services/DatabaseService.ts:154-178 | the name step computes `ParsedName` of the cleaned words |
| Database.KeepTwoWordPhrases | src/services/DatabaseService.ts:189-196 | the two-word loop appends `TwoWordKept` of the matches |
| Database.CollectPhrases | src/services/DatabaseService.ts:182-197 | the attack list before the standalone words is the ability phrase followed by the kept two-word phrases |
| Database.ReadAttacks | src/services/DatabaseService.ts:180-212 | the attack step computes `ParsedAttacks`: phrases then standalone words, deduplicated |
| Database.PushScored | src/services/DatabaseService.ts:251-257 | each push loop appends the cards with one score |
| Database.AddPerHit | src/services/DatabaseService.ts:330-335 | a per-word bonus loop adds the points once per qualifying word and counts them |
| Database.NameOnlyStage | src/services/DatabaseService.ts:290-306 | the name-only loop appends `NameOnly` of the bucket |
| Database.ScoreFuzzy | src/services/DatabaseService.ts:318-371 | the fuzzy score of one card is `FuzzyScore` |
| Database.FuzzyStage | src/services/DatabaseService.ts:311-377 | the fuzzy loop computes `Fuzzy` |
| Database.FindById | src/services/DatabaseService.ts:393 | the first card with the id; none iff no card has it |
| Database.FileCard | src/services/DatabaseService.ts:66-90 | one loop iteration files the card under its hit-points, name and long attack words |
| Database.IndexCatalog | src/services/DatabaseService.ts:65-91 | the loop over the catalog computes `IndexCards` for all three indexes |
| Database.FileNext | src/services/DatabaseService.ts:65-90 | filing one more card extends each of the three indexes to `IndexCards` of one more card |
| Database.NameStage | src/services/DatabaseService.ts:237-308 | the name stage stops early exactly when the number filter is non-empty, with those cards at 120; otherwise it yields `NameCandidates` |
| Database.FileAttackWords | src/services/DatabaseService.ts:82-88 | the attack-word loop files the card under each word longer than 3 |
| Database.FileAttackStep | src/services/DatabaseService.ts:82-88 | a word longer than 3 is pushed onto the index and any other word leaves it unchanged |
| Database.DatabaseService.constructor | src/services/DatabaseService.ts:20-26 | the service holds the loaded catalog and three empty indexes |
| Database.DatabaseService.BuildIndexes | src/services/DatabaseService.ts:64-94 | each index becomes `IndexCards` of the catalog; on a fresh service the name and hit-points buckets are the filtered catalog |
| Database.DatabaseService.ParseOCRText | src/services/DatabaseService.ts:99-217 | the record equals `ParseSpec`; hit-points in 30..340, the name a key, the set number a fraction, the attacks duplicate-free |
| Database.DatabaseService.FindCandidates | src/services/DatabaseService.ts:222-390 | the cards returned are `RankedCards` of the parsed text, and at most 3 of them |
| Database.DatabaseService.GetCardById | src/services/DatabaseService.ts:392-394 | the first catalog card with the id, or none iff there is no such card |
| HashCodec.BitsValue | src/services/RecognitionService.ts:108 | `parseInt(bits, 2)` is below `2^length` |
| HashCodec.Nibble | src/services/RecognitionService.ts:108 | a group of at most four bits is below 16 |
| HashCodec.Zeros | src/services/RecognitionService.ts:106 | the padding is all `'0'` |
| HashCodec.PadLen | src/services/RecognitionService.ts:106 | fewer than 4 zeros bring the length to a multiple of 4 |
| HashCodec.PadBits | src/services/RecognitionService.ts:106 | the padded string starts with the input, is followed only by `'0'`s and its length is a multiple of 4 |
| HashCodec.HexDigit | src/services/RecognitionService.ts:108 | `toString(16)` of a value below 16 is one lower-case hex digit |
| HashCodec.HexValue | src/services/RecognitionService.ts:138 | `parseInt(c, 16)` of a hex digit is below 16 |
| HashCodec.HexDigitRoundTrip | src/services/RecognitionService.ts:108 | reading back a written digit gives its value, and a lower-case digit is rewritten unchanged |
| HashCodec.NibbleBits | src/services/RecognitionService.ts:108 | four bits for a value below 16 |
| HashCodec.NibbleBitsValue | src/services/RecognitionService.ts:108 | the four bits of a value read back as that value |
| HashCodec.ValueNibbleBits | src/services/RecognitionService.ts:108 | four bits are rewritten unchanged from their value |
| HashCodec.HexOfBits | src/services/RecognitionService.ts:107-110 | a quarter as many lower-case digits as bits |
| HashCodec.BinaryToHexShape | src/services/RecognitionService.ts:104-111 | `binaryToHex` returns `ceil(n / 4)` digits |
| HashCodec.HexToBits | src/services/RecognitionService.ts:138 | four bits per hex digit |
| HashCodec.HexOfBitsSnoc | src/services/RecognitionService.ts:107-110 | four more bits add one more digit at the end |
| HashCodec.HexOfBitsRoundTrip | src/services/RecognitionService.ts:104-111 | the digits decode back to the bits |
| HashCodec.HexToBitsRoundTrip | src/services/RecognitionService.ts:104-111 | a lower-case hash is the encoding of its own bits |
| HashCodec.ChunkHex | scripts/generate-hashes.ts:61-67 | the script's conversion gives `ceil(n / 4)` lower-case digits |
| HashCodec.ChunkHexAgrees | scripts/generate-hashes.ts:38 | on a multiple of 4 bits the script's conversion equals `binaryToHex` |
| HashCodec.ChunkHexRagged | scripts/generate-hashes.ts:63-66 | on a ragged length they differ: the bit `1` gives `1` in the script but `8` in `binaryToHex` |
| HashCodec.XorCommutes | src/services/RecognitionService.ts:138 | `a ^ b == b ^ a` |
| HashCodec.XorZero | src/services/RecognitionService.ts:138 | `a ^ b == 0` iff `a == b` |
| HashCodec.XorBound | src/services/RecognitionService.ts:138 | the exclusive or of two `n`-bit values is an `n`-bit value |
| HashCodec.PopCountZero | src/services/RecognitionService.ts:139-142 | no set bit is counted iff the value is 0 |
| HashCodec.PopCountBound | src/services/RecognitionService.ts:139-142 | an `n`-bit value has at most `n` set bits |
| HashCodec.DigitDistance | src/services/RecognitionService.ts:138-142 | one digit contributes at most 4, and 0 iff both digits have the same value |
| HashCodec.DistanceUpToBounds | src/services/RecognitionService.ts:137-143 | the distance over `n` digits is at most `4n`, symmetric, and 0 iff those digits agree |
| HashCodec.Distance | src/services/RecognitionService.ts:134-145 | the distance is at most 4 bits per digit of the shorter hash |
| HashCodec.DistanceProperties | src/services/RecognitionService.ts:134-145 | `hammingDistance` is symmetric, at most 4 x the shorter length, 0 iff the common prefix agrees, and 0 between a hash and itself |
| HashCodec.DistanceOfPrefix | src/services/RecognitionService.ts:136 | digits beyond the shorter hash do not count |
| Recognition.HashBit | src/services/RecognitionService.ts:81-87 | each bit is `'0'` or `'1'` |
| Recognition.HashBitsOf | src/services/RecognitionService.ts:79-89 | the bit loop emits exactly 88 bits |
| Recognition.HashBitsLayout | src/services/RecognitionService.ts:79-89 | bit `y * 8 + x` compares pixel `(y, x)` with pixel `(y, x + 1)` |
| Recognition.HashBitsInBuffer | src/services/RecognitionService.ts:81-87 | on a 9x11 RGBA buffer every read is inside it, and the bit is `1` iff the luminance at `(y * 9 + x) * 4` exceeds the one at `(y * 9 + x + 1) * 4` |
| Recognition.ImageHash | src/services/RecognitionService.ts:76-91 | the hash is 22 lower-case digits that decode back to the 88 bits |
| Recognition.BinaryToHex | src/services/RecognitionService.ts:104-111 | the padding and conversion loops compute `HexOfBits(PadBits(s))` |
| Recognition.PadNibbles | src/services/RecognitionService.ts:106 | the padding loop computes `PadBits`: zeros appended up to a multiple of four |
| Recognition.NibblesToHex | src/services/RecognitionService.ts:107-109 | the conversion loop computes `HexOfBits`, one digit per group of four |
| Recognition.CalculateHash | src/services/RecognitionService.ts:64-96 | no hash when the image could not be decoded, and otherwise `ImageHash` of the decoded buffer |
| Recognition.HammingDistance | src/services/RecognitionService.ts:134-145 | the nested loops compute `Distance` |
| Recognition.ScanBest | src/services/RecognitionService.ts:114-123 | after the scan: the earliest entry of least distance if any is below 88, closer than every earlier entry and no farther than any entry |
| Recognition.FrontDistances | src/services/RecognitionService.ts:117-123 | dropping the last entry leaves every earlier entry at the same distance |
| Recognition.ScanBestStep | src/services/RecognitionService.ts:117-123 | one step of the scan: the new entry replaces the best only when strictly closer |
| Recognition.BestMatch | src/services/RecognitionService.ts:113-131 | a reported match is closer than 25 and is the id and distance of some stored entry |
| Recognition.BestMatchMeaning | src/services/RecognitionService.ts:113-131 | a match exists iff some stored hash is closer than 25; it is then no farther than any entry and the earliest at its distance; an empty list never matches |
| Recognition.RecognitionService.constructor | src/services/RecognitionService.ts:13 | a new service has no hashes |
| Recognition.RecognitionService.SetHashes | src/services/RecognitionService.ts:21 | the hash list is replaced by the loaded entries |
| Recognition.RecognitionService.FindBestMatch | src/services/RecognitionService.ts:113-131 | the scan returns `BestMatch` of the stored hashes |
| Recognition.RecognitionService.Identify | src/services/RecognitionService.ts:98-102 | no result when the hash cannot be computed, and otherwise exactly the best match of the image's hash |
| GenerateHashes.DBit | scripts/generate-hashes.ts:55-57 | each bit is `'0'` or `'1'` |
| GenerateHashes.DBits | scripts/generate-hashes.ts:49-59 | the bit loop emits exactly 1024 bits |
| GenerateHashes.DBitsInBuffer | scripts/generate-hashes.ts:53-59 | on a 33x32 buffer every read index is below 1056, and bit `y * 32 + x` is `1` iff `data[y * 33 + x] > data[y * 33 + x + 1]` |
| GenerateHashes.DHash | scripts/generate-hashes.ts:61-67 | 256 lower-case digits, equal to the padded conversion, that decode back to the bits |
| GenerateHashes.CalculateDHash | scripts/generate-hashes.ts:49-67 | the nested bit loops and the conversion loop compute `DHash` |
| GenerateHashes.DifferenceBits | scripts/generate-hashes.ts:53-59 | the nested loops compute `DBits`: 1024 comparison bits, 32 per row, row by row |
| GenerateHashes.ChunksToHex | scripts/generate-hashes.ts:62-66 | the conversion loop computes `ChunkHex`, one digit per group of four bits |
| GenerateHashes.Brighten | scripts/generate-hashes.ts:55-56 | every pixel shifted by the same amount |
| GenerateHashes.DHashShift | scripts/generate-hashes.ts:55-57 | brightening or darkening the whole image leaves the hash unchanged |

## Left out

- `initDb` (src/services/DatabaseService.ts:28-62): opening SQLite, copying the asset and checking files are I/O. The constructor of `DatabaseService` takes the loaded catalog instead.
- `getAllCards` (src/services/DatabaseService.ts:397-399) returns the field unchanged and is not modelled separately.
- Every `console.log` and the `reasons` strings of the candidates are diagnostics that do not affect the result. The model does not keep them.
- `toLowerCase` is modelled on ASCII letters only; Unicode case mapping is not modelled.
- OcrParse.FirstPart: Dafny strings are sequences of Unicode scalar values, while `fullText.substring(0, 80)` (src/services/DatabaseService.ts:131) counts UTF-16 code units. When an astral character (an emoji, say) occurs in the first 80 code units, the source's window is shorter than the model's, and the source can cut a surrogate pair in half. Most other `.length` tests see only ASCII, because cleaned words are letters `a-z` and, without the `u` flag, `\w` matches ASCII only. The exceptions are the name and set-name pieces of the fuzzy score (src/services/DatabaseService.ts:331, 366). `Ranking.NamePoints` and `Ranking.SetPoints` count their length in scalar values too, so they differ from the source only for a piece that holds an astral character.
- Catalog.HpKeys: the raw `hp` column is untyped. The model's `None` stands for any falsy value, such as a numeric `0`, `''` or `null`, which `if (card.hp)` files under no key. `Some(h)` stands for a truthy value, so a card filed under `0` is one whose raw value is the string `'0'`.
- `parseInt(card.hp)` on a malformed value, which would give `NaN`, is excluded by the type: `hp` is `Option<int>`.
- The library `filter`, `map`, `some`, `slice`, `new Set` and `Array.prototype.sort` calls are specification functions, not loops. The sort is the stable descending-score insertion sort that the engine's stable sort is equivalent to.
- The regular-expression engine is not modelled in general. Each pattern of the core is a matcher written for that pattern.
- `loadOrGenerateHashes` (src/services/RecognitionService.ts:15-62): downloads, the JSON cache file and the progress callback are I/O. Only its assignments to `hashes` are modelled, as `SetHashes`.
- In `calculateHash`, the `ImageManipulator` resize and the `jpeg-js` decode (src/services/RecognitionService.ts:67-74) are foreign calls. The decoded RGBA buffer is an input, and `None` stands for a failure inside them.
- The luminance `0.299 r + 0.587 g + 0.114 b` (src/services/RecognitionService.ts:82, 85) is floating point. It is an abstract function from three bytes to a `real`. A read past the end of the buffer makes it `NaN` and the comparison false.
- `hammingDistance` takes hex digits (`IsHex`): the `NaN` that `parseInt` gives for another character is not modelled.
- In `scripts/generate-hashes.ts`, the download, the `sharp` pipeline, the sqlite query, the CSV output and the process exit are I/O and foreign libraries. `CalculateDHash` takes the raw grey buffer.
- Asynchrony (`async`/`await`) does not change the modelled results and is not modelled.

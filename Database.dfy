/** The `DatabaseService` object: the catalog, the three indexes that
    `buildIndexes` fills, and the three operations on them. The loops of
    `parseOCRText` and `findCandidates` are written out below, each proved to
    compute the specification function of `OcrParse` or `Ranking` it stands
    for; the regular-expression matches and the array helpers (`filter`,
    `map`, `some`, `sort`, `new Set`) they call are those functions. */
module Database {
  import opened Text
  import opened Scan
  import opened Catalog
  import opened OcrParse
  import opened Ranking

  // ---------------------------------------------------------------------------
  // The loops of `parseOCRText`

  /** The loop over `hpPatterns`: the first pattern whose leftmost match is
      an in-range number sets the hit-points and stops the loop. */
  method ScanHpPatterns(fullText: string) returns (hp: Option<int>)
    ensures hp == HpFromPatterns(HpPatterns, fullText)
  {
    hp := None;
    var p := 0;
    while p < |HpPatterns|
      invariant 0 <= p <= |HpPatterns|
      invariant hp.None? && forall k :: 0 <= k < p ==> PatternHp(HpPatterns[k], fullText).None?
    {
      var pattern := HpPatterns[p];
      var m := FirstMatch(pattern, fullText);
      if m.Some? {
        var v := NumberValue(m.value.text);
        if v.Some? && HpMin <= v.value <= HpMax {
          hp := v;
          HpFromPatternsAt(HpPatterns, fullText, p);
          return;
        }
      }
      p := p + 1;
    }
  }

  /** The loop over the bare numbers of the first 80 characters: the first
      multiple of 10 in range sets the hit-points and stops the loop. */
  method ScanBareNumbers(fullText: string) returns (hp: Option<int>)
    ensures hp == HpFromNumbers(fullText)
  {
    hp := None;
    var firstPart := FirstPart(fullText);
    var numbers := AllMatches(BareNumberAt, firstPart);
    var n := 0;
    while n < |numbers|
      invariant 0 <= n <= |numbers|
      invariant forall j :: 0 <= j < n ==> !FoundPlausible(numbers[j])
    {
      var num := NumberValue(numbers[n].text);
      if num.Some? && HpMin <= num.value <= HpMax && num.value % 10 == 0 {
        hp := num;
        FirstWhereAt(numbers, FoundPlausible, n);
        return;
      }
      n := n + 1;
    }
  }

  /** The loop looking for a clean word that is a name key. */
  method ScanExactName(cleanWords: seq<string>, cardsByName: Multimap<string, Card>) returns (name: Option<string>)
    ensures name == ExactName(cleanWords, cardsByName)
  {
    name := None;
    var w := 0;
    while w < |cleanWords|
      invariant 0 <= w <= |cleanWords|
      invariant forall j :: 0 <= j < w ==> cleanWords[j] !in cardsByName.buckets
    {
      if cleanWords[w] in cardsByName.buckets {
        name := Some(cleanWords[w]);
        ExactNameAt(cleanWords, cardsByName, w);
        return;
      }
      w := w + 1;
    }
  }

  /** The inner loop over the name index, in insertion order. */
  method ScanKeys(word: string, keys: seq<string>) returns (found: Option<string>)
    ensures found == FirstKeyFor(word, keys)
  {
    found := None;
    var e := 0;
    while e < |keys|
      invariant 0 <= e <= |keys|
      invariant forall j :: 0 <= j < e ==> !NameMatchesWord(keys[j], word)
    {
      var key := keys[e];
      if Contains(key, word) || Contains(word, key) {
        found := Some(key);
        FirstKeyForAt(word, keys, e);
        return;
      }
      e := e + 1;
    }
  }

  /** The substring fallback: words shorter than 4 are skipped, a matching
      key is assigned to `name`, and the loop stops once `name` is truthy. */
  method ScanSubstringName(cleanWords: seq<string>, keys: seq<string>) returns (name: Option<string>)
    ensures name == SubstringScan(cleanWords, keys, None)
  {
    name := None;
    var w := 0;
    while w < |cleanWords|
      invariant 0 <= w <= |cleanWords|
      invariant !Truthy(name)
      invariant SubstringScan(cleanWords, keys, None) == SubstringScan(cleanWords[w..], keys, name)
    {
      var word := cleanWords[w];
      assert cleanWords[w..][0] == word && cleanWords[w..][1..] == cleanWords[w + 1..];
      if |word| < 4 {
        w := w + 1;
        continue;
      }
      var found := ScanKeys(word, keys);
      if found.Some? {
        name := found;
      }
      if Truthy(name) {
        return;
      }
      w := w + 1;
    }
  }

  /** The loop over `twoWordAttacks`: each match, lower-cased, is appended
      when it holds no layout phrase and is longer than 5. */
  method KeepTwoWordPhrases(attacks: seq<string>, twoWordAttacks: seq<Found>) returns (r: seq<string>)
    ensures r == attacks + TwoWordKept(twoWordAttacks)
  {
    r := attacks;
    var t := 0;
    while t < |twoWordAttacks|
      invariant 0 <= t <= |twoWordAttacks|
      invariant r == attacks + TwoWordKept(twoWordAttacks[..t])
    {
      TwoWordKeptStep(twoWordAttacks, t);
      var clean := LowerStr(twoWordAttacks[t].text);
      if KeptTwoWord(clean) {
        r := r + [clean];
      }
      t := t + 1;
    }
    assert twoWordAttacks[..t] == twoWordAttacks;
  }

  /** The attack list before deduplication: the ability phrase, then the
      two-word phrases the loop keeps. */
  method CollectPhrases(fullText: string) returns (attacks: seq<string>)
    ensures attacks == AbilityPart(fullText) + TwoWordPart(fullText)
  {
    attacks := [];
    var abilityMatch := FirstMatch(AbilityAt, fullText);
    if abilityMatch.Some? {
      attacks := attacks + [LowerStr(abilityMatch.value.text)];
    }
    assert attacks == AbilityPart(fullText);
    var twoWordAttacks := AllMatches(TwoWordAt, fullText);
    attacks := KeepTwoWordPhrases(attacks, twoWordAttacks);
  }

  /** The hit-points step: the patterns first, the bare numbers when they
      give nothing. */
  method ReadHp(fullText: string) returns (hp: Option<int>)
    ensures hp == ParsedHp(fullText)
  {
    hp := ScanHpPatterns(fullText);
    if !HpGiven(hp) {
      hp := ScanBareNumbers(fullText);
    }
  }

  /** The name step: an exact word first, the substring scan when it finds
      nothing. */
  method ReadName(words: seq<string>, cardsByName: Multimap<string, Card>) returns (name: Option<string>)
    requires ValidMap(cardsByName)
    ensures name == ParsedName(CleanWords(words), cardsByName)
  {
    var cleanWords := CleanWords(words);
    name := ScanExactName(cleanWords, cardsByName);
    if !Truthy(name) {
      name := ScanSubstringName(cleanWords, cardsByName.keys);
    }
  }

  /** The attack step: the phrases, then the standalone words, deduplicated. */
  method ReadAttacks(fullText: string, words: seq<string>) returns (attacks: seq<string>)
    ensures attacks == ParsedAttacks(fullText, words)
  {
    attacks := CollectPhrases(fullText);
    var potentialAttacks := StandalonePart(words);
    attacks := Dedup(attacks + potentialAttacks);
  }

  // ---------------------------------------------------------------------------
  // The loops of `findCandidates`

  /** `for (const card of cards) candidates.push({card, score})` */
  method PushScored(candidates: seq<Candidate>, cards: seq<Card>, score: int) returns (r: seq<Candidate>)
    ensures r == candidates + WithScore(cards, score)
  {
    r := candidates;
    var i := 0;
    while i < |cards|
      invariant 0 <= i <= |cards|
      invariant r == candidates + WithScore(cards[..i], score)
    {
      r := r + [Candidate(cards[i], score)];
      i := i + 1;
    }
    assert cards[..i] == cards;
  }

  /** One more hit adds its points once more; kept apart so that the loop of
      `AddPerHit` sees no multiplication of two variables. */
  lemma MulSucc(a: int, b: nat)
    ensures a * (b + 1) == a * b + a
  {
  }

  /** `for (const w of ws) if (w.length > n && hay.includes(w)) score += points` */
  method AddPerHit(score0: int, ws: seq<string>, hay: string, n: nat, points: int) returns (score: int, hits: nat)
    ensures hits == Count(ws, LongIn(hay, n)) && score == score0 + points * hits
  {
    score, hits := score0, 0;
    var j := 0;
    while j < |ws|
      invariant 0 <= j <= |ws|
      invariant hits == Count(ws[..j], LongIn(hay, n)) && score == score0 + points * hits
    {
      assert ws[..j + 1][..j] == ws[..j];
      var w := ws[j];
      assert Count(ws[..j + 1], LongIn(hay, n)) == hits + (if LongIn(hay, n)(w) then 1 else 0);
      if |w| > n && Contains(hay, w) {
        MulSucc(points, hits);
        hits := hits + 1;
        score := score + points;
      }
      j := j + 1;
    }
    assert ws[..j] == ws;
  }

  /** The name-only loop: each card of the bucket scores 40 plus 25 per
      parsed attack found in its caption. */
  method NameOnlyStage(candidates: seq<Candidate>, nameMatches: seq<Card>, attacks: seq<string>) returns (r: seq<Candidate>)
    ensures r == candidates + NameOnly(nameMatches, attacks)
  {
    r := candidates;
    var i := 0;
    while i < |nameMatches|
      invariant 0 <= i <= |nameMatches|
      invariant r == candidates + NameOnly(nameMatches[..i], attacks)
    {
      var card := nameMatches[i];
      var score := ScoreNameOnly;
      if Truthy(card.caption) && |attacks| > 0 {
        var captionLower := LowerStr(card.caption.value);
        var hits;
        score, hits := AddPerHit(score, attacks, captionLower, 5, ScorePerAttack);
      }
      r := r + [Candidate(card, score)];
      i := i + 1;
    }
    assert nameMatches[..i] == nameMatches;
  }

  /** The body of the fuzzy loop for one card: its additive score. */
  method ScoreFuzzy(card: Card, lowerText: string, parsed: ParsedOCR) returns (score: int)
    ensures score == FuzzyScore(card, lowerText, parsed)
  {
    score := 0;
    var cardNameLower := LowerStr(card.name);
    if Contains(lowerText, cardNameLower) {
      score := score + ScoreNameInText;
    } else {
      var nameParts := SplitSpaces(cardNameLower);
      var partHits;
      score, partHits := AddPerHit(score, nameParts, lowerText, 3, ScorePerNamePart);
    }
    if HpGiven(parsed.hp) && card.hp == parsed.hp {
      score := score + ScoreHpMatch;
    }
    if Truthy(card.caption) && |parsed.attacks| > 0 {
      var captionLower := LowerStr(card.caption.value);
      var attackMatches;
      score, attackMatches := AddPerHit(score, parsed.attacks, captionLower, 5, ScorePerAttack);
      if attackMatches >= 2 {
        score := score + ScoreMultiAttack;
      }
    }
    if Truthy(card.setName) {
      var setNameWords := SplitSpaces(LowerStr(card.setName.value));
      var setHits;
      score, setHits := AddPerHit(score, setNameWords, lowerText, 4, ScorePerSetWord);
    }
  }

  /** The fuzzy loop over the search pool. */
  method FuzzyStage(candidates: seq<Candidate>, searchPool: seq<Card>, lowerText: string, parsed: ParsedOCR)
    returns (r: seq<Candidate>)
    ensures r == Fuzzy(candidates, searchPool, lowerText, parsed)
  {
    r := candidates;
    var i := 0;
    while i < |searchPool|
      invariant 0 <= i <= |searchPool|
      invariant r == Fuzzy(candidates, searchPool[..i], lowerText, parsed)
    {
      assert searchPool[..i + 1][..i] == searchPool[..i];
      var card := searchPool[i];
      if HasId(r, card.id) {
        i := i + 1;
        continue;
      }
      var score := ScoreFuzzy(card, lowerText, parsed);
      if score > NoiseFloor {
        r := r + [Candidate(card, score)];
      }
      i := i + 1;
    }
    assert searchPool[..i] == searchPool;
  }

  /** `allCards.find(c => c.id === id)` */
  function FindById(cards: seq<Card>, id: string): (r: Option<Card>)
    ensures r.None? <==> forall i :: 0 <= i < |cards| ==> cards[i].id != id
    ensures r.Some? ==> exists i :: 0 <= i < |cards| && cards[i] == r.value && r.value.id == id
                                   && forall j :: 0 <= j < i ==> cards[j].id != id
  {
    if cards == [] then None
    else if cards[0].id == id then Some(cards[0])
    else
      var r := FindById(cards[1..], id);
      assert forall i :: 1 <= i < |cards| ==> cards[i] == cards[1..][i - 1];
      r
  }

  // ---------------------------------------------------------------------------
  // The service

  /** The body of the loop of `buildIndexes` for one card: its hit-points,
      its normalised name and the long attack words of its caption. */
  method FileCard(hpIdx: Multimap<int, Card>, nameIdx: Multimap<string, Card>,
                  attackIdx: Multimap<string, Card>, card: Card)
    returns (hpOut: Multimap<int, Card>, nameOut: Multimap<string, Card>, attackOut: Multimap<string, Card>)
    requires ValidMap(hpIdx) && ValidMap(nameIdx) && ValidMap(attackIdx)
    ensures hpOut == PushAll(hpIdx, HpKeys(card), card)
    ensures nameOut == PushAll(nameIdx, NameKeys(card), card)
    ensures attackOut == PushAll(attackIdx, AttackKeys(card), card)
  {
    hpOut, attackOut := hpIdx, attackIdx;
    if card.hp.Some? {
      var hp := card.hp.value;
      PushOne(hpIdx, hp, card);
      hpOut := Push(hpIdx, hp, card);
    }
    var nameLower := Trim(LowerStr(card.name));
    PushOne(nameIdx, nameLower, card);
    nameOut := Push(nameIdx, nameLower, card);
    if card.caption.Some? {
      var attackMatches := CaptionAttackWords(card.caption.value);
      attackOut := FileAttackWords(attackIdx, attackMatches, card);
    }
  }

  /** One iteration of the loop of `buildIndexes`: card `i` is filed in
      the three indexes built so far over the cards before it. */
  method FileNext(hpIdx: Multimap<int, Card>, nameIdx: Multimap<string, Card>,
                  attackIdx: Multimap<string, Card>, cards: seq<Card>, i: nat,
                  hpIn: Multimap<int, Card>, nameIn: Multimap<string, Card>, attackIn: Multimap<string, Card>)
    returns (hpOut: Multimap<int, Card>, nameOut: Multimap<string, Card>, attackOut: Multimap<string, Card>)
    requires ValidMap(hpIdx) && ValidMap(nameIdx) && ValidMap(attackIdx) && i < |cards|
    requires hpIn == IndexCards(hpIdx, cards[..i], HpKeys)
    requires nameIn == IndexCards(nameIdx, cards[..i], NameKeys)
    requires attackIn == IndexCards(attackIdx, cards[..i], AttackKeys)
    ensures hpOut == IndexCards(hpIdx, cards[..i + 1], HpKeys)
    ensures nameOut == IndexCards(nameIdx, cards[..i + 1], NameKeys)
    ensures attackOut == IndexCards(attackIdx, cards[..i + 1], AttackKeys)
  {
    IndexCardsStep(hpIdx, cards, i, HpKeys);
    IndexCardsStep(nameIdx, cards, i, NameKeys);
    IndexCardsStep(attackIdx, cards, i, AttackKeys);
    hpOut, nameOut, attackOut := FileCard(hpIn, nameIn, attackIn, cards[i]);
  }

  /** The loop of `buildIndexes` over the whole catalog. */
  method IndexCatalog(hpIdx: Multimap<int, Card>, nameIdx: Multimap<string, Card>,
                      attackIdx: Multimap<string, Card>, cards: seq<Card>)
    returns (hpOut: Multimap<int, Card>, nameOut: Multimap<string, Card>, attackOut: Multimap<string, Card>)
    requires ValidMap(hpIdx) && ValidMap(nameIdx) && ValidMap(attackIdx)
    ensures hpOut == IndexCards(hpIdx, cards, HpKeys)
    ensures nameOut == IndexCards(nameIdx, cards, NameKeys)
    ensures attackOut == IndexCards(attackIdx, cards, AttackKeys)
  {
    hpOut, nameOut, attackOut := hpIdx, nameIdx, attackIdx;
    var i := 0;
    while i < |cards|
      invariant 0 <= i <= |cards|
      invariant hpOut == IndexCards(hpIdx, cards[..i], HpKeys)
      invariant nameOut == IndexCards(nameIdx, cards[..i], NameKeys)
      invariant attackOut == IndexCards(attackIdx, cards[..i], AttackKeys)
    {
      hpOut, nameOut, attackOut := FileNext(hpIdx, nameIdx, attackIdx, cards, i, hpOut, nameOut, attackOut);
      i := i + 1;
    }
    assert cards[..i] == cards;
  }

  /** The name stage of `findCandidates`: with a resolved name, either the
      bucket cards carrying the parsed card number (after which the search
      stops early), or the hit-points / attack scoring of the bucket. */
  method NameStage(parsed: ParsedOCR, cardsByName: Multimap<string, Card>)
    returns (exitEarly: bool, candidates: seq<Candidate>)
    ensures exitEarly <==> |EarlyMatches(parsed, cardsByName)| > 0
    ensures exitEarly ==> candidates == WithScore(EarlyMatches(parsed, cardsByName), ScoreNameAndNumber)
    ensures !exitEarly ==> candidates == NameCandidates(parsed, cardsByName)
  {
    exitEarly := false;
    candidates := [];
    if Truthy(parsed.name) && parsed.name.value in cardsByName.buckets {
      var nameMatches := cardsByName.buckets[parsed.name.value];
      if Truthy(parsed.setNumber) {
        var cardNum := CardNumber(parsed.setNumber.value);
        var filtered := Filter(nameMatches, MatchesNumber(cardNum));
        if |filtered| > 0 {
          candidates := PushScored(candidates, filtered, ScoreNameAndNumber);
          if |candidates| > 0 {
            exitEarly := true;
            return;
          }
        }
      }
      if HpGiven(parsed.hp) {
        var intersection := Filter(nameMatches, HasHp(parsed.hp.value));
        if |intersection| > 0 {
          candidates := PushScored(candidates, intersection, ScoreNameAndHp);
        } else {
          candidates := PushScored(candidates, Take(nameMatches, MismatchCap), ScoreNameHpMismatch);
        }
      } else {
        candidates := NameOnlyStage(candidates, nameMatches, parsed.attacks);
      }
    }
  }

  /** One turn of the attack-word loop: a word longer than 3 is pushed, any
      other leaves the index as it was. */
  lemma FileAttackStep(attackIndex: Multimap<string, Card>, attackMatches: seq<string>, j: nat, card: Card)
    requires ValidMap(attackIndex) && j < |attackMatches|
    ensures var before := PushAll(attackIndex, Filter(attackMatches[..j], LongerThanThree), card);
      PushAll(attackIndex, Filter(attackMatches[..j + 1], LongerThanThree), card)
        == if |attackMatches[j]| > 3 then Push(before, attackMatches[j], card) else before
  {
    assert attackMatches[..j + 1][..j] == attackMatches[..j];
    var ks := Filter(attackMatches[..j], LongerThanThree);
    assert (ks + [attackMatches[j]])[..|ks|] == ks;
  }

  /** The loop over a caption's attack matches in `buildIndexes`: the card is
      filed under each attack word longer than 3, in order. */
  method FileAttackWords(attackIndex: Multimap<string, Card>, attackMatches: seq<string>, card: Card)
    returns (r: Multimap<string, Card>)
    requires ValidMap(attackIndex)
    ensures ValidMap(r) && r == PushAll(attackIndex, Filter(attackMatches, LongerThanThree), card)
  {
    r := attackIndex;
    var j := 0;
    while j < |attackMatches|
      invariant 0 <= j <= |attackMatches| && ValidMap(r)
      invariant r == PushAll(attackIndex, Filter(attackMatches[..j], LongerThanThree), card)
    {
      var attackName := attackMatches[j];
      FileAttackStep(attackIndex, attackMatches, j, card);
      if |attackName| > 3 {
        r := Push(r, attackName, card);
      }
      j := j + 1;
    }
    assert attackMatches[..j] == attackMatches;
  }

  class DatabaseService {
    var allCards: seq<Card>
    var cardsByHP: Multimap<int, Card>
    var cardsByName: Multimap<string, Card>
    var attackIndex: Multimap<string, Card>

    ghost predicate Valid()
      reads this
    {
      ValidMap(cardsByHP) && ValidMap(cardsByName) && ValidMap(attackIndex)
    }

    /** The service once the catalog query of `initDb` has returned
        `catalog`, before the indexes are built. */
    constructor (catalog: seq<Card>)
      ensures Valid() && allCards == catalog
      ensures cardsByHP == EmptyMap() && cardsByName == EmptyMap() && attackIndex == EmptyMap()
    {
      allCards := catalog;
      cardsByHP := EmptyMap();
      cardsByName := EmptyMap();
      attackIndex := EmptyMap();
    }

    /** Files every catalog card under its hit-points, its normalised name
        and each attack word of its caption longer than 3; on a fresh
        service the buckets are those `Catalog.NameBucket`,
        `Catalog.HpBucket` and `Catalog.AttackKeyOrigin` describe. */
    method BuildIndexes()
      requires Valid()
      modifies this
      ensures Valid() && allCards == old(allCards)
      ensures cardsByHP == IndexCards(old(cardsByHP), allCards, HpKeys)
      ensures cardsByName == IndexCards(old(cardsByName), allCards, NameKeys)
      ensures attackIndex == IndexCards(old(attackIndex), allCards, AttackKeys)
      ensures old(cardsByName) == EmptyMap() ==>
        forall k :: Get(cardsByName, k) == Filter(allCards, HasNameKey(k))
      ensures old(cardsByHP) == EmptyMap() ==>
        forall h :: Get(cardsByHP, h) == Filter(allCards, HasHp(h))
    {
      var cards := allCards;
      var byHp, byName, byAttack := IndexCatalog(cardsByHP, cardsByName, attackIndex, cards);
      if cardsByName == EmptyMap() {
        NameBuckets(cards);
      }
      if cardsByHP == EmptyMap() {
        HpBuckets(cards);
      }
      cardsByHP, cardsByName, attackIndex := byHp, byName, byAttack;
    }

    /** Reads the hints off the recognised text: hit-points, set number,
        name and attack phrases. */
    method ParseOCRText(fullText: string, words: seq<string>) returns (result: ParsedOCR)
      requires Valid()
      ensures result == ParseSpec(fullText, words, cardsByName)
      ensures result.hp.Some? ==> HpMin <= result.hp.value <= HpMax
      ensures result.name.Some? ==> result.name.value in cardsByName.buckets
      ensures result.setNumber.Some? ==> IsSetFraction(result.setNumber.value)
      ensures Distinct(result.attacks)
    {
      var hp := ReadHp(fullText);

      var setNumber: Option<string> := None;
      var setMatch := FirstMatch(SetFractionAt, fullText);
      if setMatch.Some? {
        setNumber := Some(setMatch.value.text);
      }

      var name := ReadName(words, cardsByName);
      var attacks := ReadAttacks(fullText, words);
      result := ParsedOCR(name, hp, setNumber, words, attacks);
    }

    /** Ranks the catalog against the recognised text and returns the best
        three cards. */
    method FindCandidates(words: seq<string>, fullText: string) returns (top: seq<Card>)
      requires Valid()
      ensures top == RankedCards(ParseSpec(fullText, words, cardsByName), allCards, cardsByHP, cardsByName, fullText)
      ensures |top| <= ResultSize
    {
      var parsed := ParseOCRText(fullText, words);
      var candidates: seq<Candidate>;

      var searchPool := allCards;
      if HpGiven(parsed.hp) && parsed.hp.value in cardsByHP.buckets {
        searchPool := cardsByHP.buckets[parsed.hp.value];
      }

      var exitEarly;
      exitEarly, candidates := NameStage(parsed, cardsByName);
      if exitEarly {
        var sorted := SortDesc(candidates);
        top := CardsOf(Take(sorted, ResultSize));
        return;
      }

      if |candidates| < ResultSize {
        var lowerText := LowerStr(fullText);
        candidates := FuzzyStage(candidates, searchPool, lowerText, parsed);
      }

      var sorted := SortDesc(candidates);
      top := CardsOf(Take(sorted, ResultSize));
    }

    /** `getCardById`: the first catalog card with the id, or `null`. */
    function GetCardById(id: string): (r: Option<Card>)
      reads this
      ensures r.None? <==> forall c :: c in allCards ==> c.id != id
      ensures r.Some? ==> exists i :: 0 <= i < |allCards| && allCards[i] == r.value && r.value.id == id
                                     && forall j :: 0 <= j < i ==> allCards[j].id != id
    {
      FindById(allCards, id)
    }
  }
}

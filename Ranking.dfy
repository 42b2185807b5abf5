/** The scoring of `findCandidates` as functions of the parsed hints and the
    indexes: the name stage (name with card number, name with hit-points,
    name alone), the fuzzy fallback over the search pool, the stable sort by
    descending score and the cut to the best three. The loops that compute
    these values are in `Database.DatabaseService.FindCandidates`. */
module Ranking {
  import opened Text
  import opened Catalog
  import opened OcrParse

  /** A scored card (`CardCandidate` without its log-only `reasons`). */
  datatype Candidate = Candidate(card: Card, score: int)

  const ScoreNameAndNumber := 120
  const ScoreNameAndHp := 100
  const ScoreNameHpMismatch := 50
  const ScoreNameOnly := 40
  const ScorePerAttack := 25
  const ScoreMultiAttack := 30
  const ScoreNameInText := 30
  const ScorePerNamePart := 10
  const ScoreHpMatch := 20
  const ScorePerSetWord := 10
  /** A fuzzy candidate is kept only above this score. */
  const NoiseFloor := 10
  /** How many name-bucket cards an hit-points mismatch keeps. */
  const MismatchCap := 5
  /** How many cards `findCandidates` returns at most. */
  const ResultSize := 3

  // ---------------------------------------------------------------------------
  // String helpers of the ranker

  /** `s.slice(0, n)` */
  function Take<T>(s: seq<T>, n: nat): (r: seq<T>)
    ensures |r| == (if |s| <= n then |s| else n) && r == s[..|r|]
  {
    if |s| <= n then s else s[..n]
  }

  /** `s.split(sep)[0]`: everything before the first `sep`. */
  function BeforeFirst(s: string, sep: char): (r: string)
    ensures |r| <= |s| && r == s[..|r|] && sep !in r
    ensures |r| < |s| ==> s[|r|] == sep
  {
    if s == [] || s[0] == sep then [] else [s[0]] + BeforeFirst(s[1..], sep)
  }

  /** `s.split(sep).pop()`: everything after the last `sep`, all of `s` when
      there is none. */
  function AfterLast(s: string, sep: char): (r: string)
    ensures |r| <= |s| && r == s[|s| - |r|..] && sep !in r
    ensures |r| < |s| ==> s[|s| - |r| - 1] == sep
  {
    if s == [] || s[|s| - 1] == sep then [] else AfterLast(s[..|s| - 1], sep) + [s[|s| - 1]]
  }

  /** `s.replace(/^0+/, '')` */
  function StripLeadingZeros(s: string): (r: string)
    ensures |r| <= |s| && r == s[|s| - |r|..] && (r == [] || r[0] != '0')
    ensures forall i :: 0 <= i < |s| - |r| ==> s[i] == '0'
  {
    if s != [] && s[0] == '0' then StripLeadingZeros(s[1..]) else s
  }

  /** Where the first `\s` at or after `i` is, or `|s|`. */
  function SpaceFrom(s: string, i: nat): (k: nat)
    requires i <= |s|
    decreases |s| - i
    ensures i <= k <= |s| && (k < |s| ==> IsSpace(s[k]))
    ensures forall x :: i <= x < k ==> !IsSpace(s[x])
  {
    if i < |s| && !IsSpace(s[i]) then SpaceFrom(s, i + 1) else i
  }

  predicate NoSpace(s: string) { forall i :: 0 <= i < |s| ==> !IsSpace(s[i]) }

  /** `s.split(/\s+/)`: the pieces between runs of white space, including an
      empty first or last piece when `s` starts or ends with white space. */
  function SplitSpaces(s: string): (r: seq<string>)
    decreases |s|
    ensures |r| > 0 && forall k :: 0 <= k < |r| ==> NoSpace(r[k])
  {
    var k := SpaceFrom(s, 0);
    if k == |s| then [s]
    else
      var e := SkipSpaces(s, k);
      [s[..k]] + SplitSpaces(s[e..])
  }

  function Concat(ps: seq<string>): string
  {
    if ps == [] then [] else ps[0] + Concat(ps[1..])
  }

  function NotSpace(c: char): bool { !IsSpace(c) }

  /** The pieces of a split hold every non-space character of the text, in
      order, and nothing else. */
  lemma {:induction false} SplitSpacesKeepsText(s: string)
    decreases |s|
    ensures Concat(SplitSpaces(s)) == Filter(s, NotSpace)
  {
    var k := SpaceFrom(s, 0);
    if k == |s| {
      FilterAllKept(s, NotSpace);
    } else {
      var e := SkipSpaces(s, k);
      SplitSpacesKeepsText(s[e..]);
      assert SplitSpaces(s) == [s[..k]] + SplitSpaces(s[e..]);
      ConcatCons(s[..k], SplitSpaces(s[e..]));
      FilterDropsGap(s, k, e);
    }
  }

  /** Filtering out the spaces of a word, a run of spaces and a rest leaves
      the word followed by the filtered rest. */
  lemma FilterDropsGap(s: string, k: nat, e: nat)
    requires k <= e <= |s|
    requires forall i :: 0 <= i < k ==> !IsSpace(s[i])
    requires forall i :: k <= i < e ==> IsSpace(s[i])
    ensures Filter(s, NotSpace) == s[..k] + Filter(s[e..], NotSpace)
  {
    var head, gap, tail := s[..k], s[k..e], s[e..];
    SliceThree(s, k, e);
    assert Filter(head, NotSpace) == head by {
      assert forall i :: 0 <= i < |head| ==> head[i] == s[i];
      FilterAllKept(head, NotSpace);
    }
    assert Filter(gap, NotSpace) == [] by {
      assert forall i :: 0 <= i < |gap| ==> gap[i] == s[k + i];
      FilterNoneKept(gap, NotSpace);
    }
    assert Filter(head + gap, NotSpace) == head by {
      FilterAppend(head, gap, NotSpace);
    }
    FilterAppend(head + gap, tail, NotSpace);
  }

  lemma SliceThree<T>(s: seq<T>, k: nat, e: nat)
    requires k <= e <= |s|
    ensures s == (s[..k] + s[k..e]) + s[e..]
  {
    assert s[..e] == s[..k] + s[k..e];
    assert s == s[..e] + s[e..];
  }

  lemma ConcatCons(p: string, ps: seq<string>)
    ensures Concat([p] + ps) == p + Concat(ps)
  {
    assert ([p] + ps)[1..] == ps;
  }

  lemma {:induction false} FilterAllKept<T(!new)>(s: seq<T>, p: T -> bool)
    requires forall i :: 0 <= i < |s| ==> p(s[i])
    ensures Filter(s, p) == s
  {
    if s != [] {
      FilterAllKept(s[..|s| - 1], p);
    }
  }

  lemma {:induction false} FilterNoneKept<T(!new)>(s: seq<T>, p: T -> bool)
    requires forall i :: 0 <= i < |s| ==> !p(s[i])
    ensures Filter(s, p) == []
  {
    if s != [] {
      FilterNoneKept(s[..|s| - 1], p);
    }
  }

  /** `w.length > n && hay.includes(w)` */
  function LongIn(hay: string, n: nat): string -> bool
  {
    (w: string) => |w| > n && Contains(hay, w)
  }

  /** JavaScript truthiness of a number field: `null` and `0` are false. */
  predicate HpGiven(hp: Option<int>) { hp.Some? && hp.value != 0 }

  // ---------------------------------------------------------------------------
  // Name stage

  /** `setNumber.split('/')[0].replace(/^0+/, '')` */
  function CardNumber(setNumber: string): (r: string)
    ensures '/' !in r && (r == [] || r[0] != '0')
    ensures exists j: nat :: NumberAfterZeros(setNumber, j, r)
  {
    var b := BeforeFirst(setNumber, '/');
    CardNumberSlice(setNumber);
    StripLeadingZeros(b)
  }

  /** `r` sits at `j` in `s`, after nothing but zeros, and ends at a `/` or
      at the end of `s`. */
  predicate NumberAfterZeros(s: string, j: nat, r: string)
  {
    && j + |r| <= |s|
    && (forall i :: 0 <= i < j ==> s[i] == '0')
    && s[j..j + |r|] == r
    && (j + |r| == |s| || s[j + |r|] == '/')
  }

  lemma CardNumberSlice(setNumber: string)
    ensures var b := BeforeFirst(setNumber, '/');
      var r := StripLeadingZeros(b);
      NumberAfterZeros(setNumber, |b| - |r|, r)
  {
    ZerosBeforeCardNumber(setNumber);
    CardNumberInside(setNumber);
  }

  lemma ZerosBeforeCardNumber(setNumber: string)
    ensures var b := BeforeFirst(setNumber, '/');
      forall i :: 0 <= i < |b| - |StripLeadingZeros(b)| ==> setNumber[i] == '0'
  {
    var b := BeforeFirst(setNumber, '/');
    assert forall i :: 0 <= i < |b| ==> b[i] == setNumber[i];
  }

  lemma CardNumberInside(setNumber: string)
    ensures var b := BeforeFirst(setNumber, '/');
      var r := StripLeadingZeros(b);
      setNumber[|b| - |r|..|b|] == r
  {
    var b := BeforeFirst(setNumber, '/');
    var r := StripLeadingZeros(b);
    assert setNumber[|b| - |r|..|b|] == b[|b| - |r|..];
  }

  /** For a set fraction the card number is its numerator without leading zeros. */
  lemma CardNumberOfFraction(t: string)
    requires IsSetFraction(t)
    ensures exists a :: 1 <= a <= 3 && t[a] == '/' && CardNumber(t) == StripLeadingZeros(t[..a])
    ensures AllDigits(CardNumber(t)) && |CardNumber(t)| <= 3
  {
    var a: nat :| 1 <= a <= 3 && a + 3 <= |t| <= a + 4 && AllDigits(t[..a]) && t[a] == '/' && AllDigits(t[a + 1..]);
    var b := BeforeFirst(t, '/');
    assert forall i :: 0 <= i < a ==> IsDigit(t[..a][i]) && t[..a][i] == t[i];
    assert forall i :: 0 <= i < |b| ==> b[i] == t[i] && b[i] != '/';
    assert |b| == a;
    assert b == t[..a];
  }

  /** The card-number test of the early exit: the id's last `-` segment is
      the number, or the id contains `-` followed by it. */
  function MatchesNumber(num: string): Card -> bool
  {
    (c: Card) => AfterLast(c.id, '-') == num || Contains(c.id, "-" + num)
  }

  /** An id ending in `-` and the number matches it, and an id without `-`
      matches exactly when it is the number itself. */
  lemma MatchesNumberMeaning(num: string, c: Card)
    ensures |c.id| > |num| && c.id[|c.id| - |num| - 1..] == "-" + num ==> MatchesNumber(num)(c)
    ensures '-' !in c.id ==> (MatchesNumber(num)(c) <==> c.id == num)
  {
    var id := c.id;
    if |id| > |num| && id[|id| - |num| - 1..] == "-" + num {
      var i: nat := |id| - |num| - 1;
      assert OccursAt(id, "-" + num, i);
    }
    if '-' !in id {
      WithoutDash(id, num);
    }
  }

  lemma WithoutDash(id: string, num: string)
    requires '-' !in id
    ensures AfterLast(id, '-') == id && !Contains(id, "-" + num)
  {
    AfterLastWithoutSep(id, '-');
    NoDashInside(id, "-" + num);
  }

  lemma {:induction false} AfterLastWithoutSep(s: string, sep: char)
    requires sep !in s
    ensures AfterLast(s, sep) == s
  {
    if s != [] {
      assert s[|s| - 1] in s;
      var p := s[..|s| - 1];
      assert forall x :: x in p ==> x in s;
      AfterLastWithoutSep(p, sep);
      assert p + [s[|s| - 1]] == s;
    }
  }

  lemma NoDashInside(id: string, needle: string)
    requires '-' !in id && needle != [] && needle[0] == '-'
    ensures !Contains(id, needle)
  {
    forall i: nat | i + |needle| <= |id|
      ensures !OccursAt(id, needle, i)
    {
      assert id[i] in id;
      assert id[i..i + |needle|][0] == id[i];
    }
  }

  /** `parsed.name && cardsByName.has(parsed.name)` */
  predicate NameResolved(parsed: ParsedOCR, nameIdx: Multimap<string, Card>)
  {
    Truthy(parsed.name) && parsed.name.value in nameIdx.buckets
  }

  /** `filtered`: the name bucket narrowed by the card number, when the name
      is resolved and a set number was read; otherwise nothing. */
  function EarlyMatches(parsed: ParsedOCR, nameIdx: Multimap<string, Card>): (r: seq<Card>)
    ensures forall c :: c in r ==> NameResolved(parsed, nameIdx) && c in nameIdx.buckets[parsed.name.value]
  {
    if NameResolved(parsed, nameIdx) && Truthy(parsed.setNumber) then
      FilterMembers(nameIdx.buckets[parsed.name.value], MatchesNumber(CardNumber(parsed.setNumber.value)));
      Filter(nameIdx.buckets[parsed.name.value], MatchesNumber(CardNumber(parsed.setNumber.value)))
    else []
  }

  /** Each card with the same score. */
  function WithScore(cards: seq<Card>, score: int): (r: seq<Candidate>)
    ensures |r| == |cards| && forall i :: 0 <= i < |r| ==> r[i] == Candidate(cards[i], score)
  {
    seq(|cards|, i requires 0 <= i < |cards| => Candidate(cards[i], score))
  }

  /** How many of the parsed attacks longer than 5 occur in the card's
      lower-cased caption (none when the caption is empty or absent, or no
      attacks were read). */
  function AttackHits(c: Card, attacks: seq<string>): nat
  {
    if Truthy(c.caption) && |attacks| > 0 then Count(attacks, LongIn(LowerStr(c.caption.value), 5)) else 0
  }

  function NameOnly(cards: seq<Card>, attacks: seq<string>): (r: seq<Candidate>)
    ensures |r| == |cards|
  {
    seq(|cards|, i requires 0 <= i < |cards| => Candidate(cards[i], ScoreNameOnly + ScorePerAttack * AttackHits(cards[i], attacks)))
  }

  /** The candidates of the name stage once the early exit did not happen. */
  function NameCandidates(parsed: ParsedOCR, nameIdx: Multimap<string, Card>): (r: seq<Candidate>)
    ensures !NameResolved(parsed, nameIdx) ==> r == []
    ensures NameResolved(parsed, nameIdx) ==> |r| <= |nameIdx.buckets[parsed.name.value]|
  {
    if !NameResolved(parsed, nameIdx) then []
    else
      var bucket := nameIdx.buckets[parsed.name.value];
      if HpGiven(parsed.hp) then
        var both := Filter(bucket, HasHp(parsed.hp.value));
        if |both| > 0 then WithScore(both, ScoreNameAndHp) else WithScore(Take(bucket, MismatchCap), ScoreNameHpMismatch)
      else NameOnly(bucket, parsed.attacks)
  }

  /** What the name stage yields, branch by branch: nothing without a
      resolved name; with hit-points, the bucket's cards with exactly those
      hit-points at 100, or, if there are none, the first five of the bucket
      at 50; without hit-points every bucket card at 40 plus 25 per attack
      found in its caption. */
  lemma NameStageScores(parsed: ParsedOCR, nameIdx: Multimap<string, Card>)
    ensures !NameResolved(parsed, nameIdx) ==> NameCandidates(parsed, nameIdx) == []
    ensures NameResolved(parsed, nameIdx) && HpGiven(parsed.hp) ==>
      var bucket := nameIdx.buckets[parsed.name.value];
      var r := NameCandidates(parsed, nameIdx);
      if exists c :: c in bucket && c.hp == parsed.hp then
        && |r| > 0
        && (forall c :: c in bucket && c.hp == parsed.hp <==> Candidate(c, ScoreNameAndHp) in r)
        && forall k :: 0 <= k < |r| ==> r[k].score == ScoreNameAndHp
      else
        && |r| == (if |bucket| <= MismatchCap then |bucket| else MismatchCap)
        && forall k :: 0 <= k < |r| ==> r[k] == Candidate(bucket[k], ScoreNameHpMismatch)
    ensures NameResolved(parsed, nameIdx) && !HpGiven(parsed.hp) ==>
      var bucket := nameIdx.buckets[parsed.name.value];
      var r := NameCandidates(parsed, nameIdx);
      && |r| == |bucket|
      && forall k :: 0 <= k < |r| ==>
           r[k] == Candidate(bucket[k], ScoreNameOnly + ScorePerAttack * AttackHits(bucket[k], parsed.attacks))
  {
    if NameResolved(parsed, nameIdx) && HpGiven(parsed.hp) {
      var bucket := nameIdx.buckets[parsed.name.value];
      var both := Filter(bucket, HasHp(parsed.hp.value));
      var r := NameCandidates(parsed, nameIdx);
      FilterMembers(bucket, HasHp(parsed.hp.value));
      if exists c :: c in bucket && c.hp == parsed.hp {
        var c :| c in bucket && c.hp == parsed.hp;
        assert c in both;
        forall c | c in bucket && c.hp == parsed.hp ensures Candidate(c, ScoreNameAndHp) in r {
          assert c in both;
          var k :| 0 <= k < |both| && both[k] == c;
          assert r[k] == Candidate(c, ScoreNameAndHp);
        }
        forall c | Candidate(c, ScoreNameAndHp) in r ensures c in bucket && c.hp == parsed.hp {
          var k :| 0 <= k < |r| && r[k] == Candidate(c, ScoreNameAndHp);
          assert both[k] in both;
        }
      } else {
        forall i | 0 <= i < |bucket| ensures !HasHp(parsed.hp.value)(bucket[i]) {
          assert bucket[i] in bucket;
        }
        FilterNoneKept(bucket, HasHp(parsed.hp.value));
      }
    }
  }

  /** The name-only score formula, bounded by the number of attacks. */
  lemma NameOnlyScoreBounds(c: Card, attacks: seq<string>)
    ensures ScoreNameOnly <= ScoreNameOnly + ScorePerAttack * AttackHits(c, attacks) <= ScoreNameOnly + ScorePerAttack * |attacks|
    ensures AttackHits(c, attacks) > 0 ==> exists a :: a in attacks && |a| > 5 && Contains(LowerStr(c.caption.value), a)
  {
    if AttackHits(c, attacks) > 0 {
      CountPositive(attacks, LongIn(LowerStr(c.caption.value), 5));
    }
  }

  // ---------------------------------------------------------------------------
  // Fuzzy stage

  /** `searchPool`: the hit-points bucket when hit-points were read and have
      a bucket, otherwise the whole catalog. */
  function SearchPool(parsed: ParsedOCR, allCards: seq<Card>, hpIdx: Multimap<int, Card>): seq<Card>
  {
    if HpGiven(parsed.hp) && parsed.hp.value in hpIdx.buckets then hpIdx.buckets[parsed.hp.value] else allCards
  }

  /** Over the hit-points index of the catalog, the search pool is the
      catalog cards with the parsed hit-points when some card has them, and
      the whole catalog otherwise. */
  lemma SearchPoolCatalog(parsed: ParsedOCR, allCards: seq<Card>)
    ensures SearchPool(parsed, allCards, HpIndex(allCards)) ==
      if HpGiven(parsed.hp) && exists c :: c in allCards && c.hp == parsed.hp
      then Filter(allCards, HasHp(parsed.hp.value)) else allCards
  {
    if HpGiven(parsed.hp) {
      var h := parsed.hp.value;
      HpBucket(allCards, h);
      if h in HpIndex(allCards).buckets {
        HpKeyHasCard(allCards, h);
      }
      if exists c :: c in allCards && c.hp == parsed.hp {
        var c :| c in allCards && c.hp == parsed.hp;
        assert c in Get(HpIndex(allCards), h);
      }
    }
  }

  /** `candidates.some(c => c.card.id === id)` */
  predicate HasId(cands: seq<Candidate>, id: string)
  {
    exists k :: 0 <= k < |cands| && cands[k].card.id == id
  }

  /** Points for the name: 30 if the whole lower-cased name occurs in the
      text, otherwise 10 for each of its pieces longer than 3 that does. */
  function NamePoints(c: Card, lowerText: string): (r: int)
    ensures Contains(lowerText, LowerStr(c.name)) ==> r == ScoreNameInText
    ensures r >= 0
    ensures r > 0 <==> || Contains(lowerText, LowerStr(c.name))
                       || exists p :: p in SplitSpaces(LowerStr(c.name)) && |p| > 3 && Contains(lowerText, p)
  {
    var name := LowerStr(c.name);
    CountPositive(SplitSpaces(name), LongIn(lowerText, 3));
    if Contains(lowerText, name) then ScoreNameInText
    else ScorePerNamePart * Count(SplitSpaces(name), LongIn(lowerText, 3))
  }

  /** 20 if the card's hit-points equal the parsed ones. */
  function HpPoints(c: Card, hp: Option<int>): (r: int)
    ensures r == 0 || r == ScoreHpMatch
    ensures r == ScoreHpMatch <==> HpGiven(hp) && c.hp == hp
  {
    if HpGiven(hp) && c.hp == hp then ScoreHpMatch else 0
  }

  /** 25 per attack hit, and 30 more for two hits or more. */
  function AttackPoints(c: Card, attacks: seq<string>): (r: int)
    ensures r >= 0
    ensures r > 0 <==> Truthy(c.caption) && exists a :: a in attacks && |a| > 5 && Contains(LowerStr(c.caption.value), a)
    ensures AttackHits(c, attacks) >= 2 ==> r >= 2 * ScorePerAttack + ScoreMultiAttack
  {
    var hits := AttackHits(c, attacks);
    var points := ScorePerAttack * hits + (if hits >= 2 then ScoreMultiAttack else 0);
    if Truthy(c.caption) then CountPositive(attacks, LongIn(LowerStr(c.caption.value), 5)); points
    else points
  }

  /** 10 for each piece of the lower-cased set name longer than 4 that occurs in the text. */
  function SetPoints(c: Card, lowerText: string): (r: int)
    ensures r >= 0
    ensures r > 0 <==> Truthy(c.setName) && exists p :: p in SplitSpaces(LowerStr(c.setName.value)) && |p| > 4 && Contains(lowerText, p)
  {
    if Truthy(c.setName) then
      CountPositive(SplitSpaces(LowerStr(c.setName.value)), LongIn(lowerText, 4));
      ScorePerSetWord * Count(SplitSpaces(LowerStr(c.setName.value)), LongIn(lowerText, 4)) else 0
  }

  /** The fuzzy score: the sum of the four parts, never negative. A card
      whose whole name occurs in the text is always above the noise floor. */
  function FuzzyScore(c: Card, lowerText: string, parsed: ParsedOCR): (r: int)
    ensures r >= 0
    ensures Contains(lowerText, LowerStr(c.name)) ==> r > NoiseFloor
    ensures HpGiven(parsed.hp) && c.hp == parsed.hp ==> r >= ScoreHpMatch
  {
    NamePoints(c, lowerText) + HpPoints(c, parsed.hp) + AttackPoints(c, parsed.attacks) + SetPoints(c, lowerText)
  }

  /** The candidate list after the fuzzy loop has visited `pool`, starting
      from `cands`: a card whose id is already listed is skipped, and a card
      scoring above the noise floor is appended. */
  function Fuzzy(cands: seq<Candidate>, pool: seq<Card>, lowerText: string, parsed: ParsedOCR): (r: seq<Candidate>)
    ensures |cands| <= |r| && r[..|cands|] == cands
  {
    if pool == [] then cands
    else
      var acc := Fuzzy(cands, pool[..|pool| - 1], lowerText, parsed);
      var c := pool[|pool| - 1];
      var score := FuzzyScore(c, lowerText, parsed);
      if HasId(acc, c.id) || score <= NoiseFloor then acc
      else
        assert (acc + [Candidate(c, score)])[..|acc|] == acc;
        acc + [Candidate(c, score)]
  }

  /** What the fuzzy stage appends: search-pool cards only, each scoring
      above the noise floor with its fuzzy score, and never a card whose id
      is already listed (also among the ones the stage itself appended). */
  lemma {:induction false} FuzzyAdds(cands: seq<Candidate>, pool: seq<Card>, lowerText: string, parsed: ParsedOCR)
    ensures forall k: nat :: |cands| <= k < |Fuzzy(cands, pool, lowerText, parsed)| ==>
      FuzzyAdded(Fuzzy(cands, pool, lowerText, parsed), k, pool, lowerText, parsed)
  {
    if pool != [] {
      var prefix := pool[..|pool| - 1];
      var last := pool[|pool| - 1];
      FuzzyAdds(cands, prefix, lowerText, parsed);
      var acc := Fuzzy(cands, prefix, lowerText, parsed);
      var r := Fuzzy(cands, pool, lowerText, parsed);
      forall k: nat | |cands| <= k < |r| ensures FuzzyAdded(r, k, pool, lowerText, parsed) {
        if k < |acc| {
          assert FuzzyAdded(acc, k, prefix, lowerText, parsed);
          assert r[k] == acc[k] && r[..k] == acc[..k];
          assert acc[k].card in pool;
        } else {
          assert r == acc + [Candidate(last, FuzzyScore(last, lowerText, parsed))];
          assert r[..k] == acc;
        }
      }
    }
  }

  /** Element `k` of `r` is a search-pool card, scored with its fuzzy score
      above the noise floor, whose id no earlier element has. */
  predicate FuzzyAdded(r: seq<Candidate>, k: nat, pool: seq<Card>, lowerText: string, parsed: ParsedOCR)
    requires k < |r|
  {
    && r[k].card in pool
    && r[k].score == FuzzyScore(r[k].card, lowerText, parsed) > NoiseFloor
    && !HasId(r[..k], r[k].card.id)
  }

  /** The fuzzy stage leaves no card out: a search-pool card scoring above
      the noise floor ends up listed (possibly through another card with the
      same id). */
  lemma {:induction false} FuzzyComplete(cands: seq<Candidate>, pool: seq<Card>, lowerText: string, parsed: ParsedOCR)
    ensures forall c :: c in pool && FuzzyScore(c, lowerText, parsed) > NoiseFloor ==>
      HasId(Fuzzy(cands, pool, lowerText, parsed), c.id)
  {
    if pool != [] {
      var prefix := pool[..|pool| - 1];
      var last := pool[|pool| - 1];
      FuzzyComplete(cands, prefix, lowerText, parsed);
      var acc := Fuzzy(cands, prefix, lowerText, parsed);
      var r := Fuzzy(cands, pool, lowerText, parsed);
      assert forall x :: x in pool ==> x in prefix || x == last;
      forall id | HasId(acc, id) ensures HasId(r, id) {
        var k :| 0 <= k < |acc| && acc[k].card.id == id;
        assert r[..|acc|] == acc && r[k] == acc[k];
      }
      if FuzzyScore(last, lowerText, parsed) > NoiseFloor && !HasId(acc, last.id) {
        assert r[|acc|].card.id == last.id;
      }
    }
  }

  // ---------------------------------------------------------------------------
  // Sorting and the cut

  predicate SortedDesc(s: seq<Candidate>)
  {
    forall i, j :: 0 <= i < j < |s| ==> s[i].score >= s[j].score
  }

  /** Inserts `x` after every element scoring at least as much. */
  function Insert(t: seq<Candidate>, x: Candidate): (r: seq<Candidate>)
    ensures |r| == |t| + 1
  {
    if t == [] then [x]
    else if t[|t| - 1].score >= x.score then t + [x]
    else Insert(t[..|t| - 1], x) + [t[|t| - 1]]
  }

  lemma {:induction false} InsertMultiset(t: seq<Candidate>, x: Candidate)
    ensures multiset(Insert(t, x)) == multiset(t) + multiset{x}
  {
    if t != [] && t[|t| - 1].score < x.score {
      InsertMultiset(t[..|t| - 1], x);
      assert t == t[..|t| - 1] + [t[|t| - 1]];
    }
  }

  lemma SortedSnoc(u: seq<Candidate>, y: Candidate)
    requires SortedDesc(u) && forall k :: 0 <= k < |u| ==> u[k].score >= y.score
    ensures SortedDesc(u + [y])
  {
  }

  lemma {:induction false} InsertSorted(t: seq<Candidate>, x: Candidate)
    requires SortedDesc(t)
    ensures SortedDesc(Insert(t, x))
  {
    if t == [] {
    } else if t[|t| - 1].score >= x.score {
      SortedSnoc(t, x);
    } else {
      var rest := t[..|t| - 1];
      var last := t[|t| - 1];
      var u := Insert(rest, x);
      InsertSorted(rest, x);
      InsertMultiset(rest, x);
      forall k | 0 <= k < |u| ensures u[k].score >= last.score {
        assert u[k] in multiset(u);
        if u[k] != x {
          assert u[k] in multiset(rest);
          var i :| 0 <= i < |rest| && rest[i] == u[k];
          assert t[i] == rest[i];
        }
      }
      SortedSnoc(u, last);
    }
  }

  /** `candidates.sort((a, b) => b.score - a.score)`: a stable sort by
      descending score (insertion sort, one element at a time). */
  function SortDesc(s: seq<Candidate>): (r: seq<Candidate>)
    ensures SortedDesc(r) && multiset(r) == multiset(s) && |r| == |s|
  {
    if s == [] then []
    else
      var rest := SortDesc(s[..|s| - 1]);
      InsertSorted(rest, s[|s| - 1]);
      InsertMultiset(rest, s[|s| - 1]);
      assert s == s[..|s| - 1] + [s[|s| - 1]];
      Insert(rest, s[|s| - 1])
  }

  function ScoreIs(v: int): Candidate -> bool
  {
    (c: Candidate) => c.score == v
  }

  lemma {:induction false} InsertStable(t: seq<Candidate>, x: Candidate, v: int)
    requires SortedDesc(t)
    ensures Filter(Insert(t, x), ScoreIs(v)) == Filter(t, ScoreIs(v)) + Filter([x], ScoreIs(v))
  {
    if t == [] {
      assert [x][..0] == [];
    } else if t[|t| - 1].score >= x.score {
      FilterAppend(t, [x], ScoreIs(v));
    } else {
      var last := t[|t| - 1];
      var rest := t[..|t| - 1];
      InsertStable(rest, x, v);
      FilterAppend(Insert(rest, x), [last], ScoreIs(v));
      FilterAppend(rest, [last], ScoreIs(v));
      assert t == rest + [last];
      assert [x][..0] == [] && [last][..0] == [];
    }
  }

  /** The sort is stable: among the candidates of any one score the order
      is the original one. */
  lemma {:induction false} SortStable(s: seq<Candidate>, v: int)
    ensures Filter(SortDesc(s), ScoreIs(v)) == Filter(s, ScoreIs(v))
  {
    if s != [] {
      var rest := s[..|s| - 1];
      SortStable(rest, v);
      InsertStable(SortDesc(rest), s[|s| - 1], v);
      assert [s[|s| - 1]][..0] == [];
    }
  }

  /** Sorting candidates that all have one score changes nothing. */
  lemma SortEqualScores(s: seq<Candidate>, v: int)
    requires forall k :: 0 <= k < |s| ==> s[k].score == v
    ensures SortDesc(s) == s
  {
    var r := SortDesc(s);
    SortStable(s, v);
    FilterAllKept(s, ScoreIs(v));
    forall k | 0 <= k < |r| ensures r[k].score == v {
      assert r[k] in multiset(s);
    }
    FilterAllKept(r, ScoreIs(v));
  }

  /** `.map(c => c.card)`: the cards of the candidates, in order. */
  function CardsOf(cs: seq<Candidate>): (r: seq<Card>)
    ensures |r| == |cs| && forall i :: 0 <= i < |r| ==> r[i] == cs[i].card
  {
    seq(|cs|, i requires 0 <= i < |cs| => cs[i].card)
  }

  /** `candidates.sort(...).slice(0, 3)`, kept with the scores. */
  function Best(cands: seq<Candidate>): (r: seq<Candidate>)
    ensures |r| <= ResultSize && SortedDesc(r)
  {
    Take(SortDesc(cands), ResultSize)
  }

  /** The cut keeps the best: everything, when there are at most three, and
      otherwise no left-out candidate scores more than a kept one. */
  lemma BestAreBest(cands: seq<Candidate>)
    ensures var r := Best(cands);
      && multiset(r) <= multiset(cands)
      && (|cands| <= ResultSize ==> multiset(r) == multiset(cands))
      && (|cands| > ResultSize ==>
            && |r| == ResultSize
            && forall x :: x in multiset(cands) - multiset(r) ==> forall k :: 0 <= k < |r| ==> r[k].score >= x.score)
  {
    var s := SortDesc(cands);
    var r := Best(cands);
    assert s == r + s[|r|..];
    assert multiset(s) == multiset(r) + multiset(s[|r|..]);
    if |cands| > ResultSize {
      forall x | x in multiset(cands) - multiset(r)
        ensures forall k :: 0 <= k < |r| ==> r[k].score >= x.score
      {
        assert x in s[|r|..];
        var j :| |r| <= j < |s| && s[j] == x;
      }
    }
  }

  // ---------------------------------------------------------------------------
  // The whole ranking

  /** The candidate list before the sort, when the early exit did not happen:
      the name stage, then the fuzzy stage only if it found fewer than three. */
  function Gathered(parsed: ParsedOCR, allCards: seq<Card>, hpIdx: Multimap<int, Card>,
                    nameIdx: Multimap<string, Card>, fullText: string): (r: seq<Candidate>)
    ensures var named := NameCandidates(parsed, nameIdx);
      && |named| <= |r| && r[..|named|] == named
      && (|named| >= ResultSize ==> r == named)
      && forall k :: |named| <= k < |r| ==> FuzzyAdded(r, k, SearchPool(parsed, allCards, hpIdx), LowerStr(fullText), parsed)
  {
    var named := NameCandidates(parsed, nameIdx);
    var pool := SearchPool(parsed, allCards, hpIdx);
    if |named| < ResultSize then
      FuzzyAdds(named, pool, LowerStr(fullText), parsed);
      Fuzzy(named, pool, LowerStr(fullText), parsed)
    else named
  }

  /** The best three candidates `findCandidates` ends with. */
  function Ranked(parsed: ParsedOCR, allCards: seq<Card>, hpIdx: Multimap<int, Card>,
                  nameIdx: Multimap<string, Card>, fullText: string): (r: seq<Candidate>)
    ensures |r| <= ResultSize && SortedDesc(r)
  {
    var early := EarlyMatches(parsed, nameIdx);
    if |early| > 0 then Best(WithScore(early, ScoreNameAndNumber))
    else Best(Gathered(parsed, allCards, hpIdx, nameIdx, fullText))
  }

  /** The cards `findCandidates` returns. */
  function RankedCards(parsed: ParsedOCR, allCards: seq<Card>, hpIdx: Multimap<int, Card>,
                       nameIdx: Multimap<string, Card>, fullText: string): (r: seq<Card>)
    ensures |r| <= ResultSize
  {
    CardsOf(Ranked(parsed, allCards, hpIdx, nameIdx, fullText))
  }

  /** When the card number narrows the name bucket to something, the answer
      is the first three of exactly those cards, in bucket order, and nothing
      from a later stage. */
  lemma EarlyExit(parsed: ParsedOCR, allCards: seq<Card>, hpIdx: Multimap<int, Card>,
                  nameIdx: Multimap<string, Card>, fullText: string)
    requires |EarlyMatches(parsed, nameIdx)| > 0
    ensures RankedCards(parsed, allCards, hpIdx, nameIdx, fullText) == Take(EarlyMatches(parsed, nameIdx), ResultSize)
  {
    var early := EarlyMatches(parsed, nameIdx);
    var scored := WithScore(early, ScoreNameAndNumber);
    assert Ranked(parsed, allCards, hpIdx, nameIdx, fullText) == Best(scored);
    SortEqualScores(scored, ScoreNameAndNumber);
    assert Best(scored) == Take(scored, ResultSize);
    CardsOfScored(early, ScoreNameAndNumber, ResultSize);
  }

  /** Scoring cards alike and cutting keeps the first cards. */
  lemma CardsOfScored(cards: seq<Card>, score: int, n: nat)
    ensures CardsOf(Take(WithScore(cards, score), n)) == Take(cards, n)
  {
    var r := CardsOf(Take(WithScore(cards, score), n));
    assert forall i :: 0 <= i < |r| ==> r[i] == Take(cards, n)[i];
  }

  /** Where the ranked candidates come from: either a name-stage card of the
      resolved name's bucket, or a search-pool card scoring above the noise
      floor whose id the name stage had not already listed. */
  lemma RankedOrigin(parsed: ParsedOCR, allCards: seq<Card>, hpIdx: Multimap<int, Card>,
                     nameIdx: Multimap<string, Card>, fullText: string, x: Candidate)
    requires x in Ranked(parsed, allCards, hpIdx, nameIdx, fullText)
    ensures || (NameResolved(parsed, nameIdx) && x.card in nameIdx.buckets[parsed.name.value])
            || (&& |NameCandidates(parsed, nameIdx)| < ResultSize
                && x.card in SearchPool(parsed, allCards, hpIdx)
                && x.score == FuzzyScore(x.card, LowerStr(fullText), parsed) > NoiseFloor
                && !HasId(NameCandidates(parsed, nameIdx), x.card.id))
  {
    var early := EarlyMatches(parsed, nameIdx);
    if |early| > 0 {
      var scored := WithScore(early, ScoreNameAndNumber);
      BestMembers(scored, x);
      var k :| 0 <= k < |scored| && scored[k] == x;
      assert x.card == early[k] && early[k] in early;
    } else {
      BestMembers(Gathered(parsed, allCards, hpIdx, nameIdx, fullText), x);
      GatheredOrigin(parsed, allCards, hpIdx, nameIdx, fullText, x);
    }
  }

  lemma BestMembers(cands: seq<Candidate>, x: Candidate)
    requires x in Best(cands)
    ensures x in cands
  {
    BestAreBest(cands);
    assert x in multiset(Best(cands));
  }

  /** The same for the candidates before sorting, when there is no early exit. */
  lemma GatheredOrigin(parsed: ParsedOCR, allCards: seq<Card>, hpIdx: Multimap<int, Card>,
                       nameIdx: Multimap<string, Card>, fullText: string, x: Candidate)
    requires x in Gathered(parsed, allCards, hpIdx, nameIdx, fullText)
    ensures || (NameResolved(parsed, nameIdx) && x.card in nameIdx.buckets[parsed.name.value])
            || (&& |NameCandidates(parsed, nameIdx)| < ResultSize
                && x.card in SearchPool(parsed, allCards, hpIdx)
                && x.score == FuzzyScore(x.card, LowerStr(fullText), parsed) > NoiseFloor
                && !HasId(NameCandidates(parsed, nameIdx), x.card.id))
  {
    var named := NameCandidates(parsed, nameIdx);
    NameStageMembers(parsed, nameIdx);
    if |named| < ResultSize {
      FuzzyOrigin(named, SearchPool(parsed, allCards, hpIdx), LowerStr(fullText), parsed, x);
    }
  }

  /** A fuzzy-stage result is either one of the candidates it started from or
      a pool card above the noise floor whose id those candidates lack. */
  lemma FuzzyOrigin(cands: seq<Candidate>, pool: seq<Card>, lowerText: string, parsed: ParsedOCR, x: Candidate)
    requires x in Fuzzy(cands, pool, lowerText, parsed)
    ensures || x in cands
            || (&& x.card in pool
                && x.score == FuzzyScore(x.card, lowerText, parsed) > NoiseFloor
                && !HasId(cands, x.card.id))
  {
    var r := Fuzzy(cands, pool, lowerText, parsed);
    var k :| 0 <= k < |r| && r[k] == x;
    if k < |cands| {
      assert r[k] == cands[k];
    } else {
      FuzzyAdds(cands, pool, lowerText, parsed);
      assert FuzzyAdded(r, k, pool, lowerText, parsed);
      assert r[..k][..|cands|] == r[..|cands|];
      HasIdPrefix(cands, r[..k], x.card.id);
    }
  }

  lemma HasIdPrefix(a: seq<Candidate>, b: seq<Candidate>, id: string)
    requires |a| <= |b| && b[..|a|] == a
    ensures HasId(a, id) ==> HasId(b, id)
  {
    if HasId(a, id) {
      var k :| 0 <= k < |a| && a[k].card.id == id;
      assert b[k] == a[k];
    }
  }

  /** Every name-stage candidate is a card of the resolved name's bucket. */
  lemma NameStageMembers(parsed: ParsedOCR, nameIdx: Multimap<string, Card>)
    ensures forall k :: 0 <= k < |NameCandidates(parsed, nameIdx)| ==>
      NameResolved(parsed, nameIdx) && NameCandidates(parsed, nameIdx)[k].card in nameIdx.buckets[parsed.name.value]
  {
    var r := NameCandidates(parsed, nameIdx);
    if NameResolved(parsed, nameIdx) {
      var bucket := nameIdx.buckets[parsed.name.value];
      forall k | 0 <= k < |r| ensures r[k].card in bucket {
        if HpGiven(parsed.hp) {
          var both := Filter(bucket, HasHp(parsed.hp.value));
          FilterMembers(bucket, HasHp(parsed.hp.value));
          if |both| > 0 {
            assert r[k].card == both[k] && both[k] in both;
          } else {
            assert r[k].card == Take(bucket, MismatchCap)[k];
          }
        }
      }
    }
  }
}

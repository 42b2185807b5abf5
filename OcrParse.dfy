/** The field extractor of `parseOCRText`: the regular expressions it runs over
    the recognised text, written as matchers for the `Scan` driver, and the
    value each field of the parse takes. The loops of `parseOCRText` itself
    are in `Database.DatabaseService.ParseOCRText`, which is proved to compute
    `ParseSpec`. */
module OcrParse {
  import opened Text
  import opened Scan
  import opened Catalog

  /** The record `parseOCRText` returns. `None` is the source's `null`. */
  datatype ParsedOCR = ParsedOCR(name: Option<string>, hp: Option<int>, setNumber: Option<string>,
                                 words: seq<string>, attacks: seq<string>)

  const HpMin := 30
  const HpMax := 340
  /** Length of the prefix searched for an unlabelled hit-points number. */
  const HpPrefixLength := 80

  // ---------------------------------------------------------------------------
  // Small pieces of pattern syntax

  /** `n` ASCII digits start at `i`. */
  predicate DigitsAt(s: seq<char>, i: nat, n: nat)
  {
    i + n <= |s| && forall k :: i <= k < i + n ==> IsDigit(s[k])
  }

  predicate AllDigits(t: seq<char>)
  {
    forall k :: 0 <= k < |t| ==> IsDigit(t[k])
  }

  /** `parseInt` of a matched digit group (`None` stands for `NaN`). */
  function NumberValue(t: seq<char>): Option<int>
  {
    if |t| > 0 && AllDigits(t) then Some(DecimalValue(t)) else None
  }

  /** Where a greedy `\s*` starting at `j` stops. */
  function SkipSpaces(s: seq<char>, j: nat): (k: nat)
    requires j <= |s|
    decreases |s| - j
    ensures j <= k <= |s|
    ensures forall x :: j <= x < k ==> IsSpace(s[x])
    ensures k == |s| || !IsSpace(s[k])
  {
    if j < |s| && IsSpace(s[j]) then SkipSpaces(s, j + 1) else j
  }

  /** Where a greedy `[a-z]*` starting at `j` stops. */
  function LowerRunEnd(s: seq<char>, j: nat): (k: nat)
    requires j <= |s|
    decreases |s| - j
    ensures j <= k <= |s|
    ensures forall x :: j <= x < k ==> IsLower(s[x])
    ensures k == |s| || !IsLower(s[k])
  {
    if j < |s| && IsLower(s[j]) then LowerRunEnd(s, j + 1) else j
  }

  predicate IsH(c: char) { c == 'H' || c == 'h' }

  predicate IsP(c: char) { c == 'P' || c == 'p' }

  /** `\s*HP` under the `i` flag from `j`: the end of the label, if it is there. */
  function JoinedLabel(s: seq<char>, j: nat): Option<nat>
    requires j <= |s|
  {
    var k := SkipSpaces(s, j);
    if k + 1 < |s| && IsH(s[k]) && IsP(s[k + 1]) then Some(k + 2) else None
  }

  /** `\s*H\s*P` under the `i` flag from `j`. */
  function SpacedLabel(s: seq<char>, j: nat): Option<nat>
    requires j <= |s|
  {
    var k := SkipSpaces(s, j);
    if k < |s| && IsH(s[k]) then
      var k2 := SkipSpaces(s, k + 1);
      if k2 < |s| && IsP(s[k2]) then Some(k2 + 1) else None
    else None
  }

  // ---------------------------------------------------------------------------
  // The three hit-points patterns (each tried at one position)

  /** `/(\d{2,3})\s*HP/i`: three digits are tried before two. */
  function HpDigitsLabel(s: seq<char>, i: nat): (r: Option<Found>)
    ensures r.Some? ==> r.value.start == i && |r.value.text| in {2, 3} && DigitsAt(s, i, |r.value.text|)
    ensures r.Some? ==> r.value.text == s[i..i + |r.value.text|]
  {
    if DigitsAt(s, i, 3) && JoinedLabel(s, i + 3).Some? then Some(Found(i, JoinedLabel(s, i + 3).value, s[i..i + 3]))
    else if DigitsAt(s, i, 2) && JoinedLabel(s, i + 2).Some? then Some(Found(i, JoinedLabel(s, i + 2).value, s[i..i + 2]))
    else None
  }

  /** `/HP\s*(\d{2,3})/i` */
  function HpLabelDigits(s: seq<char>, i: nat): (r: Option<Found>)
    ensures r.Some? ==> r.value.start == i && |r.value.text| in {2, 3} && AllDigits(r.value.text)
  {
    if i + 1 < |s| && IsH(s[i]) && IsP(s[i + 1]) then
      var k := SkipSpaces(s, i + 2);
      if DigitsAt(s, k, 3) then Some(Found(i, k + 3, s[k..k + 3]))
      else if DigitsAt(s, k, 2) then Some(Found(i, k + 2, s[k..k + 2]))
      else None
    else None
  }

  /** `/(\d{2,3})\s*H\s*P/i` */
  function HpDigitsSpacedLabel(s: seq<char>, i: nat): (r: Option<Found>)
    ensures r.Some? ==> r.value.start == i && |r.value.text| in {2, 3} && DigitsAt(s, i, |r.value.text|)
    ensures r.Some? ==> r.value.text == s[i..i + |r.value.text|]
  {
    if DigitsAt(s, i, 3) && SpacedLabel(s, i + 3).Some? then Some(Found(i, SpacedLabel(s, i + 3).value, s[i..i + 3]))
    else if DigitsAt(s, i, 2) && SpacedLabel(s, i + 2).Some? then Some(Found(i, SpacedLabel(s, i + 2).value, s[i..i + 2]))
    else None
  }

  /** `hpPatterns`, in the order they are tried. */
  const HpPatterns: seq<Matcher> := [HpDigitsLabel, HpLabelDigits, HpDigitsSpacedLabel]

  predicate HpInRange(v: int) { HpMin <= v <= HpMax }

  /** The value a pattern contributes: its leftmost match's number, when that
      is in range (a pattern whose first match is out of range is given up). */
  function PatternHp(m: Matcher, text: string): (r: Option<int>)
    ensures r.Some? ==> HpInRange(r.value)
  {
    match FirstMatch(m, text)
    case None => None
    case Some(f) =>
      var v := NumberValue(f.text);
      if v.Some? && HpInRange(v.value) then v else None
  }

  /** The first pattern, in list order, that contributes a value. */
  function HpFromPatterns(pats: seq<Matcher>, text: string): (r: Option<int>)
    ensures r.Some? ==> HpInRange(r.value)
    ensures r.None? <==> forall k :: 0 <= k < |pats| ==> PatternHp(pats[k], text).None?
    ensures r.Some? ==> exists k :: 0 <= k < |pats| && PatternHp(pats[k], text) == r
                                    && forall j :: 0 <= j < k ==> PatternHp(pats[j], text).None?
  {
    if pats == [] then None
    else if PatternHp(pats[0], text).Some? then PatternHp(pats[0], text)
    else
      var r := HpFromPatterns(pats[1..], text);
      assert forall k :: 1 <= k < |pats| ==> pats[k] == pats[1..][k - 1];
      r
  }

  // ---------------------------------------------------------------------------
  // Unlabelled hit-points: `/\b(\d{2,3})\b/g` over the first 80 characters

  /** `\b` just before position `i` of a word character. */
  predicate BoundaryBefore(s: seq<char>, i: nat)
  {
    i == 0 || (i <= |s| && !IsWordChar(s[i - 1]))
  }

  /** `\b` just after position `e - 1` of a word character. */
  predicate BoundaryAfter(s: seq<char>, e: nat)
  {
    e == |s| || (e < |s| && !IsWordChar(s[e]))
  }

  /** `/\b(\d{2,3})\b/` anchored at `i`. */
  function BareNumberAt(s: seq<char>, i: nat): (r: Option<Found>)
    ensures r.Some? ==> r.value.start == i && i < r.value.end <= |s| && r.value.text == s[i..r.value.end]
    ensures r.Some? ==> r.value.end - i in {2, 3} && DigitsAt(s, i, r.value.end - i)
  {
    if BoundaryBefore(s, i) && DigitsAt(s, i, 3) && BoundaryAfter(s, i + 3) then Some(Found(i, i + 3, s[i..i + 3]))
    else if BoundaryBefore(s, i) && DigitsAt(s, i, 2) && BoundaryAfter(s, i + 2) then Some(Found(i, i + 2, s[i..i + 2]))
    else None
  }

  /** `fullText.substring(0, 80)` */
  function FirstPart(text: string): (p: string)
    ensures |p| <= HpPrefixLength && |p| <= |text| && p == text[..|p|]
  {
    if |text| <= HpPrefixLength then text else text[..HpPrefixLength]
  }

  /** What the fallback loop accepts: in range and a multiple of 10. */
  predicate PlausibleHp(v: int) { HpInRange(v) && v % 10 == 0 }

  function FoundPlausible(f: Found): bool
  {
    var v := NumberValue(f.text);
    v.Some? && PlausibleHp(v.value)
  }

  /** A loop over the patterns that stops at the first one contributing a
      value ends with the value `HpFromPatterns` gives. */
  lemma HpFromPatternsAt(pats: seq<Matcher>, text: string, p: nat)
    requires p < |pats| && PatternHp(pats[p], text).Some?
    requires forall k :: 0 <= k < p ==> PatternHp(pats[k], text).None?
    ensures HpFromPatterns(pats, text) == PatternHp(pats[p], text)
  {
    var r := HpFromPatterns(pats, text);
    var k :| 0 <= k < |pats| && PatternHp(pats[k], text) == r && forall j :: 0 <= j < k ==> PatternHp(pats[j], text).None?;
    assert !(k < p) && !(p < k);
  }

  /** The fallback's value: the first plausible bare number of the prefix. */
  function HpFromNumbers(text: string): (r: Option<int>)
    ensures r.Some? ==> PlausibleHp(r.value)
  {
    var ms := AllMatches(BareNumberAt, FirstPart(text));
    match FirstWhere(ms, FoundPlausible, 0)
    case None => None
    case Some(k) => NumberValue(ms[k].text)
  }

  /** The parsed hit-points: a labelled pattern first, the bare-number scan
      only when no pattern contributed (`if (!result.hp)`). */
  function ParsedHp(text: string): (r: Option<int>)
    ensures r.Some? ==> HpMin <= r.value <= HpMax
  {
    var p := HpFromPatterns(HpPatterns, text);
    if p.Some? then p else HpFromNumbers(text)
  }

  /** A plausible bare number starts at `i` of the prefix. */
  predicate PlausibleNumberAt(p: string, i: nat)
  {
    AcceptedAt(BareNumberAt, p, FoundPlausible, i)
  }

  lemma BareNumberWellFormed()
    ensures WellFormed(BareNumberAt)
  {
  }

  lemma BareNumberNoMatchInside(s: seq<char>)
    ensures NoMatchInside(BareNumberAt, s)
  {
    forall i, j | 0 <= i < j < |s| && BareNumberAt(s, i).Some? && j < BareNumberAt(s, i).value.end
      ensures BareNumberAt(s, j).None?
    {
      assert IsDigit(s[j - 1]);
    }
  }

  /** The fallback independently of the scan: it yields a value exactly when
      some position of the 80-character prefix holds a word-bounded 2-3 digit
      number that is a multiple of 10 in [30, 340], and the value is the one
      at the leftmost such position. */
  lemma HpFromNumbersLeftmost(text: string)
    ensures var p := FirstPart(text);
      HpFromNumbers(text).Some? <==> exists i :: 0 <= i < |p| && PlausibleNumberAt(p, i)
    ensures var p := FirstPart(text);
      HpFromNumbers(text).Some? ==>
        exists i :: 0 <= i < |p| && PlausibleNumberAt(p, i)
                    && HpFromNumbers(text) == NumberValue(BareNumberAt(p, i).value.text)
                    && forall j :: 0 <= j < i ==> !PlausibleNumberAt(p, j)
  {
    var p := FirstPart(text);
    var ms := AllMatches(BareNumberAt, p);
    BareNumberWellFormed();
    BareNumberNoMatchInside(p);
    LeftmostAccepted(BareNumberAt, p, FoundPlausible);
    var r := FirstWhere(ms, FoundPlausible, 0);
    if r.Some? {
      var st := AllStarts(BareNumberAt, p, 0);
      var i := st[r.value];
      assert PlausibleNumberAt(p, i);
      assert HpFromNumbers(text) == NumberValue(ms[r.value].text);
    } else {
      assert HpFromNumbers(text).None?;
    }
  }

  // ---------------------------------------------------------------------------
  // Set number: `/(\d{1,3})\s*[\/]\s*(\d{2,3})/`

  /** How many digits a greedy `\d{1,3}` takes at `i` (0: no match). */
  function LeadDigits(s: seq<char>, i: nat): (n: nat)
    ensures n <= 3 && (n > 0 ==> DigitsAt(s, i, n))
  {
    if DigitsAt(s, i, 3) then 3 else if DigitsAt(s, i, 2) then 2 else if DigitsAt(s, i, 1) then 1 else 0
  }

  /** The set-fraction pattern anchored at `i`; the kept text is
      `${m[1]}/${m[2]}`. Only the longest first group can be followed by the
      slash, so the shorter alternatives need not be tried. */
  function SetFractionAt(s: seq<char>, i: nat): (r: Option<Found>)
    ensures r.Some? ==> r.value.start == i && IsSetFraction(r.value.text)
  {
    var a := LeadDigits(s, i);
    if a == 0 then None
    else
      var j := SkipSpaces(s, i + a);
      if j < |s| && s[j] == '/' then
        var k := SkipSpaces(s, j + 1);
        DigitsSlice(s, i, a);
        if DigitsAt(s, k, 3) then
          DigitsSlice(s, k, 3);
          FractionShape(s[i..i + a], s[k..k + 3]);
          Some(Found(i, k + 3, s[i..i + a] + "/" + s[k..k + 3]))
        else if DigitsAt(s, k, 2) then
          DigitsSlice(s, k, 2);
          FractionShape(s[i..i + a], s[k..k + 2]);
          Some(Found(i, k + 2, s[i..i + a] + "/" + s[k..k + 2]))
        else None
      else None
  }

  /** `<1-3 digits>/<2-3 digits>` */
  predicate IsSetFraction(t: string)
  {
    exists a: nat :: 1 <= a <= 3 && a + 3 <= |t| <= a + 4 && AllDigits(t[..a]) && t[a] == '/' && AllDigits(t[a + 1..])
  }

  function ParsedSetNumber(text: string): (r: Option<string>)
    ensures r.Some? ==> IsSetFraction(r.value)
  {
    match FirstMatch(SetFractionAt, text)
    case None => None
    case Some(f) => Some(f.text)
  }

  lemma DigitsSlice(s: seq<char>, i: nat, n: nat)
    requires DigitsAt(s, i, n)
    ensures |s[i..i + n]| == n && AllDigits(s[i..i + n])
  {
    var t := s[i..i + n];
    assert forall k :: 0 <= k < n ==> t[k] == s[i + k];
  }

  lemma FractionShape(d1: string, d2: string)
    requires 1 <= |d1| <= 3 && 2 <= |d2| <= 3 && AllDigits(d1) && AllDigits(d2)
    ensures IsSetFraction(d1 + "/" + d2)
  {
    var t := d1 + "/" + d2;
    assert t[..|d1|] == d1 && t[|d1|] == '/' && t[|d1| + 1..] == d2;
  }

  // ---------------------------------------------------------------------------
  // Name

  /** `w.replace(/[^a-zA-Z]/g, '').toLowerCase()` */
  function CleanWord(w: string): (r: string)
    ensures IsLowerCase(r) && forall k :: 0 <= k < |r| ==> IsLetter(r[k])
  {
    var letters := Filter(w, IsLetter);
    FilterMembers(w, IsLetter);
    assert forall k :: 0 <= k < |letters| ==> IsLetter(letters[k]) by {
      forall k | 0 <= k < |letters| ensures IsLetter(letters[k]) { assert letters[k] in letters; }
    }
    LowerStr(letters)
  }

  function LongerThanTwo(w: string): bool { |w| > 2 }

  /** `cleanWords`: cleaned words longer than 2, in order. */
  function CleanWords(words: seq<string>): (r: seq<string>)
    ensures forall k :: 0 <= k < |r| ==> |r[k]| > 2 && IsLowerCase(r[k])
  {
    var cleaned := seq(|words|, i requires 0 <= i < |words| => CleanWord(words[i]));
    var r := Filter(cleaned, LongerThanTwo);
    FilterMembers(cleaned, LongerThanTwo);
    assert forall k :: 0 <= k < |r| ==> r[k] in cleaned;
    r
  }

  /** The first clean word that is a name key (the exact-match loop). */
  function ExactName(cws: seq<string>, idx: Multimap<string, Card>): (r: Option<string>)
    ensures r.Some? ==> r.value in idx.buckets && r.value in cws
    ensures r.Some? ==> exists i :: 0 <= i < |cws| && cws[i] == r.value
                                   && forall j :: 0 <= j < i ==> cws[j] !in idx.buckets
    ensures r.None? <==> forall i :: 0 <= i < |cws| ==> cws[i] !in idx.buckets
  {
    if cws == [] then None
    else if cws[0] in idx.buckets then Some(cws[0])
    else
      var r := ExactName(cws[1..], idx);
      assert forall i :: 1 <= i < |cws| ==> cws[i] == cws[1..][i - 1];
      r
  }

  /** The exact-match loop stops at the first word that is a name key. */
  lemma ExactNameAt(cws: seq<string>, idx: Multimap<string, Card>, w: nat)
    requires w < |cws| && cws[w] in idx.buckets
    requires forall j :: 0 <= j < w ==> cws[j] !in idx.buckets
    ensures ExactName(cws, idx) == Some(cws[w])
  {
    var r := ExactName(cws, idx);
    var i :| 0 <= i < |cws| && cws[i] == r.value && forall j :: 0 <= j < i ==> cws[j] !in idx.buckets;
    assert !(i < w) && !(w < i);
  }

  /** `name.includes(word) || word.includes(name)` */
  predicate NameMatchesWord(name: string, word: string)
  {
    Contains(name, word) || Contains(word, name)
  }

  /** The inner loop over the name index: the first key, in insertion order,
      that matches `word` either way round. */
  function FirstKeyFor(word: string, keys: seq<string>): (r: Option<string>)
    ensures r.Some? ==> exists i :: 0 <= i < |keys| && keys[i] == r.value && NameMatchesWord(keys[i], word)
                                   && forall j :: 0 <= j < i ==> !NameMatchesWord(keys[j], word)
    ensures r.None? <==> forall i :: 0 <= i < |keys| ==> !NameMatchesWord(keys[i], word)
  {
    if keys == [] then None
    else if NameMatchesWord(keys[0], word) then Some(keys[0])
    else
      var r := FirstKeyFor(word, keys[1..]);
      assert forall i :: 1 <= i < |keys| ==> keys[i] == keys[1..][i - 1];
      r
  }

  /** The loop over the keys stops at the first key matching the word. */
  lemma FirstKeyForAt(word: string, keys: seq<string>, e: nat)
    requires e < |keys| && NameMatchesWord(keys[e], word)
    requires forall j :: 0 <= j < e ==> !NameMatchesWord(keys[j], word)
    ensures FirstKeyFor(word, keys) == Some(keys[e])
  {
    var r := FirstKeyFor(word, keys);
    var i :| 0 <= i < |keys| && keys[i] == r.value && NameMatchesWord(keys[i], word)
             && forall j :: 0 <= j < i ==> !NameMatchesWord(keys[j], word);
    assert !(i < e) && !(e < i);
  }

  /** JavaScript truthiness of `result.name`: `null` and `""` are false. */
  predicate Truthy(name: Option<string>) { name.Some? && name.value != "" }

  /** The substring-match loop from the current `name`: words shorter than 4
      are skipped, a found key is assigned, and the loop stops only once the
      name is truthy (so an empty key found for one word may be overwritten by
      a later word). */
  function SubstringScan(cws: seq<string>, keys: seq<string>, name: Option<string>): (r: Option<string>)
    ensures r.Some? ==> r.value in keys || r == name
  {
    if cws == [] then name
    else if |cws[0]| < 4 then SubstringScan(cws[1..], keys, name)
    else
      var f := FirstKeyFor(cws[0], keys);
      var name' := if f.Some? then f else name;
      if Truthy(name') then name' else SubstringScan(cws[1..], keys, name')
  }

  /** The resolved name: an exact match wins, then the substring fallback. */
  function ParsedName(cws: seq<string>, idx: Multimap<string, Card>): (r: Option<string>)
    requires ValidMap(idx)
    ensures r.Some? ==> r.value in idx.buckets
  {
    var e := ExactName(cws, idx);
    if e.Some? then e else SubstringScan(cws, idx.keys, None)
  }

  /** A non-empty name found by the substring fallback is the first key (in
      index order) matching the first word of length at least 4 for which
      any key is non-empty-matching; no earlier such word found one. */
  lemma {:induction false} SubstringScanFirst(cws: seq<string>, keys: seq<string>, name: Option<string>)
    requires !Truthy(name)
    requires Truthy(SubstringScan(cws, keys, name))
    ensures exists i :: FirstTruthyWord(cws, keys, i, SubstringScan(cws, keys, name))
  {
    var r := SubstringScan(cws, keys, name);
    var f := FirstKeyFor(cws[0], keys);
    var name' := if |cws[0]| < 4 then name else if f.Some? then f else name;
    if |cws[0]| < 4 || !Truthy(name') {
      assert r == SubstringScan(cws[1..], keys, name');
      SubstringScanFirst(cws[1..], keys, name');
      var i :| FirstTruthyWord(cws[1..], keys, i, r);
      FirstTruthyWordShift(cws, keys, i, r);
    } else {
      assert FirstTruthyWord(cws, keys, 0, r);
    }
  }

  /** Word `i` is the first of length at least 4 whose key lookup is truthy,
      and that lookup gives `r`. */
  predicate FirstTruthyWord(cws: seq<string>, keys: seq<string>, i: int, r: Option<string>)
  {
    && 0 <= i < |cws| && |cws[i]| >= 4 && FirstKeyFor(cws[i], keys) == r
    && forall j :: 0 <= j < i && |cws[j]| >= 4 ==> !Truthy(FirstKeyFor(cws[j], keys))
  }

  /** A first truthy word of the tail is one of the whole list when its
      first word does not give a truthy key. */
  lemma FirstTruthyWordShift(cws: seq<string>, keys: seq<string>, i: int, r: Option<string>)
    requires cws != [] && FirstTruthyWord(cws[1..], keys, i, r)
    requires |cws[0]| >= 4 ==> !Truthy(FirstKeyFor(cws[0], keys))
    ensures FirstTruthyWord(cws, keys, i + 1, r)
  {
    assert cws[i + 1] == cws[1..][i];
    forall j | 0 <= j < i + 1 && |cws[j]| >= 4 ensures !Truthy(FirstKeyFor(cws[j], keys)) {
      if j > 0 { assert cws[j] == cws[1..][j - 1]; }
    }
  }

  // ---------------------------------------------------------------------------
  // Attacks

  /** `Ability` (case-sensitive) at `i`. */
  predicate AbilityWordAt(s: seq<char>, i: nat)
  {
    i + 7 <= |s| && s[i..i + 7] == "Ability"
  }

  /** Where a greedy `[\s:]*` starting at `j` stops. */
  function SkipSpacesColons(s: seq<char>, j: nat): (k: nat)
    requires j <= |s|
    decreases |s| - j
    ensures j <= k <= |s|
  {
    if j < |s| && (IsSpace(s[j]) || s[j] == ':') then SkipSpacesColons(s, j + 1) else j
  }

  /** A capitalised word `[A-Z][a-z]+` starts at `k`. */
  predicate CapitalisedAt(s: seq<char>, k: nat)
  {
    k + 1 < |s| && IsUpper(s[k]) && IsLower(s[k + 1])
  }

  /** Where a greedy `(?:\s+[A-Z][a-z]+)*` starting at `e` stops. */
  function MoreCapitalised(s: seq<char>, e: nat): (r: nat)
    requires e <= |s|
    decreases |s| - e
    ensures e <= r <= |s|
  {
    var k := SkipSpaces(s, e);
    if k > e && CapitalisedAt(s, k) then MoreCapitalised(s, LowerRunEnd(s, k + 1)) else e
  }

  /** `/Ability[\s:]+([A-Z][a-z]+(?:\s+[A-Z][a-z]+)*)/` anchored at `i`; the kept text is the group. */
  function AbilityAt(s: seq<char>, i: nat): (r: Option<Found>)
    ensures r.Some? ==> r.value.start == i
  {
    if AbilityWordAt(s, i) then
      var k := SkipSpacesColons(s, i + 7);
      if k > i + 7 && CapitalisedAt(s, k) then
        var e := MoreCapitalised(s, LowerRunEnd(s, k + 1));
        Some(Found(i, e, s[k..e]))
      else None
    else None
  }

  /** `/([A-Z][a-z]+\s+[A-Z][a-z]+)(?=\s|$|\n)/` anchored at `i`. */
  function TwoWordAt(s: seq<char>, i: nat): (r: Option<Found>)
    ensures r.Some? ==> r.value.start == i && i < r.value.end <= |s| && r.value.text == s[i..r.value.end]
  {
    if CapitalisedAt(s, i) then
      var e1 := LowerRunEnd(s, i + 1);
      var k := SkipSpaces(s, e1);
      if k > e1 && CapitalisedAt(s, k) then
        var e2 := LowerRunEnd(s, k + 1);
        if e2 == |s| || IsSpace(s[e2]) then Some(Found(i, e2, s[i..e2])) else None
      else None
    else None
  }

  /** The ability phrase, lower-cased, if the text has one. */
  function AbilityPart(text: string): (r: seq<string>)
    ensures |r| <= 1
  {
    match FirstMatch(AbilityAt, text)
    case None => []
    case Some(f) => [LowerStr(f.text)]
  }

  /** Layout phrases that are never attack names. */
  const SkipPhrases: seq<string> := ["basic pokemon", "stage pokemon", "active spot", "stadium cards", "your opponent"]

  predicate KeptTwoWord(clean: string)
  {
    (forall k :: 0 <= k < |SkipPhrases| ==> !Contains(clean, SkipPhrases[k])) && |clean| > 5
  }

  /** The lower-cased two-word phrases the loop over `twoWordAttacks` keeps, in order. */
  function TwoWordKept(ms: seq<Found>): (r: seq<string>)
    ensures |r| <= |ms|
  {
    if ms == [] then []
    else
      var rest := TwoWordKept(ms[..|ms| - 1]);
      var clean := LowerStr(ms[|ms| - 1].text);
      if KeptTwoWord(clean) then rest + [clean] else rest
  }

  /** One more step of the loop over the two-word matches. */
  lemma TwoWordKeptStep(ms: seq<Found>, t: nat)
    requires t < |ms|
    ensures var clean := LowerStr(ms[t].text);
      TwoWordKept(ms[..t + 1]) == TwoWordKept(ms[..t]) + (if KeptTwoWord(clean) then [clean] else [])
  {
    assert ms[..t + 1][..t] == ms[..t];
  }

  function TwoWordPart(text: string): seq<string>
  {
    TwoWordKept(AllMatches(TwoWordAt, text))
  }

  /** Every phrase kept is the lower-cased text of a two-word match, contains
      none of the layout phrases and is longer than 5. */
  lemma {:induction false} TwoWordKeptShape(ms: seq<Found>)
    ensures forall k :: 0 <= k < |TwoWordKept(ms)| ==>
      KeptTwoWord(TwoWordKept(ms)[k]) && exists j :: 0 <= j < |ms| && TwoWordKept(ms)[k] == LowerStr(ms[j].text)
  {
    if ms != [] {
      var prefix := ms[..|ms| - 1];
      TwoWordKeptShape(prefix);
      var r := TwoWordKept(ms);
      forall k | 0 <= k < |r|
        ensures KeptTwoWord(r[k]) && exists j :: 0 <= j < |ms| && r[k] == LowerStr(ms[j].text)
      {
        if k < |TwoWordKept(prefix)| {
          var j :| 0 <= j < |prefix| && TwoWordKept(prefix)[k] == LowerStr(prefix[j].text);
          assert ms[j] == prefix[j];
        } else {
          assert r[k] == LowerStr(ms[|ms| - 1].text);
        }
      }
    }
  }

  lemma TwoWordPartShape(text: string)
    ensures forall k :: 0 <= k < |TwoWordPart(text)| ==> KeptTwoWord(TwoWordPart(text)[k])
    ensures forall k :: 0 <= k < |TwoWordPart(text)| ==>
      exists i :: 0 <= i < |text| && TwoWordAt(text, i).Some? && TwoWordPart(text)[k] == LowerStr(TwoWordAt(text, i).value.text)
  {
    var ms := AllMatches(TwoWordAt, text);
    var st := AllStarts(TwoWordAt, text, 0);
    TwoWordKeptShape(ms);
    forall k | 0 <= k < |TwoWordPart(text)|
      ensures exists i :: 0 <= i < |text| && TwoWordAt(text, i).Some? && TwoWordPart(text)[k] == LowerStr(TwoWordAt(text, i).value.text)
    {
      var j :| 0 <= j < |ms| && TwoWordPart(text)[k] == LowerStr(ms[j].text);
      assert ms[j] == TwoWordAt(text, st[j]).value;
    }
  }

  /** `skipWords` */
  const SkipWords: set<string> := {"basic", "stage", "pokemon", "trainer", "energy", "weakness",
                                   "resistance", "retreat", "cost", "damage", "coin", "flip",
                                   "your", "opponent", "this", "that", "the", "attack", "ability",
                                   "spatial", "active", "stadium", "cards", "hand", "during"}

  /** `/^\d+$/.test(w)` */
  predicate IsNumeral(w: string) { |w| > 0 && AllDigits(w) }

  /** The filter of `potentialAttacks`. */
  function IsStandalone(w: string): bool
  {
    |CleanWord(w)| > 5 && CleanWord(w) !in SkipWords && !IsNumeral(w)
  }

  /** `potentialAttacks`: the kept words, cleaned, in order. */
  function StandalonePart(words: seq<string>): (r: seq<string>)
    ensures forall k :: 0 <= k < |r| ==> |r[k]| > 5 && r[k] !in SkipWords && IsLowerCase(r[k])
  {
    var kept := Filter(words, IsStandalone);
    FilterMembers(words, IsStandalone);
    assert forall k :: 0 <= k < |kept| ==> kept[k] in kept;
    seq(|kept|, k requires 0 <= k < |kept| => CleanWord(kept[k]))
  }

  /** `[...new Set([...result.attacks, ...potentialAttacks])]` */
  function ParsedAttacks(text: string, words: seq<string>): (r: seq<string>)
    ensures Distinct(r)
  {
    Dedup(AbilityPart(text) + TwoWordPart(text) + StandalonePart(words))
  }

  /** The attack list has no repetitions, keeps the ability and two-word
      phrases first in their order of appearance, and everything after them is
      a standalone word of more than 5 letters outside `skipWords`. */
  lemma AttacksOrder(text: string, words: seq<string>)
    ensures var phrases := AbilityPart(text) + TwoWordPart(text);
      var r := ParsedAttacks(text, words);
      && Distinct(r)
      && |Dedup(phrases)| <= |r| && r[..|Dedup(phrases)|] == Dedup(phrases)
      && forall k :: |Dedup(phrases)| <= k < |r| ==>
           r[k] in StandalonePart(words) && |r[k]| > 5 && r[k] !in SkipWords && r[k] !in phrases
    ensures forall x :: x in ParsedAttacks(text, words) <==>
      x in AbilityPart(text) || x in TwoWordPart(text) || x in StandalonePart(words)
  {
    var phrases := AbilityPart(text) + TwoWordPart(text);
    DedupAppend(phrases, StandalonePart(words));
  }

  // ---------------------------------------------------------------------------
  // The whole parse

  function ParseSpec(fullText: string, words: seq<string>, nameIdx: Multimap<string, Card>): (r: ParsedOCR)
    requires ValidMap(nameIdx)
    ensures r.words == words
  {
    ParsedOCR(ParsedName(CleanWords(words), nameIdx), ParsedHp(fullText), ParsedSetNumber(fullText),
              words, ParsedAttacks(fullText, words))
  }
}

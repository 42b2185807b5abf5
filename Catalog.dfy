/** The reference catalog and the three lookup structures built over it: by
    hit-points, by normalised name and by attack word taken from the caption.
    The source keeps them in JavaScript `Map`s, which iterate in insertion
    order; a `Multimap` here is that order (`keys`) plus the buckets. */
module Catalog {
  import opened Text
  import opened Scan

  /** A catalog row. `hp` is the row's hit-points as `parseInt` reads them,
      when the column is set; `caption` is the free text used as a proxy for
      attack and ability text. */
  datatype Card = Card(id: string, name: string, hp: Option<int>, caption: Option<string>, setName: Option<string>)

  /** A JavaScript `Map<K, V[]>`: the keys in insertion order and the bucket of each. */
  datatype Multimap<K, V> = Multimap(keys: seq<K>, buckets: map<K, seq<V>>)

  ghost predicate ValidMap<K(!new), V>(m: Multimap<K, V>)
  {
    && (forall k :: k in m.buckets <==> k in m.keys)
    && Distinct(m.keys)
  }

  function EmptyMap<K, V>(): (m: Multimap<K, V>)
    ensures m.keys == [] && m.buckets == map[]
  {
    Multimap([], map[])
  }

  /** `m.get(k) ?? []` */
  function Get<K, V>(m: Multimap<K, V>, k: K): seq<V>
  {
    if k in m.buckets then m.buckets[k] else []
  }

  /** `if (!m.has(k)) m.set(k, []); m.get(k)!.push(v);` */
  function Push<K(!new), V>(m: Multimap<K, V>, k: K, v: V): (r: Multimap<K, V>)
    requires ValidMap(m)
    ensures ValidMap(r)
    ensures Get(r, k) == Get(m, k) + [v]
    ensures forall k' :: k' != k ==> Get(r, k') == Get(m, k')
    ensures r.keys == if k in m.buckets then m.keys else m.keys + [k]
  {
    if k in m.buckets then Multimap(m.keys, m.buckets[k := m.buckets[k] + [v]])
    else Multimap(m.keys + [k], m.buckets[k := [v]])
  }

  /** Pushes `v` under every key of `ks`, in order. */
  function PushAll<K(!new), V>(m: Multimap<K, V>, ks: seq<K>, v: V): (r: Multimap<K, V>)
    requires ValidMap(m)
    ensures ValidMap(r)
  {
    if ks == [] then m else Push(PushAll(m, ks[..|ks| - 1], v), ks[|ks| - 1], v)
  }

  /** The state of one index after the loop of `buildIndexes` has visited
      `cards`, when card `c` is filed under the keys `keysOf(c)`. */
  function IndexCards<K(!new)>(m: Multimap<K, Card>, cards: seq<Card>, keysOf: Card -> seq<K>): (r: Multimap<K, Card>)
    requires ValidMap(m)
    ensures ValidMap(r)
  {
    if cards == [] then m
    else PushAll(IndexCards(m, cards[..|cards| - 1], keysOf), keysOf(cards[|cards| - 1]), cards[|cards| - 1])
  }

  /** One more card visited by the loop of `buildIndexes`. */
  lemma IndexCardsStep<K(!new)>(m: Multimap<K, Card>, cards: seq<Card>, i: nat, keysOf: Card -> seq<K>)
    requires ValidMap(m) && i < |cards|
    ensures IndexCards(m, cards[..i + 1], keysOf) == PushAll(IndexCards(m, cards[..i], keysOf), keysOf(cards[i]), cards[i])
  {
    assert cards[..i + 1][..i] == cards[..i];
  }

  // ---------------------------------------------------------------------------
  // The three keys of a card

  /** `card.name.toLowerCase().trim()` */
  function NameKey(c: Card): string
  {
    Trim(LowerStr(c.name))
  }

  /** A name key is a lower-case piece of the name with no space at either end. */
  lemma NameKeyShape(c: Card)
    ensures |NameKey(c)| <= |c.name| && IsLowerCase(NameKey(c))
    ensures NameKey(c) == [] || (!IsSpace(NameKey(c)[0]) && !IsSpace(NameKey(c)[|NameKey(c)| - 1]))
  {
    var low := LowerStr(c.name);
    LowerStrIsLowerCase(c.name);
    var t := TrimStart(low);
    SliceIsLowerCase(low, |low| - |t|, |low|);
    var r := TrimEnd(t);
    SliceIsLowerCase(t, 0, |r|);
    assert r != [] ==> r[0] == t[0];
  }

  lemma SliceIsLowerCase(s: seq<char>, i: nat, j: nat)
    requires i <= j <= |s| && IsLowerCase(s)
    ensures IsLowerCase(s[i..j])
  {
    forall k | 0 <= k < j - i
      ensures !IsUpper(s[i..j][k])
    {
      assert s[i..j][k] == s[i + k];
    }
  }

  function NameKeys(c: Card): seq<string>
  {
    [NameKey(c)]
  }

  /** `if (card.hp) ... parseInt(card.hp)` */
  function HpKeys(c: Card): (r: seq<int>)
    ensures |r| <= 1 && forall h :: h in r <==> c.hp == Some(h)
  {
    if c.hp.Some? then [c.hp.value] else []
  }

  /** The literal `the attack ` under the `i` flag, at position `i`. */
  predicate TheAttackAt(s: seq<char>, i: nat)
  {
    var lit := "the attack ";
    i + |lit| <= |s| && forall k :: 0 <= k < |lit| ==> ToLower(s[i + k]) == lit[k]
  }

  /** The end of the run of `\w` characters that starts at `j`. */
  function WordRunEnd(s: seq<char>, j: nat): (e: nat)
    requires j <= |s|
    decreases |s| - j
    ensures j <= e <= |s|
    ensures forall k :: j <= k < e ==> IsWordChar(s[k])
    ensures e == |s| || !IsWordChar(s[e])
  {
    if j < |s| && IsWordChar(s[j]) then WordRunEnd(s, j + 1) else j
  }

  /** `/the attack (\w+)/gi` anchored at `i`; the kept text is the group, which
      is what `match.replace(/the attack /i, '')` leaves of the whole match. */
  function AttackPhraseAt(s: seq<char>, i: nat): (r: Option<Found>)
    ensures r.Some? ==> r.value.start == i && i < r.value.end <= |s|
  {
    if TheAttackAt(s, i) && i + 11 < |s| && IsWordChar(s[i + 11]) then
      var e := WordRunEnd(s, i + 11);
      Some(Found(i, e, s[i + 11..e]))
    else None
  }

  /** Every word that follows `the attack ` in a caption, lower-cased, in order. */
  function CaptionAttackWords(caption: string): (r: seq<string>)
  {
    LowerTexts(AllMatches(AttackPhraseAt, caption))
  }

  /** The kept text of each match, lower-cased. */
  function LowerTexts(ms: seq<Found>): (r: seq<string>)
    ensures |r| == |ms| && forall k :: 0 <= k < |ms| ==> r[k] == LowerStr(ms[k].text)
  {
    if ms == [] then [] else LowerTexts(ms[..|ms| - 1]) + [LowerStr(ms[|ms| - 1].text)]
  }

  function LongerThanThree(w: string): bool { |w| > 3 }

  /** The attack-index keys of a card: its caption's attack words longer than 3. */
  function AttackKeys(c: Card): seq<string>
  {
    if c.caption.Some? then Filter(CaptionAttackWords(c.caption.value), LongerThanThree) else []
  }

  // ---------------------------------------------------------------------------
  // What the built indexes hold

  function Repeat<V>(v: V, n: nat): (r: seq<V>)
    ensures |r| == n && forall i :: 0 <= i < n ==> r[i] == v
  {
    seq(n, _ => v)
  }

  function EqualTo<K(==)>(k: K): K -> bool
  {
    x => x == k
  }

  /** The bucket `k` should hold after indexing `cards`: every card, in catalog
      order, once for each time `k` is among its keys. */
  function Occurrences<K(==)>(cards: seq<Card>, keysOf: Card -> seq<K>, k: K): seq<Card>
  {
    if cards == [] then []
    else Occurrences(cards[..|cards| - 1], keysOf, k)
         + Repeat(cards[|cards| - 1], Count(keysOf(cards[|cards| - 1]), EqualTo(k)))
  }

  lemma {:induction false} PushAllGet<K(!new), V>(m: Multimap<K, V>, ks: seq<K>, v: V, k: K)
    requires ValidMap(m)
    ensures Get(PushAll(m, ks, v), k) == Get(m, k) + Repeat(v, Count(ks, EqualTo(k)))
  {
    if ks != [] {
      PushAllGet(m, ks[..|ks| - 1], v, k);
      var n := Count(ks[..|ks| - 1], EqualTo(k));
      if ks[|ks| - 1] == k {
        assert Repeat(v, n + 1) == Repeat(v, n) + [v];
      }
    }
  }

  /** Indexing appends, to the bucket of each key, exactly the cards filed
      under that key, in catalog order. */
  lemma {:induction false} IndexCardsGet<K(!new)>(m: Multimap<K, Card>, cards: seq<Card>, keysOf: Card -> seq<K>, k: K)
    requires ValidMap(m)
    ensures Get(IndexCards(m, cards, keysOf), k) == Get(m, k) + Occurrences(cards, keysOf, k)
  {
    if cards != [] {
      var c := cards[|cards| - 1];
      IndexCardsGet(m, cards[..|cards| - 1], keysOf, k);
      PushAllGet(IndexCards(m, cards[..|cards| - 1], keysOf), keysOf(c), c, k);
    }
  }

  /** Every key of an index was already there or is a key of an indexed card. */
  lemma {:induction false} IndexCardsKeys<K(!new)>(m: Multimap<K, Card>, cards: seq<Card>, keysOf: Card -> seq<K>, k: K)
    requires ValidMap(m)
    requires k in IndexCards(m, cards, keysOf).keys
    ensures k in m.keys || exists i :: 0 <= i < |cards| && k in keysOf(cards[i])
  {
    if cards != [] {
      var c := cards[|cards| - 1];
      var prefix := cards[..|cards| - 1];
      var before := IndexCards(m, prefix, keysOf);
      if k in before.keys {
        IndexCardsKeys(m, prefix, keysOf, k);
        if k !in m.keys {
          var i :| 0 <= i < |prefix| && k in keysOf(prefix[i]);
          assert cards[i] == prefix[i];
        }
      } else {
        PushAllNewKeys(before, keysOf(c), c, k);
        assert k in keysOf(cards[|cards| - 1]);
      }
    }
  }

  lemma {:induction false} PushAllNewKeys<K(!new), V>(m: Multimap<K, V>, ks: seq<K>, v: V, k: K)
    requires ValidMap(m)
    requires k in PushAll(m, ks, v).keys && k !in m.keys
    ensures k in ks
  {
    if ks != [] {
      var ks' := ks[..|ks| - 1];
      if k in PushAll(m, ks', v).keys {
        PushAllNewKeys(m, ks', v, k);
      }
    }
  }

  // ---------------------------------------------------------------------------
  // The name index

  function HasNameKey(k: string): Card -> bool
  {
    (c: Card) => NameKey(c) == k
  }

  /** The name index after `buildIndexes` on a fresh service. */
  function NameIndex(cards: seq<Card>): Multimap<string, Card>
  {
    IndexCards(EmptyMap(), cards, NameKeys)
  }

  lemma {:induction false} NameOccurrences(cards: seq<Card>, k: string)
    ensures Occurrences(cards, NameKeys, k) == Filter(cards, HasNameKey(k))
  {
    if cards != [] {
      var c := cards[|cards| - 1];
      NameOccurrences(cards[..|cards| - 1], k);
      assert [NameKey(c)][..0] == [];
      assert Count(NameKeys(c), EqualTo(k)) == if NameKey(c) == k then 1 else 0;
    }
  }

  /** The bucket of name `k` holds exactly the cards whose normalised name is
      `k`, each once, in catalog order. */
  lemma NameBucket(cards: seq<Card>, k: string)
    ensures Get(NameIndex(cards), k) == Filter(cards, HasNameKey(k))
    ensures forall c :: c in cards ==> c in Get(NameIndex(cards), NameKey(c))
  {
    IndexCardsGet(EmptyMap(), cards, NameKeys, k);
    NameOccurrences(cards, k);
    forall c | c in cards
      ensures c in Get(NameIndex(cards), NameKey(c))
    {
      IndexCardsGet(EmptyMap(), cards, NameKeys, NameKey(c));
      NameOccurrences(cards, NameKey(c));
      FilterMembers(cards, HasNameKey(NameKey(c)));
    }
  }

  /** Every bucket of the name index is the catalog filtered by that name. */
  lemma NameBuckets(cards: seq<Card>)
    ensures forall k :: Get(NameIndex(cards), k) == Filter(cards, HasNameKey(k))
  {
    forall k ensures Get(NameIndex(cards), k) == Filter(cards, HasNameKey(k)) {
      NameBucket(cards, k);
    }
  }

  function NameKeyList(cards: seq<Card>): (r: seq<string>)
    ensures |r| == |cards| && forall i :: 0 <= i < |cards| ==> r[i] == NameKey(cards[i])
  {
    seq(|cards|, i requires 0 <= i < |cards| => NameKey(cards[i]))
  }

  lemma NameKeyListFront(cards: seq<Card>)
    requires cards != []
    ensures NameKeyList(cards)[..|cards| - 1] == NameKeyList(cards[..|cards| - 1])
  {
    var prefix := cards[..|cards| - 1];
    assert forall i :: 0 <= i < |prefix| ==> prefix[i] == cards[i];
  }

  /** The name index iterates its keys in order of each name's first
      appearance in the catalog. */
  lemma {:induction false} NameKeysOrder(cards: seq<Card>)
    ensures NameIndex(cards).keys == Dedup(NameKeyList(cards))
  {
    if cards != [] {
      var prefix := cards[..|cards| - 1];
      var c := cards[|cards| - 1];
      var k := NameKey(c);
      var before := NameIndex(prefix);
      NameKeysOrder(prefix);
      var d := Dedup(NameKeyList(prefix));
      assert NameIndex(cards) == PushAll(before, [k], c);
      PushOne(before, k, c);
      NameKeyListFront(cards);
      DedupFront(NameKeyList(cards), NameKeyList(prefix), k);
      assert (k in before.buckets) == (k in d);
    }
  }

  /** Filing a card under one key is one `Push`. */
  lemma PushOne<K(!new), V>(m: Multimap<K, V>, k: K, v: V)
    requires ValidMap(m)
    ensures PushAll(m, [k], v) == Push(m, k, v)
  {
    assert [k][..0] == [];
  }

  function SumSizes<K, V>(keys: seq<K>, b: map<K, seq<V>>): nat
  {
    if keys == [] then 0
    else SumSizes(keys[..|keys| - 1], b) + (if keys[|keys| - 1] in b then |b[keys[|keys| - 1]]| else 0)
  }

  /** Total number of entries over all buckets. */
  function TotalSize<K, V>(m: Multimap<K, V>): nat
  {
    SumSizes(m.keys, m.buckets)
  }

  lemma {:induction false} SumSizesOther<K, V>(keys: seq<K>, b: map<K, seq<V>>, k: K, s: seq<V>)
    requires k !in keys
    ensures SumSizes(keys, b[k := s]) == SumSizes(keys, b)
  {
    if keys != [] {
      SumSizesOther(keys[..|keys| - 1], b, k, s);
    }
  }

  lemma {:induction false} SumSizesGrow<K, V>(keys: seq<K>, b: map<K, seq<V>>, k: K, v: V)
    requires Distinct(keys) && k in keys && k in b
    ensures SumSizes(keys, b[k := b[k] + [v]]) == SumSizes(keys, b) + 1
  {
    var p := keys[..|keys| - 1];
    var last := keys[|keys| - 1];
    if last == k {
      assert k !in p;
      SumSizesOther(p, b, k, b[k] + [v]);
    } else {
      assert k in p;
      SumSizesGrow(p, b, k, v);
    }
  }

  lemma PushTotal<K(!new), V>(m: Multimap<K, V>, k: K, v: V)
    requires ValidMap(m)
    ensures TotalSize(Push(m, k, v)) == TotalSize(m) + 1
  {
    if k in m.buckets {
      SumSizesGrow(m.keys, m.buckets, k, v);
    } else {
      var keys := m.keys + [k];
      assert keys[..|keys| - 1] == m.keys;
      SumSizesOther(m.keys, m.buckets, k, [v]);
    }
  }

  /** The name buckets together hold exactly one entry per catalog card. */
  lemma {:induction false} NameBucketSizes(cards: seq<Card>)
    ensures TotalSize(NameIndex(cards)) == |cards|
  {
    if cards != [] {
      var prefix := cards[..|cards| - 1];
      var c := cards[|cards| - 1];
      NameBucketSizes(prefix);
      PushOne(NameIndex(prefix), NameKey(c), c);
      PushTotal(NameIndex(prefix), NameKey(c), c);
    }
  }

  // ---------------------------------------------------------------------------
  // The hit-points index

  function HasHp(h: int): Card -> bool
  {
    (c: Card) => c.hp == Some(h)
  }

  /** The hit-points index after `buildIndexes` on a fresh service. */
  function HpIndex(cards: seq<Card>): Multimap<int, Card>
  {
    IndexCards(EmptyMap(), cards, HpKeys)
  }

  /** A key of the hit-points index is the hit-points of some catalog card. */
  lemma HpKeyHasCard(cards: seq<Card>, h: int)
    requires h in HpIndex(cards).buckets
    ensures exists c :: c in cards && c.hp == Some(h)
  {
    IndexCardsKeys(EmptyMap(), cards, HpKeys, h);
    var n :| 0 <= n < |cards| && h in HpKeys(cards[n]);
    assert cards[n] in cards;
  }

  lemma {:induction false} HpOccurrences(cards: seq<Card>, h: int)
    ensures Occurrences(cards, HpKeys, h) == Filter(cards, HasHp(h))
  {
    if cards != [] {
      var c := cards[|cards| - 1];
      HpOccurrences(cards[..|cards| - 1], h);
      if c.hp.Some? {
        assert HpKeys(c)[..0] == [];
      }
    }
  }

  /** A card sits in bucket `h` exactly when its hit-points are `h`; a card
      without hit-points is in no bucket. */
  lemma HpBucket(cards: seq<Card>, h: int)
    ensures Get(HpIndex(cards), h) == Filter(cards, HasHp(h))
    ensures forall c :: c in Get(HpIndex(cards), h) <==> c in cards && c.hp == Some(h)
  {
    var m: Multimap<int, Card> := EmptyMap();
    IndexCardsGet(m, cards, HpKeys, h);
    assert Get(m, h) == [];
    assert Get(HpIndex(cards), h) == Occurrences(cards, HpKeys, h);
    HpOccurrences(cards, h);
    FilterMembers(cards, HasHp(h));
  }

  /** Every bucket of the hit-points index is the catalog filtered by that value. */
  lemma HpBuckets(cards: seq<Card>)
    ensures forall h :: Get(HpIndex(cards), h) == Filter(cards, HasHp(h))
  {
    forall h ensures Get(HpIndex(cards), h) == Filter(cards, HasHp(h)) {
      HpBucket(cards, h);
    }
  }

  // ---------------------------------------------------------------------------
  // The attack index

  /** The attack index after `buildIndexes` on a fresh service. */
  function AttackIndex(cards: seq<Card>): Multimap<string, Card>
  {
    IndexCards(EmptyMap(), cards, AttackKeys)
  }

  /** Each attack word is the lower-cased run of word characters that follows
      `the attack ` somewhere in the caption. */
  lemma CaptionAttackWordsFollow(caption: string, w: string)
    requires w in CaptionAttackWords(caption)
    ensures IsLowerCase(w) && |w| > 0
    ensures exists i: nat :: FollowsTheAttack(caption, i, w)
  {
    var ws := CaptionAttackWords(caption);
    var k :| 0 <= k < |ws| && ws[k] == w;
    var i := AllStarts(AttackPhraseAt, caption, 0)[k];
    var f := AttackPhraseAt(caption, i).value;
    assert w == LowerStr(f.text);
    AttackPhraseText(caption, i);
    assert FollowsTheAttack(caption, i, w);
  }

  /** `w` is the lower-cased text right after `the attack ` at position `i`. */
  predicate FollowsTheAttack(caption: string, i: nat, w: string)
  {
    TheAttackAt(caption, i) && i + 11 + |w| <= |caption| && LowerStr(caption[i + 11..i + 11 + |w|]) == w
  }

  lemma AttackPhraseText(s: seq<char>, i: nat)
    requires AttackPhraseAt(s, i).Some?
    ensures var t := AttackPhraseAt(s, i).value.text;
      |t| > 0 && FollowsTheAttack(s, i, LowerStr(t))
  {
    var e := WordRunEnd(s, i + 11);
    var t := s[i + 11..e];
    assert AttackPhraseAt(s, i).value.text == t;
    assert |LowerStr(t)| == e - (i + 11);
  }

  /** A card listed under `k` by the loop is a catalog card with `k` among
      its keys. */
  lemma {:induction false} OccurrencesMembers<K>(cards: seq<Card>, keysOf: Card -> seq<K>, k: K, c: Card)
    requires c in Occurrences(cards, keysOf, k)
    ensures c in cards && k in keysOf(c)
  {
    var front := cards[..|cards| - 1];
    var last := cards[|cards| - 1];
    if c in Occurrences(front, keysOf, k) {
      OccurrencesMembers(front, keysOf, k, c);
      assert c in cards;
    } else {
      assert c == last;
      CountPositive(keysOf(last), EqualTo(k));
    }
  }

  /** Each attack key of a card is a lower-case word longer than 3 that
      follows `the attack ` in the card's caption. */
  lemma AttackKeysFollow(c: Card, k: string)
    requires k in AttackKeys(c)
    ensures c.caption.Some? && IsLowerCase(k) && |k| > 3
    ensures exists i: nat :: FollowsTheAttack(c.caption.value, i, k)
  {
    FilterMembers(CaptionAttackWords(c.caption.value), LongerThanThree);
    CaptionAttackWordsFollow(c.caption.value, k);
  }

  /** Every attack-index key is lower-case and longer than 3 characters; it
      follows `the attack ` in the caption of some catalog card, and of every
      card filed under it. */
  lemma AttackKeyOrigin(cards: seq<Card>, k: string)
    requires k in AttackIndex(cards).keys
    ensures IsLowerCase(k) && |k| > 3
    ensures exists c, i: nat :: c in cards && c.caption.Some? && FollowsTheAttack(c.caption.value, i, k)
    ensures forall c :: c in Get(AttackIndex(cards), k) ==>
      c in cards && c.caption.Some? && exists i: nat :: FollowsTheAttack(c.caption.value, i, k)
  {
    IndexCardsKeys(EmptyMap(), cards, AttackKeys, k);
    var n :| 0 <= n < |cards| && k in AttackKeys(cards[n]);
    AttackKeysFollow(cards[n], k);
    assert cards[n] in cards;
    var m: Multimap<string, Card> := EmptyMap();
    IndexCardsGet(m, cards, AttackKeys, k);
    assert Get(m, k) == [];
    forall c | c in Get(AttackIndex(cards), k)
      ensures c in cards && c.caption.Some? && exists i: nat :: FollowsTheAttack(c.caption.value, i, k)
    {
      OccurrencesMembers(cards, AttackKeys, k, c);
      AttackKeysFollow(c, k);
    }
  }
}

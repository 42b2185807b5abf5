/** The `RecognitionService` object: the 8x11 difference hash of a card
    image, its hex form, the nibble-wise Hamming distance and the linear
    scan for the closest stored hash. The image is handed in already resized
    to 9x11 and decoded to RGBA bytes (`None` when resizing or decoding
    failed), and the luminance of a pixel is an abstract comparable value. */
module Recognition {
  import opened Text
  import opened HashCodec

  const HashW := 8
  const HashH := 11
  /** `HASH_BITS`: also the starting `minDistance` of `findBestMatch`. */
  const HashBits := HashW * HashH
  /** A best match is reported only below this distance. */
  const MatchThreshold := 25

  /** `0.299 * r + 0.587 * g + 0.114 * b`, left abstract. */
  type Luma = (int, int, int) -> real

  // ---------------------------------------------------------------------------
  // The difference hash

  /** The luminance of the pixel whose red byte is `data[i]`; `None` when a
      channel lies past the end of the buffer, where the arithmetic on
      `undefined` gives `NaN`. */
  function LumaAt(data: seq<int>, lum: Luma, i: nat): Option<real>
  {
    if i + 2 < |data| then Some(lum(data[i], data[i + 1], data[i + 2])) else None
  }

  /** `b1 > b2`, which is false as soon as either side is `NaN`. */
  predicate Brighter(b1: Option<real>, b2: Option<real>)
  {
    b1.Some? && b2.Some? && b1.value > b2.value
  }

  /** Bit `(y, x)`: the pixel is brighter than its right neighbour in the
      row of `HashW + 1` pixels. */
  function HashBit(data: seq<int>, lum: Luma, y: nat, x: nat): (c: char)
    ensures IsBit(c)
  {
    var w := HashW + 1;
    if Brighter(LumaAt(data, lum, (y * w + x) * 4), LumaAt(data, lum, (y * w + (x + 1)) * 4)) then '1' else '0'
  }

  lemma RowColumn(y: nat, x: nat)
    requires x < HashW
    ensures (y * HashW + x) / HashW == y && (y * HashW + x) % HashW == x
  {
  }

  /** The bit string of `calculateHash`, row by row. */
  function HashBitsOf(data: seq<int>, lum: Luma): (r: string)
    ensures |r| == HashBits && IsBits(r)
  {
    seq(HashBits, k requires 0 <= k < HashBits => HashBit(data, lum, k / HashW, k % HashW))
  }

  /** Bit `y * 8 + x` compares pixel `(y, x)` with pixel `(y, x + 1)`. */
  lemma HashBitsLayout(data: seq<int>, lum: Luma, y: nat, x: nat)
    requires y < HashH && x < HashW
    ensures y * HashW + x < HashBits
    ensures HashBitsOf(data, lum)[y * HashW + x] == HashBit(data, lum, y, x)
  {
    RowColumn(y, x);
  }

  /** On a decoded 9x11 RGBA buffer every read stays inside it, so bit
      `y * 8 + x` is `1` exactly when the luminance at byte `(y * 9 + x) * 4`
      exceeds the one at `(y * 9 + x + 1) * 4`. */
  lemma HashBitsInBuffer(data: seq<int>, lum: Luma, y: nat, x: nat)
    requires |data| == (HashW + 1) * HashH * 4 && y < HashH && x < HashW
    ensures (y * 9 + x + 1) * 4 + 2 < |data|
    ensures HashBit(data, lum, y, x) == '1' <==>
      lum(data[(y * 9 + x) * 4], data[(y * 9 + x) * 4 + 1], data[(y * 9 + x) * 4 + 2])
      > lum(data[(y * 9 + x + 1) * 4], data[(y * 9 + x + 1) * 4 + 1], data[(y * 9 + x + 1) * 4 + 2])
  {
    assert y * 9 <= 90;
  }

  /** The hash `calculateHash` returns for a decoded buffer: 22 lower-case
      digits that decode back to the 88 bits. */
  function ImageHash(data: seq<int>, lum: Luma): (r: string)
    ensures |r| == HashBits / 4
    ensures forall k :: 0 <= k < |r| ==> IsLowerHex(r[k])
    ensures IsHex(r) && HexToBits(r) == HashBitsOf(data, lum)
  {
    var bits := HashBitsOf(data, lum);
    ChunkHexAgrees(bits);
    HexOfBitsRoundTrip(bits);
    HexOfBits(PadBits(bits))
  }

  /** `binaryToHex`: pad with `'0'` to a multiple of 4, then one digit per
      group of four bits. */
  method BinaryToHex(s0: string) returns (ret: string)
    requires IsBits(s0)
    ensures ret == HexOfBits(PadBits(s0))
  {
    var s := PadNibbles(s0);
    ret := NibblesToHex(s);
  }

  /** The padding loop of `binaryToHex`: `'0'`s until the length is a
      multiple of 4. */
  method PadNibbles(s0: string) returns (s: string)
    requires IsBits(s0)
    ensures s == PadBits(s0)
  {
    s := s0;
    while |s| % 4 != 0
      invariant |s0| <= |s| <= |s0| + PadLen(|s0|)
      invariant s == s0 + Zeros(|s| - |s0|)
      decreases |s0| + PadLen(|s0|) - |s|
    {
      assert Zeros(|s| - |s0|) + "0" == Zeros(|s| + 1 - |s0|);
      s := s + "0";
    }
  }

  /** The conversion loop of `binaryToHex`: one digit per four bits. */
  method NibblesToHex(s: string) returns (ret: string)
    requires IsBits(s) && |s| % 4 == 0
    ensures ret == HexOfBits(s)
  {
    ret := "";
    var i := 0;
    while i < |s|
      invariant 0 <= i <= |s| && i == 4 * |ret|
      invariant forall k :: 0 <= k < |ret| ==> ret[k] == HexOfBits(s)[k]
    {
      ret := ret + [HexDigit(BitsValue(s[i..i + 4]))];
      i := i + 4;
    }
  }

  /** `calculateHash`: `None` when the image could not be resized or
      decoded, and otherwise the hex form of the 88 difference bits. */
  method CalculateHash(decoded: Option<seq<int>>, lum: Luma) returns (hash: Option<string>)
    ensures decoded.None? ==> hash.None?
    ensures decoded.Some? ==> hash == Some(ImageHash(decoded.value, lum))
  {
    if decoded.None? {
      return None;
    }
    var data := decoded.value;
    ghost var bits := HashBitsOf(data, lum);
    var binaryHash := "";
    var w := HashW + 1;
    var y := 0;
    while y < HashH
      invariant 0 <= y <= HashH && |binaryHash| == y * HashW
      invariant forall k :: 0 <= k < |binaryHash| ==> binaryHash[k] == bits[k]
    {
      var x := 0;
      while x < HashW
        invariant 0 <= x <= HashW && |binaryHash| == y * HashW + x
        invariant forall k :: 0 <= k < |binaryHash| ==> binaryHash[k] == bits[k]
      {
        var i := (y * w + x) * 4;
        var b1 := LumaAt(data, lum, i);
        var i2 := (y * w + (x + 1)) * 4;
        var b2 := LumaAt(data, lum, i2);
        HashBitsLayout(data, lum, y, x);
        binaryHash := binaryHash + [if Brighter(b1, b2) then '1' else '0'];
        x := x + 1;
      }
      y := y + 1;
    }
    assert binaryHash == bits;
    var hex := BinaryToHex(binaryHash);
    hash := Some(hex);
  }

  /** `hammingDistance`: for each common digit position, the set bits of
      the exclusive or of the two digit values. */
  method HammingDistance(h1: string, h2: string) returns (dist: nat)
    requires IsHex(h1) && IsHex(h2)
    ensures dist == Distance(h1, h2)
  {
    dist := 0;
    var len := Min(|h1|, |h2|);
    var i := 0;
    while i < len
      invariant 0 <= i <= len && dist == DistanceUpTo(h1, h2, i)
    {
      var x := Xor(HexValue(h1[i]), HexValue(h2[i]));
      ghost var start, x0 := dist, x;
      while x > 0
        invariant dist + PopCount(x) == start + PopCount(x0)
      {
        if x % 2 == 1 {
          dist := dist + 1;
        }
        x := x / 2;
      }
      i := i + 1;
    }
  }

  // ---------------------------------------------------------------------------
  // The closest stored hash

  datatype HashEntry = HashEntry(id: string, hash: string)

  /** What `findBestMatch` returns when it accepts. */
  datatype Match = Match(id: string, distance: nat)

  predicate AllHex(entries: seq<HashEntry>)
  {
    forall k :: 0 <= k < |entries| ==> IsHex(entries[k].hash)
  }

  /** The distance `findBestMatch` computes to entry `k`. */
  function EntryDistance(entries: seq<HashEntry>, target: string, k: nat): nat
    requires AllHex(entries) && IsHex(target) && k < |entries|
  {
    Distance(target, entries[k].hash)
  }

  /** The `(minDistance, index of bestId)` pair the scan holds after the
      entries: the earliest entry of least distance, if any is below the
      starting value 88. */
  function ScanBest(entries: seq<HashEntry>, target: string): (r: (nat, Option<nat>))
    requires AllHex(entries) && IsHex(target)
    ensures r.1.None? ==> r.0 == HashBits
    ensures r.1.Some? ==> r.1.value < |entries| && r.0 == EntryDistance(entries, target, r.1.value) < HashBits
    ensures r.1.Some? ==> forall j :: 0 <= j < r.1.value ==> EntryDistance(entries, target, j) > r.0
    ensures forall j :: 0 <= j < |entries| ==> EntryDistance(entries, target, j) >= r.0
  {
    if entries == [] then (HashBits, None)
    else
      var front := entries[..|entries| - 1];
      var n := |entries| - 1;
      FrontDistances(entries, target);
      var prev := ScanBest(front, target);
      var d := EntryDistance(entries, target, n);
      if d < prev.0 then (d, Some(n)) else prev
  }

  /** All entries but the last are at the same distances as before. */
  lemma FrontDistances(entries: seq<HashEntry>, target: string)
    requires AllHex(entries) && IsHex(target) && entries != []
    ensures AllHex(entries[..|entries| - 1])
    ensures forall j :: 0 <= j < |entries| - 1 ==>
      EntryDistance(entries[..|entries| - 1], target, j) == EntryDistance(entries, target, j)
  {
    var front := entries[..|entries| - 1];
    assert forall j :: 0 <= j < |front| ==> front[j] == entries[j];
  }

  /** One step of the scan: entry `k` replaces the best so far only when it
      is strictly closer. */
  lemma ScanBestStep(entries: seq<HashEntry>, target: string, k: nat)
    requires AllHex(entries) && IsHex(target) && k < |entries|
    ensures AllHex(entries[..k]) && AllHex(entries[..k + 1])
    ensures var prev := ScanBest(entries[..k], target);
      var d := EntryDistance(entries, target, k);
      ScanBest(entries[..k + 1], target) == if d < prev.0 then (d, Some(k)) else prev
  {
    var s := entries[..k + 1];
    assert s[..k] == entries[..k];
    assert s[k] == entries[k];
  }

  /** The result of `findBestMatch`: the best entry when its distance is
      below the threshold, and `null` otherwise. */
  function BestMatch(entries: seq<HashEntry>, target: string): (r: Option<Match>)
    requires AllHex(entries) && IsHex(target)
    ensures r.Some? ==> r.value.distance < MatchThreshold
    ensures r.Some? ==> exists k :: 0 <= k < |entries| && entries[k].id == r.value.id
                                    && EntryDistance(entries, target, k) == r.value.distance
  {
    var (minDistance, best) := ScanBest(entries, target);
    if minDistance < MatchThreshold then Some(Match(entries[best.value].id, minDistance)) else None
  }

  /** A match is found exactly when some stored hash is closer than 25; it
      is then no farther than any stored hash, and it is the earliest of
      those at that distance. An empty list never matches. */
  lemma BestMatchMeaning(entries: seq<HashEntry>, target: string)
    requires AllHex(entries) && IsHex(target)
    ensures BestMatch(entries, target).Some? <==>
      exists k :: 0 <= k < |entries| && EntryDistance(entries, target, k) < MatchThreshold
    ensures entries == [] ==> BestMatch(entries, target).None?
    ensures var r := BestMatch(entries, target);
      r.Some? ==> && r.value.distance < MatchThreshold
                  && (forall j :: 0 <= j < |entries| ==> EntryDistance(entries, target, j) >= r.value.distance)
                  && exists k :: && 0 <= k < |entries| && entries[k].id == r.value.id
                                 && EntryDistance(entries, target, k) == r.value.distance
                                 && forall j :: 0 <= j < k ==> EntryDistance(entries, target, j) > r.value.distance
  {
    var (m, best) := ScanBest(entries, target);
    if m < MatchThreshold {
      var k := best.value;
      assert EntryDistance(entries, target, k) < MatchThreshold;
    }
  }

  class RecognitionService {
    var hashes: seq<HashEntry>

    ghost predicate Valid()
      reads this
    {
      AllHex(hashes)
    }

    constructor ()
      ensures Valid() && hashes == []
    {
      hashes := [];
    }

    /** The assignments `this.hashes = ...` of `loadOrGenerateHashes`, from
        the cache file or from freshly computed hashes. */
    method SetHashes(entries: seq<HashEntry>)
      requires AllHex(entries)
      modifies this
      ensures Valid() && hashes == entries
    {
      hashes := entries;
    }

    /** `findBestMatch`: a strict `<` keeps the earliest of equally close
        entries. */
    method FindBestMatch(targetHash: string) returns (r: Option<Match>)
      requires Valid() && IsHex(targetHash)
      ensures r == BestMatch(hashes, targetHash)
    {
      var entries := hashes;
      var bestId: Option<string> := None;
      var minDistance := HashBits;
      ghost var best: Option<nat> := None;
      var k := 0;
      while k < |entries|
        invariant 0 <= k <= |entries|
        invariant (minDistance, best) == ScanBest(entries[..k], targetHash)
        invariant best.None? ==> bestId.None?
        invariant best.Some? ==> best.value < k && bestId == Some(entries[best.value].id)
      {
        var item := entries[k];
        var dist := HammingDistance(targetHash, item.hash);
        ScanBestStep(entries, targetHash, k);
        if dist < minDistance {
          minDistance := dist;
          bestId := Some(item.id);
          best := Some(k);
        }
        k := k + 1;
      }
      assert entries[..k] == entries;
      if minDistance < MatchThreshold {
        return Some(Match(bestId.value, minDistance));
      }
      return None;
    }

    /** `identify`: `null` when no hash could be computed, and otherwise
        exactly the best match of the image's hash. */
    method Identify(decoded: Option<seq<int>>, lum: Luma) returns (r: Option<Match>)
      requires Valid()
      ensures decoded.None? ==> r.None?
      ensures decoded.Some? ==> r == BestMatch(hashes, ImageHash(decoded.value, lum))
    {
      var hash := CalculateHash(decoded, lum);
      // `!hash` also holds of an empty string; an image hash always has 22
      // digits, so only a failed decode takes this branch.
      if hash.None? || hash.value == "" {
        return None;
      }
      r := FindBestMatch(hash.value);
    }
  }
}

/** The difference hash of `scripts/generate-hashes.ts` (`calculateDHash`):
    32x32 bits over a greyscale image resized to 33x32, written as hex by a
    loop over groups of four bits. The `sharp` pipeline that produces the
    raw grey bytes is left to the caller. */
module GenerateHashes {
  import opened Text
  import opened HashCodec

  const HashSize := 32
  const DHashBits := HashSize * HashSize

  /** `data[i]`, which is `undefined` past the end of the buffer. */
  function Grey(data: seq<int>, i: nat): Option<int>
  {
    if i < |data| then Some(data[i]) else None
  }

  /** `p1 > p2`, false whenever a side is `undefined`. */
  predicate Above(p1: Option<int>, p2: Option<int>)
  {
    p1.Some? && p2.Some? && p1.value > p2.value
  }

  /** Bit `(y, x)`: the pixel is brighter than its right neighbour in the
      row of `HashSize + 1` pixels. */
  function DBit(data: seq<int>, y: nat, x: nat): (c: char)
    ensures IsBit(c)
  {
    var w := HashSize + 1;
    if Above(Grey(data, y * w + x), Grey(data, y * w + (x + 1))) then '1' else '0'
  }

  /** The bit string the nested loops build, row by row. */
  function DBits(data: seq<int>): (r: string)
    ensures |r| == DHashBits && IsBits(r)
  {
    seq(DHashBits, k requires 0 <= k < DHashBits => DBit(data, k / HashSize, k % HashSize))
  }

  lemma RowColumn(y: nat, x: nat)
    requires x < HashSize
    ensures (y * HashSize + x) / HashSize == y && (y * HashSize + x) % HashSize == x
  {
  }

  /** On a 33x32 buffer every read stays inside it, and bit `y * 32 + x` is
      `1` exactly when `data[y * 33 + x] > data[y * 33 + x + 1]`. */
  lemma DBitsInBuffer(data: seq<int>, y: nat, x: nat)
    requires |data| == (HashSize + 1) * HashSize && y < HashSize && x < HashSize
    ensures y * 33 + x + 1 < |data| && y * HashSize + x < DHashBits
    ensures DBits(data)[y * HashSize + x] == '1' <==> data[y * 33 + x] > data[y * 33 + x + 1]
  {
    RowColumn(y, x);
    assert y * 33 <= 31 * 33;
  }

  /** What `calculateDHash` returns: 256 lower-case digits, digit `k` the
      value of bits `4k .. 4k+3`, which decode back to the 1024 bits. */
  function DHash(data: seq<int>): (r: string)
    ensures |r| == DHashBits / 4
    ensures forall k :: 0 <= k < |r| ==> IsLowerHex(r[k])
    ensures r == HexOfBits(DBits(data))
    ensures IsHex(r) && HexToBits(r) == DBits(data)
  {
    ChunkHexAgrees(DBits(data));
    HexOfBitsRoundTrip(DBits(data));
    ChunkHex(DBits(data))
  }

  /** `calculateDHash` once `sharp` has produced the raw grey bytes. */
  method CalculateDHash(data: seq<int>) returns (ret: string)
    ensures ret == DHash(data)
  {
    var binaryHash := DifferenceBits(data);
    ret := ChunksToHex(binaryHash);
  }

  /** The two nested loops of `calculateDHash` over the 32 rows of 33
      pixels: one bit per pair of horizontal neighbours. */
  method DifferenceBits(data: seq<int>) returns (binaryHash: string)
    ensures binaryHash == DBits(data)
  {
    ghost var bits := DBits(data);
    binaryHash := "";
    var w := HashSize + 1;
    var h := HashSize;
    var y := 0;
    while y < h
      invariant 0 <= y <= h && |binaryHash| == y * 32
      invariant forall k :: 0 <= k < |binaryHash| ==> binaryHash[k] == bits[k]
    {
      var x := 0;
      while x < HashSize
        invariant 0 <= x <= 32 && |binaryHash| == y * 32 + x
        invariant forall k :: 0 <= k < |binaryHash| ==> binaryHash[k] == bits[k]
      {
        var p1 := Grey(data, y * w + x);
        var p2 := Grey(data, y * w + (x + 1));
        RowColumn(y, x);
        binaryHash := binaryHash + [if Above(p1, p2) then '1' else '0'];
        x := x + 1;
      }
      y := y + 1;
    }
  }

  /** The conversion loop of `calculateDHash`: one digit per `substr(i, 4)`. */
  method ChunksToHex(binaryHash: string) returns (ret: string)
    requires IsBits(binaryHash)
    ensures ret == ChunkHex(binaryHash)
  {
    ret := "";
    var i := 0;
    while i < |binaryHash|
      invariant i == 4 * |ret| && |ret| <= (|binaryHash| + 3) / 4
      invariant forall k :: 0 <= k < |ret| ==> ret[k] == ChunkHex(binaryHash)[k]
    {
      ret := ret + [HexDigit(Nibble(binaryHash, i, Min(i + 4, |binaryHash|)))];
      i := i + 4;
    }
  }

  /** Every pixel value shifted by the same amount. */
  function Brighten(data: seq<int>, c: int): (r: seq<int>)
    ensures |r| == |data| && forall i :: 0 <= i < |r| ==> r[i] == data[i] + c
  {
    seq(|data|, i requires 0 <= i < |data| => data[i] + c)
  }

  /** Each bit compares two neighbours strictly, so brightening or darkening
      the whole image leaves the hash unchanged. */
  lemma DHashShift(data: seq<int>, c: int)
    ensures DHash(Brighten(data, c)) == DHash(data)
  {
    var b := Brighten(data, c);
    forall k | 0 <= k < DHashBits ensures DBits(b)[k] == DBits(data)[k] {
      var y, x := k / HashSize, k % HashSize;
      assert DBit(b, y, x) == DBit(data, y, x);
    }
    assert DBits(b) == DBits(data);
  }
}

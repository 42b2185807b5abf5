/** The value side of the perceptual-hash matcher: bit strings, their
    hexadecimal form (`parseInt(part, 2).toString(16)` per group of four
    bits), and the nibble-wise Hamming distance between two hex hashes. */
module HashCodec {

  function Min(a: nat, b: nat): nat
  {
    if a <= b then a else b
  }

  function Pow2(n: nat): (r: nat)
    ensures r >= 1
  {
    if n == 0 then 1 else 2 * Pow2(n - 1)
  }

  lemma {:induction false} Pow2Monotone(a: nat, b: nat)
    requires a <= b
    ensures Pow2(a) <= Pow2(b)
  {
    if a < b {
      Pow2Monotone(a, b - 1);
    }
  }

  // ---------------------------------------------------------------------------
  // Bit strings

  predicate IsBit(c: char)
  {
    c == '0' || c == '1'
  }

  /** A string made of the characters `'0'` and `'1'` only. */
  predicate IsBits(s: string)
  {
    forall i :: 0 <= i < |s| ==> IsBit(s[i])
  }

  /** `parseInt(s, 2)`: the value of a bit string, most significant bit
      first. */
  function BitsValue(s: string): (v: nat)
    requires IsBits(s)
    ensures v < Pow2(|s|)
  {
    if s == [] then 0
    else 2 * BitsValue(s[..|s| - 1]) + (if s[|s| - 1] == '1' then 1 else 0)
  }

  /** The value of the bits `s[lo..hi]`, a group of at most four. */
  function Nibble(s: string, lo: nat, hi: nat): (v: nat)
    requires IsBits(s) && lo <= hi <= |s| && hi - lo <= 4
    ensures v < 16
  {
    Pow2Monotone(hi - lo, 4);
    BitsValue(s[lo..hi])
  }

  /** The `'0'`s `binaryToHex` appends. */
  function Zeros(k: nat): (r: string)
    ensures |r| == k && IsBits(r)
    ensures forall i :: 0 <= i < k ==> r[i] == '0'
  {
    seq(k, _ => '0')
  }

  /** How many `'0'`s bring a length up to a multiple of 4. */
  function PadLen(n: nat): (k: nat)
    ensures k < 4 && (n + k) % 4 == 0
  {
    (4 - n % 4) % 4
  }

  /** The input of `binaryToHex` after its padding loop. */
  function PadBits(s: string): (r: string)
    requires IsBits(s)
    ensures IsBits(r) && |r| % 4 == 0 && |s| <= |r| < |s| + 4 && r[..|s|] == s
    ensures forall i :: |s| <= i < |r| ==> r[i] == '0'
  {
    s + Zeros(PadLen(|s|))
  }

  // ---------------------------------------------------------------------------
  // Hex digits

  predicate IsLowerHex(c: char)
  {
    '0' <= c <= '9' || 'a' <= c <= 'f'
  }

  /** What `parseInt(c, 16)` accepts as one digit. */
  predicate IsHexChar(c: char)
  {
    IsLowerHex(c) || 'A' <= c <= 'F'
  }

  predicate IsHex(s: string)
  {
    forall i :: 0 <= i < |s| ==> IsHexChar(s[i])
  }

  /** `v.toString(16)` for a value below 16: one lower-case digit. */
  function HexDigit(v: nat): (c: char)
    requires v < 16
    ensures IsLowerHex(c)
  {
    if v < 10 then ('0' as int + v) as char else ('a' as int + v - 10) as char
  }

  /** `parseInt(c, 16)` for one hex digit. */
  function HexValue(c: char): (v: nat)
    requires IsHexChar(c)
    ensures v < 16
  {
    if '0' <= c <= '9' then c as int - '0' as int
    else if 'a' <= c <= 'f' then c as int - 'a' as int + 10
    else c as int - 'A' as int + 10
  }

  /** Reading a digit back gives the value it was written from, and a
      lower-case digit is written the same way it was read. */
  lemma HexDigitRoundTrip(v: nat, c: char)
    requires v < 16 && IsLowerHex(c)
    ensures HexValue(HexDigit(v)) == v
    ensures HexDigit(HexValue(c)) == c
  {
  }

  // ---------------------------------------------------------------------------
  // Bit strings to hex and back

  /** Four bits, most significant first, whose value is `v`. */
  function NibbleBits(v: nat): (r: string)
    requires v < 16
    ensures |r| == 4 && IsBits(r)
  {
    [if v / 8 == 1 then '1' else '0', if v / 4 % 2 == 1 then '1' else '0',
     if v / 2 % 2 == 1 then '1' else '0', if v % 2 == 1 then '1' else '0']
  }

  /** The value of four bits, written out. */
  lemma FourBitsValue(t: string)
    requires IsBits(t) && |t| == 4
    ensures BitsValue(t) == 8 * (if t[0] == '1' then 1 else 0) + 4 * (if t[1] == '1' then 1 else 0)
                            + 2 * (if t[2] == '1' then 1 else 0) + (if t[3] == '1' then 1 else 0)
  {
    var t1, t2, t3 := t[..1], t[..2], t[..3];
    assert t1[..0] == [] && t1[0] == t[0];
    assert BitsValue(t1) == (if t[0] == '1' then 1 else 0);
    assert t2[..1] == t1 && t2[1] == t[1];
    assert BitsValue(t2) == 2 * BitsValue(t1) + (if t[1] == '1' then 1 else 0);
    assert t3[..2] == t2 && t3[2] == t[2];
    assert BitsValue(t3) == 2 * BitsValue(t2) + (if t[2] == '1' then 1 else 0);
    assert t[..3] == t3;
  }

  lemma NibbleBitsValue(v: nat)
    requires v < 16
    ensures BitsValue(NibbleBits(v)) == v
  {
    FourBitsValue(NibbleBits(v));
  }

  lemma ValueNibbleBits(t: string)
    requires IsBits(t) && |t| == 4
    ensures NibbleBits(BitsValue(t)) == t
  {
    FourBitsValue(t);
  }

  /** The hex form of a bit string whose length is a multiple of 4: digit
      `k` is the value of bits `4k .. 4k+3`. */
  function HexOfBits(s: string): (r: string)
    requires IsBits(s) && |s| % 4 == 0
    ensures |r| == |s| / 4
    ensures forall k :: 0 <= k < |r| ==> IsLowerHex(r[k])
  {
    seq(|s| / 4, k requires 0 <= k < |s| / 4 => HexDigit(Nibble(s, 4 * k, 4 * k + 4)))
  }

  /** What `binaryToHex` returns: one digit per four bits of the padded
      input, `ceil(n / 4)` digits in all. */
  lemma BinaryToHexShape(s: string)
    requires IsBits(s)
    ensures |HexOfBits(PadBits(s))| == (|s| + 3) / 4
  {
  }

  /** Every hex digit written back as its four bits. */
  function HexToBits(h: string): (r: string)
    requires IsHex(h)
    ensures |r| == 4 * |h| && |r| % 4 == 0 && IsBits(r)
  {
    if h == [] then [] else HexToBits(h[..|h| - 1]) + NibbleBits(HexValue(h[|h| - 1]))
  }

  /** The hex form of a bit string grows by one digit per four bits. */
  lemma HexOfBitsSnoc(s: string)
    requires IsBits(s) && |s| % 4 == 0 && |s| >= 4
    ensures HexOfBits(s) == HexOfBits(s[..|s| - 4]) + [HexDigit(BitsValue(s[|s| - 4..]))]
  {
    var n := |s| - 4;
    var a, b := HexOfBits(s), HexOfBits(s[..n]);
    assert |a| == |b| + 1 && n == 4 * |b|;
    forall k | 0 <= k < |b| ensures a[k] == b[k] {
      assert 4 * k + 4 <= n;
      assert s[..n][4 * k..4 * k + 4] == s[4 * k..4 * k + 4];
    }
    assert s[4 * |b|..4 * |b| + 4] == s[n..];
    assert a[|b|] == HexDigit(BitsValue(s[n..]));
    assert a == b + [a[|b|]];
  }

  /** Decoding the hex form gives back the bits. */
  lemma {:induction false} HexOfBitsRoundTrip(s: string)
    requires IsBits(s) && |s| % 4 == 0
    ensures HexToBits(HexOfBits(s)) == s
  {
    if s != [] {
      var n := |s| - 4;
      var h := HexOfBits(s);
      var v := BitsValue(s[n..]);
      HexOfBitsSnoc(s);
      HexOfBitsRoundTrip(s[..n]);
      assert h[..|h| - 1] == HexOfBits(s[..n]);
      ValueNibbleBits(s[n..]);
      HexDigitRoundTrip(v, '0');
      assert HexToBits(h) == HexToBits(h[..|h| - 1]) + NibbleBits(HexValue(h[|h| - 1]));
      assert s == s[..n] + s[n..];
    }
  }

  /** Encoding the bits of a lower-case hash gives back the hash. */
  lemma {:induction false} HexToBitsRoundTrip(h: string)
    requires forall i :: 0 <= i < |h| ==> IsLowerHex(h[i])
    ensures HexOfBits(HexToBits(h)) == h
  {
    if h != [] {
      var front := h[..|h| - 1];
      var c := h[|h| - 1];
      HexToBitsRoundTrip(front);
      var s := HexToBits(h);
      HexToBitsSplit(h);
      NibbleBitsValue(HexValue(c));
      HexDigitRoundTrip(0, c);
      HexOfBitsSnoc(s);
      assert h == front + [c];
    }
  }

  /** The bits of a hash are those of all but its last digit, then the four
      bits of the last digit. */
  lemma HexToBitsSplit(h: string)
    requires IsHex(h) && h != []
    ensures HexToBits(h)[..4 * |h| - 4] == HexToBits(h[..|h| - 1])
    ensures HexToBits(h)[4 * |h| - 4..] == NibbleBits(HexValue(h[|h| - 1]))
  {
    var s := HexToBits(h);
    assert s == HexToBits(h[..|h| - 1]) + NibbleBits(HexValue(h[|h| - 1]));
  }

  /** The conversion loop of `calculateDHash`: one digit per `substr(i, 4)`,
      so a last group shorter than four bits is read as a shorter number. */
  function ChunkHex(s: string): (r: string)
    requires IsBits(s)
    ensures |r| == (|s| + 3) / 4
    ensures forall k :: 0 <= k < |r| ==> IsLowerHex(r[k])
  {
    seq((|s| + 3) / 4, k requires 0 <= k < (|s| + 3) / 4 => HexDigit(Nibble(s, 4 * k, Min(4 * k + 4, |s|))))
  }

  /** On whole groups of four bits both conversions agree; in particular
      `ChunkHex(s)` is then what `binaryToHex` returns for `s`. */
  lemma ChunkHexAgrees(s: string)
    requires IsBits(s) && |s| % 4 == 0
    ensures PadBits(s) == s
    ensures ChunkHex(s) == HexOfBits(s)
  {
    assert PadBits(s) == s + [];
  }

  /** On a ragged length they differ: the single bit `1` is the digit `1`
      for `calculateDHash` but `8` (`1000`) for `binaryToHex`. */
  lemma ChunkHexRagged()
    ensures ChunkHex("1") == "1"
    ensures HexOfBits(PadBits("1")) == "8"
  {
    var p := PadBits("1");
    assert p == "1000";
    assert p[0..4] == p;
    ValueNibbleBits(p);
    assert "1"[0..1] == "1" && "1"[..0] == [];
    assert Min(4, 1) == 1;
    assert Nibble("1", 0, 1) == 1;
  }

  // ---------------------------------------------------------------------------
  // Hamming distance

  /** `a ^ b` on non-negative numbers. */
  function Xor(a: nat, b: nat): nat
    decreases a + b
  {
    if a == 0 && b == 0 then 0
    else (if a % 2 != b % 2 then 1 else 0) + 2 * Xor(a / 2, b / 2)
  }

  /** The number of `1` bits, as the `while (x > 0)` loop counts them. */
  function PopCount(x: nat): nat
  {
    if x == 0 then 0 else x % 2 + PopCount(x / 2)
  }

  lemma {:induction false} XorCommutes(a: nat, b: nat)
    decreases a + b
    ensures Xor(a, b) == Xor(b, a)
  {
    if a != 0 || b != 0 {
      XorCommutes(a / 2, b / 2);
    }
  }

  lemma {:induction false} XorZero(a: nat, b: nat)
    decreases a + b
    ensures Xor(a, b) == 0 <==> a == b
  {
    if a != 0 || b != 0 {
      XorZero(a / 2, b / 2);
    }
  }

  lemma {:induction false} XorBound(a: nat, b: nat, n: nat)
    requires a < Pow2(n) && b < Pow2(n)
    decreases n
    ensures Xor(a, b) < Pow2(n)
  {
    if n > 0 && (a != 0 || b != 0) {
      XorBound(a / 2, b / 2, n - 1);
    }
  }

  lemma {:induction false} PopCountZero(x: nat)
    ensures PopCount(x) == 0 <==> x == 0
  {
    if x != 0 {
      PopCountZero(x / 2);
    }
  }

  lemma {:induction false} PopCountBound(x: nat, n: nat)
    requires x < Pow2(n)
    decreases n
    ensures PopCount(x) <= n
  {
    if n > 0 && x != 0 {
      PopCountBound(x / 2, n - 1);
    }
  }

  /** The bits in which digit `i` of the two hashes differ. */
  function DigitDistance(h1: string, h2: string, i: nat): (d: nat)
    requires IsHex(h1) && IsHex(h2) && i < |h1| && i < |h2|
    ensures d <= 4
    ensures d == 0 <==> HexValue(h1[i]) == HexValue(h2[i])
  {
    XorBound(HexValue(h1[i]), HexValue(h2[i]), 4);
    PopCountBound(Xor(HexValue(h1[i]), HexValue(h2[i])), 4);
    PopCountZero(Xor(HexValue(h1[i]), HexValue(h2[i])));
    XorZero(HexValue(h1[i]), HexValue(h2[i]));
    PopCount(Xor(HexValue(h1[i]), HexValue(h2[i])))
  }

  /** The differing bits of the first `n` digits. */
  function DistanceUpTo(h1: string, h2: string, n: nat): nat
    requires IsHex(h1) && IsHex(h2) && n <= |h1| && n <= |h2|
  {
    if n == 0 then 0 else DistanceUpTo(h1, h2, n - 1) + DigitDistance(h1, h2, n - 1)
  }

  /** `hammingDistance`: the differing bits over the common length only. */
  function Distance(h1: string, h2: string): (r: nat)
    requires IsHex(h1) && IsHex(h2)
    ensures r <= 4 * Min(|h1|, |h2|)
  {
    DistanceUpToBounds(h1, h2, Min(|h1|, |h2|));
    DistanceUpTo(h1, h2, Min(|h1|, |h2|))
  }

  lemma {:induction false} DistanceUpToBounds(h1: string, h2: string, n: nat)
    requires IsHex(h1) && IsHex(h2) && n <= |h1| && n <= |h2|
    ensures DistanceUpTo(h1, h2, n) <= 4 * n
    ensures DistanceUpTo(h1, h2, n) == DistanceUpTo(h2, h1, n)
    ensures DistanceUpTo(h1, h2, n) == 0 <==> forall i :: 0 <= i < n ==> HexValue(h1[i]) == HexValue(h2[i])
  {
    if n > 0 {
      DistanceUpToBounds(h1, h2, n - 1);
      XorCommutes(HexValue(h1[n - 1]), HexValue(h2[n - 1]));
      assert DigitDistance(h1, h2, n - 1) == DigitDistance(h2, h1, n - 1);
    }
  }

  /** The distance is symmetric, at most four per compared digit, and zero
      exactly when the common prefix of the hashes has the same digit
      values, in particular between a hash and itself; digits beyond the
      shorter hash never count. */
  lemma DistanceProperties(h1: string, h2: string)
    requires IsHex(h1) && IsHex(h2)
    ensures Distance(h1, h2) == Distance(h2, h1)
    ensures Distance(h1, h2) <= 4 * Min(|h1|, |h2|)
    ensures Distance(h1, h2) == 0 <==> forall i :: 0 <= i < Min(|h1|, |h2|) ==> HexValue(h1[i]) == HexValue(h2[i])
    ensures Distance(h1, h1) == 0
  {
    DistanceUpToBounds(h1, h2, Min(|h1|, |h2|));
    DistanceUpToBounds(h1, h1, |h1|);
  }

  /** Digits past the end of the shorter hash are ignored. */
  lemma DistanceOfPrefix(h1: string, h2: string, n: nat)
    requires IsHex(h1) && IsHex(h2) && Min(|h1|, |h2|) <= n <= |h1|
    ensures IsHex(h1[..n]) && Distance(h1[..n], h2) == Distance(h1, h2)
  {
    var m := Min(|h1|, |h2|);
    assert Min(|h1[..n]|, |h2|) == m;
    DistanceUpToSame(h1[..n], h1, h2, m);
  }

  lemma {:induction false} DistanceUpToSame(a: string, b: string, h2: string, n: nat)
    requires IsHex(a) && IsHex(b) && IsHex(h2) && n <= |a| && n <= |b| && n <= |h2|
    requires a[..n] == b[..n]
    ensures DistanceUpTo(a, h2, n) == DistanceUpTo(b, h2, n)
  {
    if n > 0 {
      assert a[..n - 1] == a[..n][..n - 1] && b[..n - 1] == b[..n][..n - 1];
      assert a[n - 1] == a[..n][n - 1];
      assert b[n - 1] == b[..n][n - 1];
      DistanceUpToSame(a, b, h2, n - 1);
    }
  }
}

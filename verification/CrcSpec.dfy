/** The 32-bit cyclic redundancy check of section 8 of RFC 1952, bit by bit,
    for an arbitrary reflected polynomial, and its algebra over GF(2). */
module CrcSpec {
  import opened Bits

  const ALL_ONES: Word := 0xFFFF_FFFF

  /** The register after one bit, when the message bit has been added to the
      register already. */
  function Step(poly: Word, c: Word): Word {
    if c % 2 == 1 then WordXor(poly, c / 2); Xor(poly, c / 2) else c / 2
  }

  function Steps(poly: Word, n: nat, c: Word): Word {
    if n == 0 then c else Steps(poly, n - 1, Step(poly, c))
  }

  /** One message bit enters the register. */
  function FeedBit(poly: Word, c: Word, bit: bool): Word {
    WordXor(poly, c / 2);
    if (c % 2 == 1) != bit then Xor(poly, c / 2) else c / 2
  }

  function FeedBits(poly: Word, c: Word, bits: seq<bool>): Word
    decreases |bits|
  {
    if bits == [] then c else FeedBits(poly, FeedBit(poly, c, bits[0]), bits[1..])
  }

  /** The k low bits of a number, least significant first. */
  function BitsOf(x: nat, k: nat): (bits: seq<bool>)
    ensures |bits| == k
  {
    if k == 0 then [] else [x % 2 == 1] + BitsOf(x / 2, k - 1)
  }

  function MessageBits(s: seq<Byte>): seq<bool> {
    if s == [] then [] else BitsOf(s[0], 8) + MessageBits(s[1..])
  }

  /** The checksum: the register starts complemented and is complemented at the end. */
  function Crc(poly: Word, start: Word, s: seq<Byte>): Word {
    WordXor(start, ALL_ONES);
    var end := FeedBits(poly, Xor(start, ALL_ONES), MessageBits(s));
    WordXor(end, ALL_ONES);
    Xor(end, ALL_ONES)
  }

  /** A message as one little-endian number. */
  function Number(s: seq<Byte>): nat {
    if s == [] then 0 else s[0] + 0x100 * Number(s[1..])
  }

  // ----- the step is linear ---------------------------------------------------

  /** Step on numbers of any width, of which the register is a special case. */
  function Wide(poly: Word, x: nat): nat {
    if x % 2 == 1 then Xor(poly, x / 2) else x / 2
  }

  function Wides(poly: Word, n: nat, x: nat): nat {
    if n == 0 then x else Wides(poly, n - 1, Wide(poly, x))
  }

  lemma {:induction false} StepsAreWide(poly: Word, n: nat, c: Word)
    ensures Steps(poly, n, c) == Wides(poly, n, c)
  {
    if n > 0 {
      StepsAreWide(poly, n - 1, Step(poly, c));
    }
  }

  lemma WideXor(poly: Word, a: nat, b: nat)
    ensures Wide(poly, Xor(a, b)) == Xor(Wide(poly, a), Wide(poly, b))
  {
    XorBits(a, b);
    var p, q := a / 2, b / 2;
    if a % 2 == 1 && b % 2 == 1 {
      XorSwap(poly, p, poly, q);
      XorSelf(poly);
    } else if a % 2 == 1 {
      XorAssociates(poly, p, q);
    } else if b % 2 == 1 {
      XorAssociates(poly, p, q);
      XorCommutes(poly, p);
      XorAssociates(p, poly, q);
    }
  }

  lemma {:induction false} WidesXor(poly: Word, n: nat, a: nat, b: nat)
    ensures Wides(poly, n, Xor(a, b)) == Xor(Wides(poly, n, a), Wides(poly, n, b))
  {
    if n > 0 {
      WideXor(poly, a, b);
      WidesXor(poly, n - 1, Wide(poly, a), Wide(poly, b));
    }
  }

  lemma {:induction false} StepsAdd(poly: Word, m: nat, n: nat, c: Word)
    ensures Steps(poly, m + n, c) == Steps(poly, n, Steps(poly, m, c))
  {
    if m > 0 {
      StepsAdd(poly, m - 1, n, Step(poly, c));
    }
  }

  lemma {:induction false} WidesAdd(poly: Word, m: nat, n: nat, x: nat)
    ensures Wides(poly, m + n, x) == Wides(poly, n, Wides(poly, m, x))
  {
    if m > 0 {
      WidesAdd(poly, m - 1, n, Wide(poly, x));
    }
  }

  /** Steps over zero bits only shift. */
  lemma {:induction false} WidesShift(poly: Word, x: nat, k: nat)
    ensures Wides(poly, k, ShiftLeft(x, k)) == x
  {
    if k > 0 {
      WidesShift(poly, x, k - 1);
    }
  }

  lemma WidesByteShift(poly: Word, n: nat, x: nat)
    ensures Wides(poly, n + 8, 0x100 * x) == Wides(poly, n, x)
  {
    ByteShift(x);
    WidesShift(poly, x, 8);
    WidesAdd(poly, 8, n, 0x100 * x);
  }

  /** Eight or more steps, split at the low byte. */
  lemma WidesSplit(poly: Word, n: nat, x: nat)
    ensures Wides(poly, n + 8, x)
         == Xor(Wides(poly, n + 8, x % 0x100), Wides(poly, n, x / 0x100))
  {
    ByteShift(x);
    ByteShift(x / 0x100);
    SplitBits(x, 8);
    WidesXor(poly, n + 8, x % 0x100, 0x100 * (x / 0x100));
    WidesByteShift(poly, n, x / 0x100);
  }

  // ----- the checksum in closed form --------------------------------------------

  /** Feeding k bits equals adding them to the register and then stepping k times. */
  lemma {:induction false} FeedBitsOf(poly: Word, c: Word, x: nat, k: nat)
    requires x < Pow2(k)
    ensures FeedBits(poly, c, BitsOf(x, k)) == Wides(poly, k, Xor(c, x))
    decreases k
  {
    if k > 0 {
      var bits := BitsOf(x, k);
      assert bits[1..] == BitsOf(x / 2, k - 1);
      FeedBitsOf(poly, FeedBit(poly, c, bits[0]), x / 2, k - 1);
      FeedIsWide(poly, c, x);
    } else {
      XorCommutes(c, 0);
    }
  }

  lemma FeedIsWide(poly: Word, c: Word, x: nat)
    ensures Wide(poly, Xor(c, x)) == Xor(FeedBit(poly, c, x % 2 == 1), x / 2)
  {
    XorBits(c, x);
    XorAssociates(poly, c / 2, x / 2);
  }

  lemma {:induction false} FeedBitsConcat(poly: Word, c: Word, s: seq<bool>, t: seq<bool>)
    ensures FeedBits(poly, c, s + t) == FeedBits(poly, FeedBits(poly, c, s), t)
    decreases |s|
  {
    if s == [] {
      assert s + t == t;
    } else {
      assert (s + t)[1..] == s[1..] + t;
      FeedBitsConcat(poly, FeedBit(poly, c, s[0]), s[1..], t);
    }
  }

  /** The register after a message is a fixed linear map of the register plus the
      message read as a number: the message's length is all that chooses the map. */
  lemma {:induction false} FeedIsLinear(poly: Word, c: Word, s: seq<Byte>)
    ensures FeedBits(poly, c, MessageBits(s)) == Wides(poly, 8 * |s|, Xor(c, Number(s)))
    decreases |s|
  {
    if s == [] {
      XorCommutes(c, 0);
    } else {
      var rest := Number(s[1..]);
      var n := 8 * |s[1..]|;
      var d := FeedBits(poly, c, BitsOf(s[0], 8));
      FeedBitsConcat(poly, c, BitsOf(s[0], 8), MessageBits(s[1..]));
      FeedIsLinear(poly, d, s[1..]);
      calc {
        Wides(poly, n, Xor(d, rest));
        { WidesXor(poly, n, d, rest); }
        Xor(Wides(poly, n, d), Wides(poly, n, rest));
        { Widths(); FeedBitsOf(poly, c, s[0], 8); WidesAdd(poly, 8, n, Xor(c, s[0])); }
        Xor(Wides(poly, n + 8, Xor(c, s[0])), Wides(poly, n, rest));
        { WidesByteShift(poly, n, rest); }
        Xor(Wides(poly, n + 8, Xor(c, s[0])), Wides(poly, n + 8, 0x100 * rest));
        { WidesXor(poly, n + 8, Xor(c, s[0]), 0x100 * rest); }
        Wides(poly, n + 8, Xor(Xor(c, s[0]), 0x100 * rest));
        { XorAssociates(c, s[0], 0x100 * rest); NumberSplit(s); }
        Wides(poly, n + 8, Xor(c, Number(s)));
      }
    }
  }

  lemma NumberSplit(s: seq<Byte>)
    requires s != []
    ensures Xor(s[0], 0x100 * Number(s[1..])) == Number(s)
  {
    Widths();
    ByteShift(Number(s[1..]));
    XorDisjoint(s[0], Number(s[1..]), 8);
  }

  /** Changing the register before a message changes the result by the same
      change carried through as many zero bytes. */
  lemma FeedDifference(poly: Word, c: Word, d: Word, s: seq<Byte>)
    ensures Xor(c, d) < 0x1_0000_0000
    ensures FeedBits(poly, Xor(c, d), MessageBits(s))
         == Xor(FeedBits(poly, c, MessageBits(s)), Steps(poly, 8 * |s|, d))
  {
    WordXor(c, d);
    var n, m := 8 * |s|, Number(s);
    calc {
      FeedBits(poly, Xor(c, d), MessageBits(s));
      { FeedIsLinear(poly, Xor(c, d), s); }
      Wides(poly, n, Xor(Xor(c, d), m));
      { XorAssociates(c, d, m); XorCommutes(d, m); XorAssociates(c, m, d); }
      Wides(poly, n, Xor(Xor(c, m), d));
      { WidesXor(poly, n, Xor(c, m), d); StepsAreWide(poly, n, d); FeedIsLinear(poly, c, s); }
      Xor(FeedBits(poly, c, MessageBits(s)), Steps(poly, n, d));
    }
  }

  lemma {:induction false} MessageBitsConcat(s: seq<Byte>, t: seq<Byte>)
    ensures MessageBits(s + t) == MessageBits(s) + MessageBits(t)
  {
    if s == [] {
      assert s + t == t;
    } else {
      assert (s + t)[1..] == s[1..] + t;
      MessageBitsConcat(s[1..], t);
    }
  }

  /** The checksum of a concatenation, from the checksums of the two parts:
      the first is carried through as many zero bytes as the second part has. */
  lemma CrcConcat(poly: Word, start: Word, s: seq<Byte>, t: seq<Byte>)
    ensures Crc(poly, start, s + t)
         == Xor(Steps(poly, 8 * |t|, Crc(poly, start, s)), Crc(poly, 0, t))
  {
    WordXor(start, ALL_ONES);
    var c := FeedBits(poly, Xor(start, ALL_ONES), MessageBits(s));
    var crc := Crc(poly, start, s);
    var bits := MessageBits(t);
    MessageBitsConcat(s, t);
    FeedBitsConcat(poly, Xor(start, ALL_ONES), MessageBits(s), bits);
    XorCancels(c, ALL_ONES);
    XorCommutes(crc, ALL_ONES);
    FeedDifference(poly, ALL_ONES, crc, t);
    var e, z := FeedBits(poly, ALL_ONES, bits), Steps(poly, 8 * |t|, crc);
    assert FeedBits(poly, c, bits) == Xor(e, z);
    XorCommutes(e, z);
    XorAssociates(z, e, ALL_ONES);
  }

  function Zeros(n: nat): seq<Byte> {
    seq(n, _ => 0)
  }

  lemma {:induction false} NumberOfZeros(n: nat)
    ensures Number(Zeros(n)) == 0
  {
    if n > 0 {
      assert Zeros(n)[1..] == Zeros(n - 1);
      NumberOfZeros(n - 1);
    }
  }

  /** The checksum of a block of zeros. */
  lemma CrcOfZeros(poly: Word, start: Word, n: nat)
    ensures Xor(start, ALL_ONES) < 0x1_0000_0000
    ensures Crc(poly, start, Zeros(n))
         == Xor(Steps(poly, 8 * n, Xor(start, ALL_ONES)), ALL_ONES)
  {
    WordXor(start, ALL_ONES);
    var c := Xor(start, ALL_ONES);
    FeedIsLinear(poly, c, Zeros(n));
    NumberOfZeros(n);
    XorCommutes(c, 0);
    StepsAreWide(poly, 8 * n, c);
  }

  /** Byte by byte exclusive or of two blocks of the same length. */
  function XorBlocks(s: seq<Byte>, t: seq<Byte>): (r: seq<Byte>)
    requires |s| == |t|
    ensures |r| == |s|
  {
    if s == [] then []
    else
      Widths();
      XorBound(s[0], t[0], 8);
      [Xor(s[0], t[0])] + XorBlocks(s[1..], t[1..])
  }

  lemma {:induction false} NumberOfXor(s: seq<Byte>, t: seq<Byte>)
    requires |s| == |t|
    ensures Number(XorBlocks(s, t)) == Xor(Number(s), Number(t))
  {
    if s != [] {
      var r := XorBlocks(s, t);
      var p, q := Number(s[1..]), Number(t[1..]);
      NumberOfXor(s[1..], t[1..]);
      assert r[1..] == XorBlocks(s[1..], t[1..]);
      NumberSplit(r);
      NumberSplit(s);
      NumberSplit(t);
      XorSwap(s[0], 0x100 * p, t[0], 0x100 * q);
      ByteShift(p);
      ByteShift(q);
      ByteShift(Xor(p, q));
      ShiftXor(p, q, 8);
    }
  }

  lemma DoubleXor(a: nat, b: nat)
    ensures Xor(2 * a, 2 * b) == 2 * Xor(a, b)
  {
    XorBits(2 * a, 2 * b);
  }

  lemma {:induction false} ShiftXor(p: nat, q: nat, k: nat)
    ensures ShiftLeft(Xor(p, q), k) == Xor(ShiftLeft(p, k), ShiftLeft(q, k))
  {
    if k > 0 {
      ShiftXor(p, q, k - 1);
      DoubleXor(ShiftLeft(p, k - 1), ShiftLeft(q, k - 1));
    }
  }

  /** The checksum is affine: the checksum of the exclusive or of two blocks is
      the exclusive or of three checksums, the third one of zeros. */
  lemma CrcOfXor(poly: Word, start: Word, s: seq<Byte>, t: seq<Byte>)
    requires |s| == |t|
    ensures Crc(poly, start, XorBlocks(s, t))
         == Xor(Xor(Crc(poly, start, s), Crc(poly, start, t)), Crc(poly, start, Zeros(|s|)))
  {
    WordXor(start, ALL_ONES);
    var c, n := Xor(start, ALL_ONES), 8 * |s|;
    var z, a, b := Wides(poly, n, c), Wides(poly, n, Number(s)), Wides(poly, n, Number(t));
    FeedIsLinear(poly, c, XorBlocks(s, t));
    FeedIsLinear(poly, c, s);
    FeedIsLinear(poly, c, t);
    FeedIsLinear(poly, c, Zeros(|s|));
    NumberOfXor(s, t);
    NumberOfZeros(|s|);
    XorCommutes(c, 0);
    WidesXor(poly, n, c, Number(s));
    WidesXor(poly, n, c, Number(t));
    WidesXor(poly, n, c, Xor(Number(s), Number(t)));
    WidesXor(poly, n, Number(s), Number(t));
    AffineSum(z, a, b, ALL_ONES);
  }

  lemma AffineSum(z: nat, a: nat, b: nat, f: nat)
    ensures Xor(Xor(z, Xor(a, b)), f)
         == Xor(Xor(Xor(Xor(z, a), f), Xor(Xor(z, b), f)), Xor(z, f))
  {
    XorSwap(Xor(z, a), f, Xor(z, b), f);
    XorSelf(f);
    XorCommutes(Xor(Xor(z, a), Xor(z, b)), 0);
    XorSwap(z, a, z, b);
    XorSelf(z);
    XorAssociates(Xor(a, b), z, f);
    XorCommutes(Xor(a, b), z);
  }
}

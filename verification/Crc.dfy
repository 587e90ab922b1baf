/** The table-driven checksum of the file system: slicing by four bytes, and
    tables that carry a checksum through runs of zero bytes. */
module Crc {
  import opened Bits
  import opened CrcSpec

  const CRC_POLY: Word := 0xEDB8_8320

  /** Row j, entry i of the slicing tables. */
  ghost predicate IsMainTable(poly: Word, table: array2<Word>)
    reads table
  {
    && table.Length0 == 4 && table.Length1 == 256
    && forall j, i | 0 <= j < 4 && 0 <= i < 256 :: table[j, i] == Wides(poly, 8 * j + 8, i)
  }

  /** A matrix, given by its columns, that performs n steps. */
  ghost predicate Represents(poly: Word, m: seq<Word>, n: nat) {
    |m| == 32 && forall i | 0 <= i < 32 :: m[i] == Wides(poly, n, Pow2(i))
  }

  /** What entry k of row j carries through 2^i zero bytes: byte j of a word. */
  function CombineEntry(poly: Word, i: nat, j: nat, k: nat): nat {
    Wides(poly, 8 * Pow2(i), ShiftLeft(k, 8 * j))
  }

  ghost predicate IsCombineTable(poly: Word, table: array3<Word>)
    reads table
  {
    && table.Length0 == 32 && table.Length1 == 4 && table.Length2 == 256
    && forall i, j, k | 0 <= i < 32 && 0 <= j < 4 && 0 <= k < 256 ::
         table[i, j, k] == CombineEntry(poly, i, j, k)
  }

  // ----- facts about single lookups ------------------------------------------------

  /** One lookup in the first row, the rest of the register shifted. */
  lemma OneByteLookup(poly: Word, c: Word, b: Byte)
    ensures Xor(c, b) < 0x1_0000_0000
    ensures Xor(Wides(poly, 8, Xor(c, b) % 0x100), c / 0x100) == Wides(poly, 8, Xor(c, b))
  {
    WordXor(c, b);
    Widths();
    XorHigh(c, b, 8);
    ByteShift(Xor(c, b));
    ByteShift(c);
    WidesSplit(poly, 0, Xor(c, b));
  }

  /** Four lookups, one per byte of the register. */
  lemma FourByteLookup(poly: Word, x: Word)
    ensures Xor(Xor(Xor(Wides(poly, 32, x % 0x100), Wides(poly, 24, x / 0x100 % 0x100)),
                    Wides(poly, 16, x / 0x1_0000 % 0x100)), Wides(poly, 8, x / 0x100_0000))
         == Wides(poly, 32, x)
  {
    var y, z, w := x / 0x100, x / 0x1_0000, x / 0x100_0000;
    assert y / 0x100 == z && z / 0x100 == w && w / 0x100 == 0;
    var a, b := Wides(poly, 32, x % 0x100), Wides(poly, 24, y % 0x100);
    var c, d := Wides(poly, 16, z % 0x100), Wides(poly, 8, w);
    WidesSplit(poly, 24, x);
    WidesSplit(poly, 16, y);
    WidesSplit(poly, 8, z);
    assert Wides(poly, 32, x) == Xor(a, Xor(b, Xor(c, d)));
    XorAssociates(a, b, Xor(c, d));
    XorAssociates(Xor(a, b), c, d);
  }

  /** A register step that consumes the first n bytes of a message. */
  lemma FeedPrefix(poly: Word, c: Word, s: seq<Byte>, n: nat)
    requires n <= |s|
    ensures FeedBits(poly, c, MessageBits(s[..n])) == Wides(poly, 8 * n, Xor(c, Number(s[..n])))
    ensures FeedBits(poly, c, MessageBits(s))
         == FeedBits(poly, FeedBits(poly, c, MessageBits(s[..n])), MessageBits(s[n..]))
  {
    assert s == s[..n] + s[n..];
    MessageBitsConcat(s[..n], s[n..]);
    FeedBitsConcat(poly, c, MessageBits(s[..n]), MessageBits(s[n..]));
    FeedIsLinear(poly, c, s[..n]);
  }

  /** A 32-bit load on a little-endian machine. */
  function LittleEndian(a: nat, b: nat, c: nat, d: nat): nat {
    a + 0x100 * b + 0x1_0000 * c + 0x100_0000 * d
  }

  lemma NumberOfFour(s: seq<Byte>)
    requires |s| == 4
    ensures Number(s) == LittleEndian(s[0], s[1], s[2], s[3])
  {
    var t, u, v := s[1..], s[2..], s[3..];
    assert t[1..] == u && u[1..] == v && v[1..] == [];
    assert Number(v) == s[3];
    assert Number(u) == s[2] + 0x100 * Number(v);
    assert Number(t) == s[1] + 0x100 * Number(u);
  }

  // ----- facts about matrices ---------------------------------------------------------

  /** Peeling the low bit off a shifted number. */
  lemma PeelBit(poly: Word, n: nat, v: nat, j: nat)
    ensures Wides(poly, n, ShiftLeft(v, j))
         == Xor(if v % 2 == 1 then Wides(poly, n, Pow2(j)) else 0,
                Wides(poly, n, ShiftLeft(v / 2, j + 1)))
  {
    ShiftsAdd(v / 2, 1, j);
    assert ShiftLeft(v / 2, 1) == 2 * (v / 2);
    if v % 2 == 1 {
      XorDisjoint(1, v / 2, 1);
      ShiftXor(1, 2 * (v / 2), j);
      WidesXor(poly, n, Pow2(j), ShiftLeft(v / 2, j + 1));
    }
  }

  lemma {:induction false} WidesOfZero(poly: Word, n: nat)
    ensures Wides(poly, n, 0) == 0
  {
    if n > 0 {
      WidesOfZero(poly, n - 1);
    }
  }

  lemma {:induction false} ShiftOfZero(j: nat)
    ensures ShiftLeft(0, j) == 0
  {
    if j > 0 {
      ShiftOfZero(j - 1);
    }
  }

  lemma {:induction false} PowWord(i: nat)
    requires i < 32
    ensures Pow2(i) < 0x1_0000_0000
  {
    Widths();
    PowGrows(i, 32);
  }

  lemma {:induction false} PowGrows(i: nat, j: nat)
    requires i <= j
    ensures Pow2(i) <= Pow2(j)
  {
    if i < j {
      PowGrows(i, j - 1);
    }
  }

  /** n steps twice are 2n steps, column by column. */
  lemma SquareColumn(poly: Word, n: nat, i: nat)
    ensures Wides(poly, n, Wides(poly, n, Pow2(i))) == Wides(poly, 2 * n, Pow2(i))
  {
    WidesAdd(poly, n, n, Pow2(i));
  }

  /** Splitting off the low byte of a shifted number. */
  lemma PeelByte(poly: Word, n: nat, x: nat, j: nat)
    ensures Wides(poly, n, ShiftLeft(x, j))
         == Xor(Wides(poly, n, ShiftLeft(x % 0x100, j)), Wides(poly, n, ShiftLeft(x / 0x100, j + 8)))
  {
    ByteShift(x);
    SplitBits(x, 8);
    ShiftXor(x % 0x100, ShiftLeft(x / 0x100, 8), j);
    ShiftsAdd(x / 0x100, 8, j);
    WidesXor(poly, n, ShiftLeft(x % 0x100, j), ShiftLeft(x / 0x100, j + 8));
  }

  /** The four lookups that carry a word through 2^i zero bytes. */
  lemma CombineLookup(poly: Word, i: nat, x: Word)
    ensures Xor(Xor(Xor(CombineEntry(poly, i, 3, x / 0x100_0000),
                        CombineEntry(poly, i, 2, x / 0x1_0000 % 0x100)),
                    CombineEntry(poly, i, 1, x / 0x100 % 0x100)),
                CombineEntry(poly, i, 0, x % 0x100))
         == Wides(poly, 8 * Pow2(i), x)
  {
    PeelWord(poly, 8 * Pow2(i), x, 8, 16, 24);
  }

  /** Splitting a word into its four bytes, top byte first. */
  lemma PeelWord(poly: Word, n: nat, x: nat, j: nat, k: nat, l: nat)
    requires j == 8 && k == j + 8 && l == k + 8
    ensures Wides(poly, n, x)
         == Xor(Xor(Xor(Wides(poly, n, ShiftLeft(x / 0x100_0000, l)),
                        Wides(poly, n, ShiftLeft(x / 0x1_0000 % 0x100, k))),
                    Wides(poly, n, ShiftLeft(x / 0x100 % 0x100, j))),
                Wides(poly, n, ShiftLeft(x % 0x100, 0)))
  {
    var y, z, w := x / 0x100, x / 0x1_0000, x / 0x100_0000;
    assert y / 0x100 == z && z / 0x100 == w;
    PeelByte(poly, n, x, 0);
    PeelByte(poly, n, y, j);
    PeelByte(poly, n, z, k);
    XorReverse(Wides(poly, n, ShiftLeft(x % 0x100, 0)), Wides(poly, n, ShiftLeft(y % 0x100, j)),
               Wides(poly, n, ShiftLeft(z % 0x100, k)), Wides(poly, n, ShiftLeft(w, l)));
  }

  lemma XorReverse(a: nat, b: nat, c: nat, d: nat)
    ensures Xor(a, Xor(b, Xor(c, d))) == Xor(Xor(Xor(d, c), b), a)
  {
    XorCommutes(c, d);
    XorCommutes(b, Xor(d, c));
    XorCommutes(a, Xor(Xor(d, c), b));
  }

  /** The number of zero bytes left to append, when the low bit is taken. */
  lemma TakeBit(poly: Word, c: Word, len: nat, i: nat)
    ensures len % 2 == 1
        ==> Steps(poly, 8 * ShiftLeft(len, i), c)
            == Steps(poly, 8 * ShiftLeft(len / 2, i + 1), Steps(poly, 8 * Pow2(i), c))
    ensures len % 2 == 0 ==> ShiftLeft(len, i) == ShiftLeft(len / 2, i + 1)
  {
    ShiftsAdd(len / 2, 1, i);
    assert ShiftLeft(len / 2, 1) == 2 * (len / 2);
    if len % 2 == 1 {
      ShiftSum(1, 2 * (len / 2), i);
      StepsAdd(poly, 8 * Pow2(i), 8 * ShiftLeft(len / 2, i + 1), c);
    }
  }

  lemma {:induction false} ShiftSum(a: nat, b: nat, i: nat)
    ensures ShiftLeft(a + b, i) == ShiftLeft(a, i) + ShiftLeft(b, i)
  {
    if i > 0 {
      ShiftSum(a, b, i - 1);
    }
  }

  /** Squares a matrix given by its columns. */
  method MatrixSquare(poly: Word, sqr: array<Word>, m: array<Word>, ghost n: nat)
    requires sqr != m && sqr.Length == 32 && Represents(poly, m[..], n)
    modifies sqr
    ensures Represents(poly, sqr[..], 2 * n)
  {
    for i := 0 to 32
      invariant forall k | 0 <= k < i :: sqr[k] == Wides(poly, 2 * n, Pow2(k))
    {
      var s := ColumnSum(poly, m, m[i], n);
      SquareColumn(poly, n, i);
      sqr[i] := s;
    }
  }

  /** The exclusive or of the columns selected by the bits of v. */
  method ColumnSum(poly: Word, m: array<Word>, column: Word, ghost n: nat) returns (s: Word)
    requires m.Length == 32 && Represents(poly, m[..], n)
    ensures s == Wides(poly, n, column)
  {
    var j := 0;
    var v: nat := column;
    s := 0;
    Widths();
    while v != 0 && j < 32
      invariant 0 <= j <= 32
      invariant v < Pow2(32 - j)
      invariant Xor(s, Wides(poly, n, ShiftLeft(v, j))) == Wides(poly, n, column)
    {
      PeelBit(poly, n, v, j);
      if v % 2 == 1 {
        assert m[..][j] == m[j];
        XorAssociates(s, m[j], Wides(poly, n, ShiftLeft(v / 2, j + 1)));
        WordXor(s, m[j]);
        s := Xor(s, m[j]);
      }
      v := v / 2;
      j := j + 1;
    }
    WidesOfZero(poly, n);
    ShiftOfZero(j);
    XorCommutes(s, 0);
  }

  class CrcTables {
    const poly: Word
    const main: array2<Word>
    const combine: array3<Word>

    ghost predicate Valid()
      reads main, combine
    {
      && IsMainTable(poly, main)
      && IsCombineTable(poly, combine)
    }

    /** Allocates and fills the tables. */
    constructor (poly: Word)
      ensures Valid() && this.poly == poly
      ensures fresh(main) && fresh(combine)
    {
      this.poly := poly;
      main := new Word[4, 256];
      combine := new Word[32, 4, 256];
      new;
      GenerateMainTables();
      GenerateCombineTables();
    }

    method GenerateMainTables()
      requires main.Length0 == 4 && main.Length1 == 256
      modifies main
      ensures IsMainTable(poly, main)
    {
      for i := 0 to 256
        invariant forall k | 0 <= k < i :: main[0, k] == Wides(poly, 8, k)
      {
        var c := EightSteps(poly, i);
        main[0, i] := c;
      }
      for i := 0 to 256
        invariant forall k | 0 <= k < 256 :: main[0, k] == Wides(poly, 8, k)
        invariant forall j, k | 0 <= j < 4 && 0 <= k < i :: main[j, k] == Wides(poly, 8 * j + 8, k)
      {
        var c := main[0, i];
        c := NextEntry(c, 8, i);
        main[1, i] := c;
        c := NextEntry(c, 16, i);
        main[2, i] := c;
        c := NextEntry(c, 24, i);
        main[3, i] := c;
      }
    }

    /** The entry one row further on: one more zero byte. */
    method NextEntry(c: Word, ghost n: nat, ghost i: nat) returns (d: Word)
      requires main.Length0 == 4 && main.Length1 == 256
      requires forall k | 0 <= k < 256 :: main[0, k] == Wides(poly, 8, k)
      requires c == Wides(poly, n, i)
      ensures d == Wides(poly, n + 8, i)
    {
      WidesAdd(poly, n, 8, i);
      OneByteLookup(poly, c, 0);
      XorCommutes(c, 0);
      WordXor(main[0, c % 0x100], c / 0x100);
      d := Xor(main[0, c % 0x100], c / 0x100);
    }

    /** The checksum of a block that starts at the given address, from the given
        start value. */
    method Compute(crc: Word, block: seq<Byte>, address: nat) returns (r: Word)
      requires IsMainTable(poly, main)
      ensures r == Crc(poly, crc, block)
    {
      WordXor(crc, ALL_ONES);
      var c: Word := Xor(crc, ALL_ONES);
      var pos: nat, leng: nat := 0, |block|;
      ghost var goal := FeedBits(poly, c, MessageBits(block));
      assert block[0..] == block;
      while leng != 0 && (address + pos) % 4 != 0
        invariant pos + leng == |block|
        invariant FeedBits(poly, c, MessageBits(block[pos..])) == goal
      {
        c := OneByte(c, block, pos);
        pos, leng := pos + 1, leng - 1;
      }
      c := ComputeAligned(c, block, pos);
      WordXor(c, ALL_ONES);
      r := Xor(c, ALL_ONES);
    }

    /** The rest of the block, once it is aligned. */
    method ComputeAligned(crc: Word, block: seq<Byte>, start: nat) returns (c: Word)
      requires IsMainTable(poly, main) && start <= |block|
      ensures c == FeedBits(poly, crc, MessageBits(block[start..]))
    {
      c := crc;
      var pos: nat, leng: nat := start, |block| - start;
      ghost var goal := FeedBits(poly, crc, MessageBits(block[start..]));
      while leng >= 32
        invariant pos + leng == |block|
        invariant FeedBits(poly, c, MessageBits(block[pos..])) == goal
      {
        c := ThirtyTwoBytes(c, block, pos);
        pos, leng := pos + 32, leng - 32;
      }
      while leng >= 4
        invariant pos + leng == |block|
        invariant FeedBits(poly, c, MessageBits(block[pos..])) == goal
      {
        c := FourBytes(c, block, pos);
        pos, leng := pos + 4, leng - 4;
      }
      while leng != 0
        invariant pos + leng == |block|
        invariant FeedBits(poly, c, MessageBits(block[pos..])) == goal
      {
        c := OneByte(c, block, pos);
        pos, leng := pos + 1, leng - 1;
      }
      assert block[pos..] == [];
    }

    method OneByte(c: Word, block: seq<Byte>, pos: nat) returns (d: Word)
      requires IsMainTable(poly, main) && pos < |block|
      ensures FeedBits(poly, d, MessageBits(block[pos + 1..]))
           == FeedBits(poly, c, MessageBits(block[pos..]))
    {
      var b := block[pos];
      OneByteLookup(poly, c, b);
      WordXor(main[0, Xor(c, b) % 0x100], c / 0x100);
      d := Xor(main[0, Xor(c, b) % 0x100], c / 0x100);
      ghost var s := block[pos..];
      FeedPrefix(poly, c, s, 1);
      assert s[..1] == [b] && s[1..] == block[pos + 1..];
      assert Number([b]) == b;
    }

    method ThirtyTwoBytes(crc: Word, block: seq<Byte>, pos: nat) returns (c: Word)
      requires IsMainTable(poly, main) && pos + 32 <= |block|
      ensures FeedBits(poly, c, MessageBits(block[pos + 32..]))
           == FeedBits(poly, crc, MessageBits(block[pos..]))
    {
      c := FourBytes(crc, block, pos);
      c := FourBytes(c, block, pos + 4);
      c := FourBytes(c, block, pos + 8);
      c := FourBytes(c, block, pos + 12);
      c := FourBytes(c, block, pos + 16);
      c := FourBytes(c, block, pos + 20);
      c := FourBytes(c, block, pos + 24);
      c := FourBytes(c, block, pos + 28);
    }

    method FourBytes(c: Word, block: seq<Byte>, pos: nat) returns (d: Word)
      requires IsMainTable(poly, main) && pos + 4 <= |block|
      ensures FeedBits(poly, d, MessageBits(block[pos + 4..]))
           == FeedBits(poly, c, MessageBits(block[pos..]))
    {
      var w: Word := LittleEndian(block[pos], block[pos + 1], block[pos + 2], block[pos + 3]);
      WordXor(c, w);
      d := FourLookups(Xor(c, w));
      ghost var s := block[pos..];
      FeedPrefix(poly, c, s, 4);
      assert s[4..] == block[pos + 4..];
      NumberOfFour(s[..4]);
    }

    method FourLookups(x: Word) returns (d: Word)
      requires IsMainTable(poly, main)
      ensures d == Wides(poly, 32, x)
    {
      var a, b := main[3, x % 0x100], main[2, x / 0x100 % 0x100];
      var c, e := main[1, x / 0x1_0000 % 0x100], main[0, x / 0x100_0000];
      FourByteLookup(poly, x);
      WordXor(a, b);
      WordXor(Xor(a, b), c);
      WordXor(Xor(Xor(a, b), c), e);
      d := Xor(Xor(Xor(a, b), c), e);
    }

    method GenerateCombineTables()
      requires combine.Length0 == 32 && combine.Length1 == 4 && combine.Length2 == 256
      modifies combine
      ensures IsCombineTable(poly, combine)
    {
      var m1, m2 := OneStepMatrix(poly);
      MatrixSquare(poly, m2, m1, 1);
      MatrixSquare(poly, m1, m2, 2);
      for i := 0 to 32
        invariant m1.Length == 32 && m2.Length == 32
        invariant Represents(poly, if i % 2 == 0 then m1[..] else m2[..], 4 * Pow2(i))
        invariant forall h, j, k | 0 <= h < i && 0 <= j < 4 && 0 <= k < 256 ::
                    combine[h, j, k] == CombineEntry(poly, h, j, k)
      {
        var mc;
        if i % 2 == 1 {
          MatrixSquare(poly, m1, m2, 4 * Pow2(i));
          mc := m1;
        } else {
          MatrixSquare(poly, m2, m1, 4 * Pow2(i));
          mc := m2;
        }
        assert 2 * (4 * Pow2(i)) == 8 * Pow2(i) == 4 * Pow2(i + 1);
        FillLevel(i, mc);
      }
    }

    method FillLevel(i: nat, mc: array<Word>)
      requires combine.Length0 == 32 && combine.Length1 == 4 && combine.Length2 == 256 && i < 32
      requires Represents(poly, mc[..], 8 * Pow2(i))
      requires forall h, j, k | 0 <= h < i && 0 <= j < 4 && 0 <= k < 256 ::
                 combine[h, j, k] == CombineEntry(poly, h, j, k)
      modifies combine
      ensures forall h, j, k | 0 <= h <= i && 0 <= j < 4 && 0 <= k < 256 ::
                combine[h, j, k] == CombineEntry(poly, h, j, k)
    {
      for j := 0 to 4
        invariant forall h, l, k | 0 <= h < i && 0 <= l < 4 && 0 <= k < 256 ::
                    combine[h, l, k] == CombineEntry(poly, h, l, k)
        invariant forall l, k | 0 <= l < j && 0 <= k < 256 ::
                    combine[i, l, k] == CombineEntry(poly, i, l, k)
      {
        for k := 0 to 256
          invariant forall h, l, q | 0 <= h < i && 0 <= l < 4 && 0 <= q < 256 ::
                      combine[h, l, q] == CombineEntry(poly, h, l, q)
          invariant forall l, q | 0 <= l < j && 0 <= q < 256 ::
                      combine[i, l, q] == CombineEntry(poly, i, l, q)
          invariant forall q | 0 <= q < k :: combine[i, j, q] == CombineEntry(poly, i, j, q)
        {
          var sum := EntrySum(poly, mc, j, k, 8 * Pow2(i));
          combine[i, j, k] := sum;
        }
      }
    }

    /** The checksum of a concatenation from the checksums of its two parts. */
    method Combine(crc1: Word, crc2: Word, leng2: Word) returns (r: Word)
      requires IsCombineTable(poly, combine)
      ensures r == Xor(Steps(poly, 8 * leng2, crc1), crc2)
    {
      var i := 0;
      var c, len: nat := crc1, leng2;
      Widths();
      while len != 0
        invariant 0 <= i <= 32 && len < Pow2(32 - i)
        invariant c < 0x1_0000_0000
        invariant Steps(poly, 8 * ShiftLeft(len, i), c) == Steps(poly, 8 * leng2, crc1)
      {
        TakeBit(poly, c, len, i);
        if len % 2 == 1 {
          c := CombineWord(i, c);
        }
        i, len := i + 1, len / 2;
      }
      ShiftOfZero(i);
      WordXor(c, crc2);
      r := Xor(c, crc2);
    }

    method CombineWord(i: nat, x: Word) returns (d: Word)
      requires IsCombineTable(poly, combine) && i < 32
      ensures d == Steps(poly, 8 * Pow2(i), x)
    {
      CombineLookup(poly, i, x);
      StepsAreWide(poly, 8 * Pow2(i), x);
      var a, b := combine[i, 3, x / 0x100_0000], combine[i, 2, x / 0x1_0000 % 0x100];
      var c, e := combine[i, 1, x / 0x100 % 0x100], combine[i, 0, x % 0x100];
      WordXor(a, b);
      WordXor(Xor(a, b), c);
      WordXor(Xor(Xor(a, b), c), e);
      d := Xor(Xor(Xor(a, b), c), e);
    }

    /** The checksum of a run of zeros. */
    method ZeroBlock(crc: Word, zeros: Word) returns (r: Word)
      requires Valid()
      ensures r == Crc(poly, crc, Zeros(zeros))
    {
      WordXor(crc, ALL_ONES);
      CrcOfZeros(poly, crc, zeros);
      r := Combine(Xor(crc, ALL_ONES), ALL_ONES, zeros);
    }

    /** The checksum of a block padded with zeros. */
    method ZeroExpanded(crc: Word, block: seq<Byte>, address: nat, zeros: Word) returns (r: Word)
      requires Valid()
      ensures r == Crc(poly, crc, block + Zeros(zeros))
    {
      var c := Compute(crc, block, address);
      r := ZeroBlock(c, zeros);
      CrcOfZeros(poly, 0, zeros);
      CrcConcat(poly, crc, block, Zeros(zeros));
      ZeroContinuation(poly, c, zeros);
    }

    /** The checksum of the exclusive or of two blocks from their checksums. */
    method XorBlockCrcs(crc: Word, crcBlock1: Word, crcBlock2: Word, leng: Word,
                        ghost block1: seq<Byte>, ghost block2: seq<Byte>) returns (r: Word)
      requires Valid()
      requires |block1| == |block2| == leng
      requires crcBlock1 == Crc(poly, crc, block1) && crcBlock2 == Crc(poly, crc, block2)
      ensures r == Crc(poly, crc, XorBlocks(block1, block2))
    {
      var z := ZeroBlock(crc, leng);
      WordXor(crcBlock1, crcBlock2);
      WordXor(Xor(crcBlock1, crcBlock2), z);
      r := Xor(Xor(crcBlock1, crcBlock2), z);
      CrcOfXor(poly, crc, block1, block2);
    }
  }

  /** Continuing a checksum over zeros, and combining it with the checksum of zeros, agree. */
  lemma ZeroContinuation(poly: Word, c: Word, n: nat)
    ensures Crc(poly, c, Zeros(n)) == Xor(Steps(poly, 8 * n, c), Crc(poly, 0, Zeros(n)))
  {
    CrcConcat(poly, c, [], Zeros(n));
    assert [] + Zeros(n) == Zeros(n);
    XorCancels(c, ALL_ONES);
  }

  method EightSteps(poly: Word, i: Word) returns (c: Word)
    ensures c == Wides(poly, 8, i)
  {
    StepsAreWide(poly, 8, i);
    c := i;
    c := Step(poly, c);
    assert Steps(poly, 8, i) == Steps(poly, 7, c);
    c := Step(poly, c);
    assert Steps(poly, 8, i) == Steps(poly, 6, c);
    c := Step(poly, c);
    assert Steps(poly, 8, i) == Steps(poly, 5, c);
    c := Step(poly, c);
    assert Steps(poly, 8, i) == Steps(poly, 4, c);
    c := Step(poly, c);
    assert Steps(poly, 8, i) == Steps(poly, 3, c);
    c := Step(poly, c);
    assert Steps(poly, 8, i) == Steps(poly, 2, c);
    c := Step(poly, c);
    assert Steps(poly, 8, i) == Steps(poly, 1, c);
    c := Step(poly, c);
  }

  /** The matrix of one step, and a scratch matrix. */
  method OneStepMatrix(poly: Word) returns (m1: array<Word>, m2: array<Word>)
    ensures fresh(m1) && fresh(m2) && m1 != m2 && m2.Length == 32
    ensures Represents(poly, m1[..], 1)
  {
    m1, m2 := new Word[32], new Word[32];
    m1[0] := poly;
    var j: nat := 1;
    for i := 1 to 32
      invariant j == Pow2(i - 1)
      invariant forall k | 0 <= k < i :: m1[k] == Wides(poly, 1, Pow2(k))
    {
      PowWord(i - 1);
      assert Wides(poly, 1, Pow2(i)) == Pow2(i) / 2 == j;
      m1[i] := j;
      j := 2 * j;
    }
  }

  /** One combine-table entry: the columns of byte j that the bits of k select. */
  method EntrySum(poly: Word, mc: array<Word>, j: nat, k: nat, ghost n: nat) returns (sum: Word)
    requires Represents(poly, mc[..], n) && j < 4 && k < 256
    ensures sum == Wides(poly, n, ShiftLeft(k, 8 * j))
  {
    sum := 0;
    var l: nat, m := k, 8 * j;
    Widths();
    while l != 0
      invariant 8 * j <= m <= 8 * j + 8 && l < Pow2(8 * j + 8 - m)
      invariant Xor(sum, Wides(poly, n, ShiftLeft(l, m))) == Wides(poly, n, ShiftLeft(k, 8 * j))
    {
      PeelBit(poly, n, l, m);
      if l % 2 == 1 {
        assert mc[..][m] == mc[m];
        XorAssociates(sum, mc[m], Wides(poly, n, ShiftLeft(l / 2, m + 1)));
        WordXor(sum, mc[m]);
        sum := Xor(sum, mc[m]);
      }
      l, m := l / 2, m + 1;
    }
    WidesOfZero(poly, n);
    ShiftOfZero(m);
    XorCommutes(sum, 0);
  }

  /** Combining two checksums gives the checksum of the concatenation. */
  method CombineParts(t: CrcTables, start: Word, s: seq<Byte>, crc1: Word, u: seq<Byte>, crc2: Word)
    returns (r: Word)
    requires t.Valid() && |u| < 0x1_0000_0000
    requires crc1 == Crc(t.poly, start, s) && crc2 == Crc(t.poly, 0, u)
    ensures r == Crc(t.poly, start, s + u)
  {
    CrcConcat(t.poly, start, s, u);
    r := t.Combine(crc1, crc2, |u|);
  }
}

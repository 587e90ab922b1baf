/** Numbers in network byte order. */
module DataPack {
  import opened Bits

  type Long = n: nat | n < 0x1_0000_0000_0000_0000

  function Put32(x: Word): (s: seq<Byte>)
    ensures |s| == 4
  {
    [x / 0x100_0000 % 0x100, x / 0x1_0000 % 0x100, x / 0x100 % 0x100, x % 0x100]
  }

  function Get32(s: seq<Byte>): (x: Word)
    requires |s| >= 4
  {
    var a: nat, b: nat, c: nat, d: nat := s[0], s[1], s[2], s[3];
    d + 0x100 * (c + 0x100 * (b + 0x100 * a))
  }

  /** The bytes of the high half, then those of the low half. */
  function Put64(x: Long): (s: seq<Byte>)
    ensures |s| == 8
  {
    Put32(x / 0x1_0000_0000) + Put32(x % 0x1_0000_0000)
  }

  /** The two halves are read like 32-bit numbers; the first is shifted and the second put
      in its place. */
  function Get64(s: seq<Byte>): (x: Long)
    requires |s| >= 8
  {
    Get32(s) * 0x1_0000_0000 + Get32(s[4..])
  }

  lemma FourBytes(x: Word)
    ensures x == x % 0x100 + 0x100 * (x / 0x100 % 0x100 + 0x100 * (x / 0x1_0000 % 0x100
                 + 0x100 * (x / 0x100_0000 % 0x100)))
  {
    var a, b, c := x / 0x100, x / 0x1_0000, x / 0x100_0000;
    assert b == a / 0x100 && c == b / 0x100 && c < 0x100;
  }

  /** Reading undoes writing, whatever follows. */
  lemma GetPut32(x: Word, rest: seq<Byte>)
    ensures Get32(Put32(x) + rest) == x
  {
    FourBytes(x);
  }

  lemma GetPut64(x: Long, rest: seq<Byte>)
    ensures Get64(Put64(x) + rest) == x
  {
    var h, l := x / 0x1_0000_0000, x % 0x1_0000_0000;
    assert Put64(x) + rest == Put32(h) + (Put32(l) + rest);
    assert (Put64(x) + rest)[4..] == Put32(l) + rest;
    GetPut32(h, Put32(l) + rest);
    GetPut32(l, rest);
  }

  function Put64s(xs: seq<Long>): (s: seq<Byte>)
    ensures |s| == 8 * |xs|
  {
    if xs == [] then [] else Put64(xs[0]) + Put64s(xs[1..])
  }

  function Get64s(s: seq<Byte>, n: nat): (xs: seq<Long>)
    requires |s| >= 8 * n
    ensures |xs| == n
    decreases n
  {
    if n == 0 then [] else [Get64(s)] + Get64s(s[8..], n - 1)
  }

  lemma {:induction false} GetPut64s(xs: seq<Long>, rest: seq<Byte>)
    ensures Get64s(Put64s(xs) + rest, |xs|) == xs
    decreases |xs|
  {
    if xs != [] {
      var more := Put64s(xs[1..]) + rest;
      assert Put64s(xs) + rest == Put64(xs[0]) + more;
      GetPut64(xs[0], more);
      assert (Put64(xs[0]) + more)[8..] == more;
      GetPut64s(xs[1..], rest);
    }
  }

  lemma {:induction false} PutAppend(xs: seq<Long>, x: Long)
    ensures Put64s(xs + [x]) == Put64s(xs) + Put64(x)
  {
    if xs == [] {
      assert xs + [x] == [x] && Put64s([x]) == Put64(x) + [];
    } else {
      assert (xs + [x])[1..] == xs[1..] + [x];
      PutAppend(xs[1..], x);
    }
  }

  lemma {:induction false} GetAppend(s: seq<Byte>, n: nat)
    requires |s| >= 8 * (n + 1)
    ensures Get64s(s, n + 1) == Get64s(s, n) + [Get64(s[8 * n..])]
    decreases n
  {
    if n > 0 {
      GetAppend(s[8..], n - 1);
      assert s[8..][8 * (n - 1)..] == s[8 * n..];
    }
  }
}

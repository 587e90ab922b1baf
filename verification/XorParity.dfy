/** The exclusive or as the parity of a slice: how it is computed in place, and that any one
    lost part is the exclusive or of all the others. */
module XorParity {
  import opened Common
  import opened Bits
  import opened Redundancy
  import opened Division
  import opened Striping
  import opened Recovery

  type Bytes = seq<Byte>

  function ByteXor(a: Byte, b: Byte): Byte {
    Widths();
    XorBound(a, b, 8);
    Xor(a, b)
  }

  /** A byte of a part; a part that is too short goes on with zeros. */
  function At(b: Bytes, i: nat): Byte {
    if i < |b| then b[i] else 0
  }

  function XorAt(parts: seq<Bytes>, i: nat): Byte {
    if parts == [] then 0 else ByteXor(At(parts[0], i), XorAt(parts[1..], i))
  }

  /** The exclusive or of some parts, up to a length. */
  function XorAll(parts: seq<Bytes>, n: nat): (r: Bytes)
    ensures |r| == n
  {
    seq(n, i requires 0 <= i < n => XorAt(parts, i))
  }

  lemma {:induction false} XorAtJoin(a: seq<Bytes>, b: seq<Bytes>, i: nat)
    ensures XorAt(a + b, i) == ByteXor(XorAt(a, i), XorAt(b, i))
  {
    if a == [] {
      assert a + b == b;
    } else {
      assert (a + b)[1..] == a[1..] + b;
      XorAtJoin(a[1..], b, i);
      XorAssociates(At(a[0], i), XorAt(a[1..], i), XorAt(b, i));
    }
  }

  lemma XorAtOne(b: Bytes, i: nat)
    ensures XorAt([b], i) == At(b, i)
  {
    assert [b][1..] == [];
    XorCommutes(At(b, i), 0);
  }

  /** One part, and the exclusive or of the others. */
  lemma XorAtWithout(parts: seq<Bytes>, k: nat, i: nat)
    requires k < |parts|
    ensures XorAt(parts, i) == ByteXor(At(parts[k], i), XorAt(parts[..k] + parts[k + 1..], i))
  {
    var a, c := parts[..k], parts[k + 1..];
    var x, y, z := XorAt(a, i), At(parts[k], i), XorAt(c, i);
    assert parts == a + ([parts[k]] + c);
    XorAtJoin(a, [parts[k]] + c, i);
    XorAtJoin([parts[k]], c, i);
    XorAtOne(parts[k], i);
    XorAtJoin(a, c, i);
    assert XorAt(parts, i) == Xor(x, Xor(y, z));
    XorAssociates(x, y, z);
    XorCommutes(x, y);
    XorAssociates(y, x, z);
  }

  /** Parts whose exclusive or is zero: each is the exclusive or of the others. */
  lemma LostIsOthers(parts: seq<Bytes>, k: nat, n: nat)
    requires k < |parts| && |parts[k]| == n && forall i | 0 <= i < n :: XorAt(parts, i) == 0
    ensures XorAll(parts[..k] + parts[k + 1..], n) == parts[k]
  {
    var others := parts[..k] + parts[k + 1..];
    forall i | 0 <= i < n
      ensures XorAt(others, i) == parts[k][i]
    {
      XorAtWithout(parts, k, i);
      var x, y := parts[k][i], XorAt(others, i);
      assert Xor(x, y) == 0;
      XorCancels(x, y);
    }
  }

  lemma ParityBalances(data: seq<Bytes>, n: nat, i: nat)
    requires i < n
    ensures XorAt([XorAll(data, n)] + data, i) == 0
  {
    XorAtJoin([XorAll(data, n)], data, i);
    XorAtOne(XorAll(data, n), i);
    XorSelf(XorAt(data, i));
  }

  // ----- computed in place ------------------------------------------------------------------------

  /** The first bytes of a buffer are combined with those of a source. */
  method BlockXor(dst: array<Byte>, src: Bytes, size: nat)
    requires size <= dst.Length && size <= |src|
    modifies dst
    ensures forall i | 0 <= i < size :: dst[i] == ByteXor(old(dst[i]), src[i])
    ensures forall i | size <= i < dst.Length :: dst[i] == old(dst[i])
  {
    for i := 0 to size
      invariant forall k | 0 <= k < i :: dst[k] == ByteXor(old(dst[k]), src[k])
      invariant forall k | i <= k < dst.Length :: dst[k] == old(dst[k])
    {
      dst[i] := ByteXor(dst[i], src[i]);
    }
  }

  /** The parts that were read are combined in the place of the missing one. */
  method RecoverMissing(given: seq<Bytes>, missingSize: nat) returns (dst: array<Byte>)
    requires given != []
    ensures fresh(dst) && dst[..] == XorAll(given, missingSize)
  {
    dst := new Byte[missingSize](i => At(given[0], i));
    forall i | 0 <= i < missingSize
      ensures dst[i] == XorAt(given[..1], i)
    {
      assert given[..1] == [given[0]];
      XorAtOne(given[0], i);
    }
    for k := 1 to |given|
      invariant forall i | 0 <= i < missingSize :: dst[i] == XorAt(given[..k], i)
    {
      var size := if |given[k]| < missingSize then |given[k]| else missingSize;
      BlockXor(dst, given[k], size);
      forall i | 0 <= i < missingSize
        ensures dst[i] == XorAt(given[..k + 1], i)
      {
        assert given[..k + 1] == given[..k] + [given[k]];
        XorAtJoin(given[..k], [given[k]], i);
        XorAtOne(given[k], i);
        XorCommutes(XorAt(given[..k], i), 0);
      }
    }
    assert given[..|given|] == given;
  }

  // ----- slices with one parity part ----------------------------------------------------------------

  /** The code of a slice with one parity part. */
  function XorCode(): (seq<Bytes>, nat) -> Bytes {
    (stripe: seq<Bytes>, _) => XorAll(stripe, BLOCK_SIZE)
  }

  /** Block `b` of every part of a slice. */
  function StoredParts(chunk: nat -> Bytes, kind: nat, b: nat): (r: seq<Bytes>)
    requires kind < TYPE_COUNT
    ensures |r| == ExpectedParts(kind)
  {
    seq(ExpectedParts(kind), p requires 0 <= p < ExpectedParts(kind) => StoredBlock(chunk, XorCode(), kind, p, b))
  }

  /** One parity block is computed for each stripe. */
  method RecoverParity(dst: array<Bytes>, src: array<Bytes>, ghost chunk: nat -> Bytes, n: nat, ghost first: nat,
                       count: nat)
    requires 0 < n && count <= dst.Length && src != dst && src.Length >= count * n
    requires forall i | 0 <= i < count * n :: src[i] == chunk(first * n + i)
    modifies dst
    ensures forall i | 0 <= i < count :: dst[i] == XorAll(Stripe(chunk, n, first + i), BLOCK_SIZE)
  {
    for i := 0 to count
      invariant forall k | 0 <= k < i :: dst[k] == XorAll(Stripe(chunk, n, first + k), BLOCK_SIZE)
    {
      Product(i + 1, count, n);
      NextMultiple(i, n);
      StridePosition(0, first, i, n);
      var stripe := src[i * n..i * n + n];
      assert stripe == Stripe(chunk, n, first + i);
      var parity := RecoverMissing(stripe, BLOCK_SIZE);
      dst[i] := parity[..];
    }
  }

  /** Whichever part of the slice is lost, its blocks are the exclusive or of the blocks of the
      other parts. */
  lemma LostPartRecovered(chunk: nat -> Bytes, kind: nat, p: nat, b: nat)
    requires IsXor(kind) && kind < TYPE_COUNT && p < ExpectedParts(kind)
    requires forall i :: |chunk(i)| == BLOCK_SIZE
    ensures var parts := StoredParts(chunk, kind, b);
            XorAll(parts[..p] + parts[p + 1..], BLOCK_SIZE) == StoredBlock(chunk, XorCode(), kind, p, b)
  {
    var parts, data := StoredParts(chunk, kind, b), Stripe(chunk, kind, b);
    assert parts == [XorAll(data, BLOCK_SIZE)] + data by {
      forall k | 0 <= k < ExpectedParts(kind)
        ensures parts[k] == ([XorAll(data, BLOCK_SIZE)] + data)[k]
      {
        PartKinds(kind, k);
      }
    }
    forall i | 0 <= i < BLOCK_SIZE
      ensures XorAt(parts, i) == 0
    {
      ParityBalances(data, BLOCK_SIZE, i);
    }
    LostIsOthers(parts, p, BLOCK_SIZE);
  }
}

/** A vector in one word: short vectors are kept in the word itself, longer ones in a block
    of exactly their length. */
module CompactVector {
  import opened Division
  import opened Packed

  type Element = nat

  // ----- layouts --------------------------------------------------------------------------------

  /** The bits of the size, for the three kinds of size types that share a word with the
      pointer. */
  predicate IsSizeBits(bits: nat) {
    bits == 8 || bits == 16 || bits == 20
  }

  function Split(bits: nat): nat
    requires IsSizeBits(bits)
  {
    if bits == 8 then 0x100_0000_0000_0000 else if bits == 16 then 0x1_0000_0000_0000 else 0x1000_0000_0000
  }

  function MaxSize(bits: nat): nat
    requires IsSizeBits(bits)
  {
    if bits == 8 then 0xFF else if bits == 16 then 0xFFFF else 0xF_FFFF
  }

  /** The values of the size type; the sizes of twenty bits are kept in a type of 32. */
  function Sizes(bits: nat): nat
    requires IsSizeBits(bits)
  {
    if bits == 8 then 0x100 else if bits == 16 then 0x1_0000 else 0x1_0000_0000
  }

  function Quotient(a: nat, b: nat): nat
    requires b > 0
  {
    a / b
  }

  /** The layout for elements of a number of bytes: whole bytes below the size bits are used
      for inline elements. */
  function LayoutFor(bits: nat, bytes: nat): (l: Layout)
    requires IsSizeBits(bits) && bytes > 0
  {
    var base := Power(0x100, bytes);
    var inline := (64 - bits) / 8 / bytes;
    PowerPositive(0x100, bytes);
    PowerPositive(base, inline);
    Layout(Split(bits), base, inline, Quotient(Split(bits), Power(base, inline)), MaxSize(bits), Sizes(bits))
  }

  lemma PowersOfBytes()
    ensures Power(0x100, 1) == 0x100 && Power(0x100, 2) == 0x1_0000 && Power(0x100, 3) == 0x100_0000
    ensures Power(0x100, 4) == 0x1_0000_0000 && Power(0x100, 5) == 0x100_0000_0000
    ensures Power(0x100, 6) == 0x1_0000_0000_0000 && Power(0x100, 7) == 0x100_0000_0000_0000
  {
  }

  lemma {:induction false} PowerSum(base: nat, a: nat, b: nat)
    ensures Power(base, a + b) == Power(base, a) * Power(base, b)
    decreases a
  {
    if a > 0 {
      PowerSum(base, a - 1, b);
      assert base * (Power(base, a - 1) * Power(base, b)) == base * Power(base, a - 1) * Power(base, b);
    }
  }

  lemma {:induction false} PowerOfPower(base: nat, a: nat, b: nat)
    ensures Power(Power(base, a), b) == Power(base, a * b)
    decreases b
  {
    if b > 0 {
      PowerOfPower(base, a, b - 1);
      assert a * b == a + a * (b - 1);
      PowerSum(base, a, a * (b - 1));
    }
  }

  /** The inline elements fit below the size bits. */
  lemma LayoutForIsLayout(bits: nat, bytes: nat)
    requires IsSizeBits(bits) && bytes > 0
    ensures IsLayout(LayoutFor(bits, bytes))
  {
    var inline := (64 - bits) / 8 / bytes;
    PowersOfBytes();
    PowerOfPower(0x100, bytes, inline);
    Recompose((64 - bits) / 8, bytes);
    var used := bytes * inline;
    assert used <= 7;
    assert Power(0x100, 0) == 1;
    BaseLarge(bytes);
    Divides(bits, used);
    FewInline(bits, bytes);
  }

  lemma FewInline(bits: nat, bytes: nat)
    requires IsSizeBits(bits) && bytes > 0
    ensures (64 - bits) / 8 / bytes < MaxSize(bits) < Sizes(bits)
  {
    Recompose((64 - bits) / 8, bytes);
    Product(1, bytes, (64 - bits) / 8 / bytes);
  }

  lemma BaseLarge(bytes: nat)
    requires bytes > 0
    ensures Power(0x100, bytes) > 1
  {
  }

  lemma Divides(bits: nat, used: nat)
    requires IsSizeBits(bits) && used <= (64 - bits) / 8
    ensures Power(0x100, used) > 0 && Power(0x100, used) * (Split(bits) / Power(0x100, used)) == Split(bits)
    ensures Split(bits) / Power(0x100, used) > 0
  {
    PowersOfBytes();
    assert Power(0x100, 0) == 1;
    if used == 0 {
    } else if used == 1 {
    } else if used == 2 {
    } else if used == 3 {
    } else if used == 4 {
    } else if used == 5 {
    } else if used == 6 {
    } else {
    }
  }

  // ----- memory -------------------------------------------------------------------------------------

  /** One more, in a size type of so many values. */
  function NextSize(size: nat, sizes: nat): (n: nat)
    requires size < sizes
    ensures n == if size + 1 == sizes then 0 else size + 1
  {
    (size + 1) % sizes
  }

  /** The blocks that are allocated. A block can only be freed while it is allocated, and
      with the length it was allocated with. */
  class Allocator {
    var blocks: map<nat, seq<Element>>

    constructor ()
      ensures blocks == map[]
    {
      blocks := map[];
    }

    method Allocate(p: nat, n: nat)
      requires p !in blocks
      modifies this
      ensures p in blocks && |blocks[p]| == n && blocks - {p} == old(blocks)
      ensures forall i | 0 <= i < n :: blocks[p][i] == 0
    {
      blocks := blocks[p := seq(n, _ => 0)];
    }

    method Free(p: nat, n: nat)
      requires p in blocks && |blocks[p]| == n
      modifies this
      ensures blocks == old(blocks) - {p}
    {
      blocks := blocks - {p};
    }
  }

  datatype Ptr = Null | Inline | Heap(address: nat)

  predicate AllBelow(s: seq<Element>, base: nat) {
    forall i | 0 <= i < |s| :: s[i] < base
  }

  /** Some elements replaced by others, which stand a number of places further on. */
  function Copied(a: seq<Element>, b: seq<Element>, start: nat, shift: nat, count: nat): (r: seq<Element>)
    requires start + count <= |b| && start + shift + count <= |a|
    ensures |r| == |b|
  {
    b[..start] + a[start + shift..start + shift + count] + b[start + count..]
  }

  lemma CopiedNext(a: seq<Element>, b: seq<Element>, start: nat, shift: nat, i: nat)
    requires start + i < |b| && start + shift + i < |a|
    ensures Copied(a, b, start, shift, i)[start + i := a[start + shift + i]] == Copied(a, b, start, shift, i + 1)
  {
  }

  lemma CopiedBeyond(b: seq<Element>, start: nat, shift: nat, i: nat)
    requires start + shift + i < |b|
    ensures Copied(b, b, start, shift, i)[start + shift + i] == b[start + shift + i]
  {
  }

  lemma CopiedBelow(a: seq<Element>, b: seq<Element>, start: nat, shift: nat, count: nat, base: nat)
    requires start + count <= |b| && start + shift + count <= |a| && AllBelow(a, base) && AllBelow(b, base)
    ensures AllBelow(Copied(a, b, start, shift, count), base)
  {
  }

  /** Some elements replaced by one value. */
  function Filled(b: seq<Element>, first: nat, last: nat, x: Element): (r: seq<Element>)
    requires first <= last <= |b|
    ensures |r| == |b|
  {
    b[..first] + seq(last - first, _ => x) + b[last..]
  }

  lemma FilledNext(b: seq<Element>, first: nat, i: nat, x: Element)
    requires first <= i < |b|
    ensures Filled(b, first, i, x)[i := x] == Filled(b, first, i + 1, x)
  {
  }

  lemma FilledBelow(b: seq<Element>, first: nat, last: nat, x: Element, base: nat)
    requires first <= last <= |b| && AllBelow(b, base) && x < base
    ensures AllBelow(Filled(b, first, last, x), base)
  {
  }

  class Vector {
    const layout: Layout
    const memory: Allocator
    var word: nat

    function Size(): nat
      requires layout.split > 0
      reads this
    {
      SizeOf(word, layout)
    }

    function GetPtr(): Ptr
      requires layout.split > 0
      reads this
    {
      if 0 < Size() <= layout.inline then Inline
      else if PointerOf(word, layout) == 0 then Null
      else Heap(PointerOf(word, layout))
    }

    /** What a pointer points to. */
    ghost function View(p: Ptr): seq<Element>
      requires layout.base > 0
      reads this, memory
    {
      match p
      case Null => []
      case Inline => InlineOf(word, layout)
      case Heap(a) => if a in memory.blocks then memory.blocks[a] else []
    }

    ghost predicate Valid()
      reads this, memory
    {
      && IsLayout(layout) && Size() <= layout.maxSize
      && (Size() == 0 ==> GetPtr() == Null)
      && (Size() > layout.inline
          ==> && GetPtr().Heap? && GetPtr().address in memory.blocks
              && |memory.blocks[GetPtr().address]| == Size()
              && AllBelow(memory.blocks[GetPtr().address], layout.base))
    }

    ghost function Contents(): (s: seq<Element>)
      requires Valid()
      reads this, memory
      ensures |s| == Size()
    {
      View(GetPtr())[..Size()]
    }

    /** The block that belongs to this vector, if it has one. */
    ghost function Owned(): set<nat>
      requires layout.split > 0
      reads this
    {
      if Size() > layout.inline && GetPtr().Heap? then {GetPtr().address} else {}
    }

    constructor (layout: Layout, memory: Allocator)
      requires IsLayout(layout)
      ensures Valid() && Contents() == [] && Owned() == {}
      ensures this.layout == layout && this.memory == memory
    {
      this.layout, this.memory, word := layout, memory, 0;
      new;
      DivMod(0, 0, layout.split);
    }

    /** The address that the allocator would return. */
    ghost predicate Offered(p: nat)
      reads memory
    {
      p > 0 && p !in memory.blocks && Addressable(p, layout)
    }

    method Allocate(n: nat, p: nat) returns (ptr: Ptr)
      requires IsLayout(layout) && (n > layout.inline ==> Offered(p))
      modifies memory
      ensures ptr == if n == 0 then Null else if n <= layout.inline then Inline else Heap(p)
      ensures ptr.Heap? ==> p in memory.blocks && |memory.blocks[p]| == n && memory.blocks - {p} == old(memory.blocks)
      ensures ptr.Heap? ==> AllBelow(memory.blocks[p], layout.base)
      ensures !ptr.Heap? ==> memory.blocks == old(memory.blocks)
    {
      if n == 0 {
        return Null;
      }
      if n <= layout.inline {
        return Inline;
      }
      memory.Allocate(p, n);
      ptr := Heap(p);
    }

    /** At most what one pointer points to has changed. */
    twostate predicate OnlyAt(ptr: Ptr)
      requires layout.split > 0
      reads this, memory
    {
      && Size() == old(Size())
      && (ptr != Inline ==> word == old(word))
      && (if ptr.Heap? then memory.blocks - {ptr.address} == old(memory.blocks) - {ptr.address}
          else memory.blocks == old(memory.blocks))
    }

    method Write(ptr: Ptr, i: nat, v: Element)
      requires IsLayout(layout) && i < |View(ptr)| && v < layout.base
      modifies this, memory
      ensures View(ptr) == old(View(ptr))[i := v] && OnlyAt(ptr)
    {
      if ptr == Inline {
        InlineSet(word, layout, i, v);
        word := PutDigit(word, layout.base, i, v);
      } else {
        var block: seq<Element> := memory.blocks[ptr.address];
        var changed: seq<Element> := block[i := v];
        memory.blocks := memory.blocks[ptr.address := changed];
      }
    }

    method Read(ptr: Ptr, i: nat) returns (v: Element)
      requires IsLayout(layout) && i < |View(ptr)|
      ensures v == View(ptr)[i]
    {
      if ptr == Inline {
        v := InlineOf(word, layout)[i];
      } else {
        v := memory.blocks[ptr.address][i];
      }
    }

    method Fill(ptr: Ptr, first: nat, last: nat, x: Element)
      requires IsLayout(layout) && first <= last <= |View(ptr)| && x < layout.base
      modifies this, memory
      ensures View(ptr) == Filled(old(View(ptr)), first, last, x) && OnlyAt(ptr)
    {
      ghost var b := View(ptr);
      assert b == Filled(b, first, first, x);
      for i := first to last
        invariant View(ptr) == Filled(b, first, i, x) && OnlyAt(ptr)
      {
        FilledNext(b, first, i, x);
        Write(ptr, i, x);
      }
    }

    method CopyOne(from: Ptr, to: Ptr, i: nat, j: nat)
      requires IsLayout(layout) && from != to && i < |View(from)| && j < |View(to)|
      requires View(from)[i] < layout.base
      modifies this, memory
      ensures View(to) == old(View(to))[j := old(View(from))[i]] && View(from) == old(View(from)) && OnlyAt(to)
    {
      var v := Read(from, i);
      Write(to, j, v);
      if to.Heap? && from.Heap? {
        assert from.address in old(memory.blocks) - {to.address};
        assert from.address in memory.blocks - {to.address};
      }
    }

    /** Elements are copied elsewhere. */
    method Copy(from: Ptr, to: Ptr, count: nat, shift: nat, start: nat)
      requires IsLayout(layout) && from != to && AllBelow(View(from), layout.base)
      requires start + count <= |View(to)| && start + shift + count <= |View(from)|
      modifies this, memory
      ensures View(to) == Copied(old(View(from)), old(View(to)), start, shift, count)
      ensures View(from) == old(View(from)) && OnlyAt(to)
    {
      ghost var a, b := View(from), View(to);
      assert b == Copied(a, b, start, shift, 0);
      for i := 0 to count
        invariant View(to) == Copied(a, b, start, shift, i) && View(from) == a && OnlyAt(to)
      {
        CopiedNext(a, b, start, shift, i);
        CopyOne(from, to, start + i + shift, start + i);
      }
    }

    /** One more element is moved down. */
    method MoveStep(ptr: Ptr, first: nat, shift: nat, i: nat, ghost b: seq<Element>)
      requires IsLayout(layout) && first + shift + i < |b| && AllBelow(b, layout.base)
      requires View(ptr) == Copied(b, b, first, shift, i)
      modifies this, memory
      ensures View(ptr) == Copied(b, b, first, shift, i + 1) && OnlyAt(ptr)
    {
      CopiedNext(b, b, first, shift, i);
      CopiedBeyond(b, first, shift, i);
      var v := Read(ptr, first + shift + i);
      Write(ptr, first + i, v);
    }

    /** Elements are moved down within one place. */
    method MoveDown(ptr: Ptr, first: nat, last: nat, size: nat, ghost b: seq<Element>)
      requires IsLayout(layout) && b == View(ptr) && first < last <= size <= |b| && AllBelow(b, layout.base)
      modifies this, memory
      ensures View(ptr) == Copied(b, b, first, last - first, size - last) && OnlyAt(ptr)
    {
      assert b == Copied(b, b, first, last - first, 0);
      for i := 0 to size - last
        invariant View(ptr) == Copied(b, b, first, last - first, i) && OnlyAt(ptr)
      {
        MoveStep(ptr, first, last - first, i, b);
      }
    }

    /** A pointer that suits a size. */
    predicate Suits(ptr: Ptr, n: nat) {
      if n == 0 then ptr == Null
      else if n <= layout.inline then ptr == Inline
      else ptr.Heap? && ptr.address > 0 && Addressable(ptr.address, layout)
    }

    /** The old place is given back with the length it has, and the word is set to the new
        place and size. */
    method SetNewPtr(oldPtr: Ptr, ptr: Ptr, n: nat)
      requires IsLayout(layout) && n <= layout.maxSize
      requires Suits(oldPtr, Size()) && Suits(ptr, n)
      requires oldPtr.Heap? ==> oldPtr.address in memory.blocks && |memory.blocks[oldPtr.address]| == Size()
      modifies this, memory
      ensures Size() == n && GetPtr() == ptr
      ensures memory.blocks == if oldPtr.Heap? && ptr != oldPtr then old(memory.blocks) - {oldPtr.address}
                               else old(memory.blocks)
      ensures ptr == Inline ==> InlineOf(word, layout) == old(InlineOf(word, layout))
    {
      if ptr != oldPtr && Size() > 0 {
        if Size() > layout.inline {
          memory.Free(oldPtr.address, Size());
        }
      }
      if n == 0 || n > layout.inline {
        var address := if ptr.Heap? then ptr.address else 0;
        PointerSet(word, layout, address);
        word := WithPointer(word, layout, address);
      }
      SizeSet(word, layout, n);
      word := WithSize(word, layout, n);
    }

    lemma SuitsNow()
      requires Valid()
      ensures Suits(GetPtr(), Size()) && AllBelow(View(GetPtr()), layout.base)
      ensures Size() <= |View(GetPtr())|
    {
      var low := word % layout.split;
      assert PointerOf(word, layout) == low * 8 && low * 8 / 8 == low && low * 8 % 8 == 0;
    }

    /** The blocks that belong to neither of two places. */
    ghost function Others(a: Ptr, b: Ptr): map<nat, seq<Element>>
      reads memory
    {
      memory.blocks - (if a.Heap? then {a.address} else {}) - (if b.Heap? then {b.address} else {})
    }

    /** The new place holds the new contents: it becomes the vector's own. */
    method Settle(oldPtr: Ptr, ptr: Ptr, n: nat, ghost s: seq<Element>)
      requires IsLayout(layout) && 0 < n <= layout.maxSize
      requires Suits(oldPtr, Size()) && Suits(ptr, n) && (ptr == oldPtr ==> ptr == Inline)
      requires oldPtr.Heap? ==> oldPtr.address in memory.blocks && |memory.blocks[oldPtr.address]| == Size()
      requires n <= |View(ptr)| && View(ptr)[..n] == s && AllBelow(View(ptr), layout.base)
      requires ptr.Heap? ==> |View(ptr)| == n
      modifies this, memory
      ensures Valid() && Contents() == s
      ensures memory.blocks - Owned() == old(Others(oldPtr, ptr))
    {
      SetNewPtr(oldPtr, ptr, n);
      assert View(ptr) == old(View(ptr));
      assert GetPtr() == ptr && Contents() == s;
    }

    /** Nothing is leaked and no other block is touched. */
    twostate predicate KeepsOthers()
      requires old(Valid()) && Valid()
      reads this, memory
    {
      memory.blocks - Owned() == old(memory.blocks) - old(Owned())
    }

    method Resize(n: nat, x: Element, p: nat)
      requires Valid() && n <= layout.maxSize && x < layout.base && (n > layout.inline ==> Offered(p))
      modifies this, memory
      ensures Valid() && KeepsOthers()
      ensures Contents() == Resized(old(Contents()), n, x)
    {
      SuitsNow();
      var size, oldPtr := Size(), GetPtr();
      if n == size {
        assert Contents() == Resized(old(Contents()), n, x);
        return;
      }
      if n == 0 {
        SetNewPtr(oldPtr, Null, 0);
        return;
      }
      Reallocate(n, x, p);
    }

    /** Another size, and a place that suits it. */
    method Reallocate(n: nat, x: Element, p: nat)
      requires Valid() && 0 < n <= layout.maxSize && n != Size() && x < layout.base
      requires n > layout.inline ==> Offered(p)
      modifies this, memory
      ensures Valid() && KeepsOthers()
      ensures Contents() == Resized(old(Contents()), n, x)
    {
      SuitsNow();
      var size, oldPtr := Size(), GetPtr();
      ghost var s := Resized(Contents(), n, x);
      var ptr := Allocate(n, p);
      Extend(oldPtr, ptr, size, n, x);
      Settle(oldPtr, ptr, n, s);
    }

    /** New elements behind the old ones. */
    method FillNew(oldPtr: Ptr, ptr: Ptr, size: nat, n: nat, x: Element)
      requires IsLayout(layout) && x < layout.base && size <= n <= |View(ptr)|
      requires oldPtr.Heap? ==> oldPtr.address in memory.blocks
      modifies this, memory
      ensures View(ptr) == Filled(old(View(ptr)), size, n, x) && OnlyAt(ptr)
      ensures ptr != oldPtr && oldPtr != Inline ==> View(oldPtr) == old(View(oldPtr))
      ensures ptr.Heap? ==> word == old(word)
    {
      Fill(ptr, size, n, x);
      if ptr.Heap? && oldPtr.Heap? && ptr != oldPtr {
        assert oldPtr.address in old(memory.blocks) - {ptr.address};
        assert oldPtr.address in memory.blocks - {ptr.address};
      }
    }

    /** The new place gets the old elements, as far as they fit, and new ones after them. */
    method Extend(oldPtr: Ptr, ptr: Ptr, size: nat, n: nat, x: Element)
      requires IsLayout(layout) && x < layout.base && 0 < n <= |View(ptr)| && size <= |View(oldPtr)| && n != size
      requires AllBelow(View(oldPtr), layout.base) && AllBelow(View(ptr), layout.base)
      requires oldPtr.Heap? ==> oldPtr.address in memory.blocks
      modifies this, memory
      ensures |View(ptr)| == |old(View(ptr))| && AllBelow(View(ptr), layout.base)
      ensures OnlyAt(ptr)
      ensures ptr != oldPtr ==> View(oldPtr) == old(View(oldPtr))
      ensures View(ptr)[..n] == Resized(old(View(oldPtr))[..size], n, x)
    {
      ghost var a, b := View(oldPtr), View(ptr);
      if n > size {
        FilledBelow(b, size, n, x, layout.base);
        FillNew(oldPtr, ptr, size, n, x);
      }
      ghost var c := View(ptr);
      if ptr != oldPtr {
        assert View(oldPtr) == a;
        var m := if n < size then n else size;
        CopiedBelow(a, c, 0, 0, m, layout.base);
        Copy(oldPtr, ptr, m, 0, 0);
        Extended(a, b, c, size, n, x);
      } else {
        ExtendedHere(a, c, size, n, x);
      }
    }

    /** One element too many for the word: the new block is filled and the old one freed, but
        the size is shifted out of the word, and nothing owns the new block. */
    method Overflow(x: Element, p: nat)
      requires Valid() && Size() == layout.maxSize && x < layout.base && Offered(p)
      modifies this, memory
      ensures Size() == 0 && Owned() == {}
      ensures memory.blocks == (old(memory.blocks) - old(Owned()))[p := old(Contents()) + [x]]
    {
      SuitsNow();
      var size, oldPtr := Size(), GetPtr();
      ResizedByOne(Contents(), x);
      var ptr := Allocate(size + 1, p);
      Extend(oldPtr, ptr, size, size + 1, x);
      assert oldPtr.address in old(memory.blocks) && oldPtr.address in memory.blocks - {p};
      assert memory.blocks[p][..size + 1] == memory.blocks[p];
      memory.Free(oldPtr.address, size);
      PointerSet(word, layout, p);
      word := WithPointer(word, layout, p);
      SizeSet(word, layout, 0);
      word := WithSize(word, layout, 0);
    }

    /** An element is appended; the new size is a number of the size type. A full vector of
        a size type that the word has room for is emptied. */
    method PushBack(x: Element, p: nat)
      requires Valid() && x < layout.base
      requires Size() + 1 > layout.inline ==> Offered(p)
      modifies this, memory
      ensures old(Size()) < layout.maxSize ==> Valid() && KeepsOthers() && Contents() == old(Contents()) + [x]
      ensures old(Size()) == layout.maxSize && layout.sizes == layout.maxSize + 1
              ==> Valid() && KeepsOthers() && Contents() == []
      ensures old(Size()) == layout.maxSize && layout.sizes > layout.maxSize + 1
              ==> && Size() == 0 && Owned() == {}
                  && memory.blocks == (old(memory.blocks) - old(Owned()))[p := old(Contents()) + [x]]
    {
      var n := NextSize(Size(), layout.sizes);
      if n <= layout.maxSize {
        ResizedByOne(Contents(), x);
        Resize(n, x, p);
      } else {
        Overflow(x, p);
      }
    }

    /** Like appending a value; but where the size would wrap, the element is constructed
        before there is a place for it. */
    method EmplaceBack(x: Element, p: nat)
      requires Valid() && x < layout.base
      requires Size() == layout.maxSize ==> layout.sizes > layout.maxSize + 1
      requires Size() + 1 > layout.inline ==> Offered(p)
      modifies this, memory
      ensures old(Size()) < layout.maxSize ==> Valid() && KeepsOthers() && Contents() == old(Contents()) + [x]
      ensures old(Size()) == layout.maxSize
              ==> && Size() == 0 && Owned() == {}
                  && memory.blocks == (old(memory.blocks) - old(Owned()))[p := old(Contents()) + [x]]
    {
      if Size() == layout.maxSize {
        Overflow(x, p);
        return;
      }
      ResizedByOne(Contents(), x);
      Reallocate(Size() + 1, x, p);
    }

    /** What is before and what is after a range, brought together elsewhere. */
    method CopyAround(oldPtr: Ptr, ptr: Ptr, first: nat, last: nat, size: nat,
                      ghost a: seq<Element>, ghost b: seq<Element>, ghost c: seq<Element>)
      requires IsLayout(layout) && a == View(oldPtr) && b == View(ptr) && ptr != oldPtr
      requires first < last <= size <= |a| && AllBelow(a, layout.base) && size - (last - first) <= |b|
      requires c == Copied(a, b, 0, 0, first)
      modifies this, memory
      ensures OnlyAt(ptr) && View(oldPtr) == a
      ensures View(ptr) == Copied(a, c, first, last - first, size - last)
    {
      Copy(oldPtr, ptr, first, 0, 0);
      assert View(ptr) == c && View(oldPtr) == a;
      Copy(oldPtr, ptr, size - last, last - first, first);
    }

    /** The elements outside a range, brought together here or elsewhere. */
    method Close(oldPtr: Ptr, ptr: Ptr, first: nat, last: nat, size: nat)
      requires IsLayout(layout) && first < last <= size <= |View(oldPtr)| && AllBelow(View(oldPtr), layout.base)
      requires 0 < size - (last - first) <= |View(ptr)| && oldPtr != Null && AllBelow(View(ptr), layout.base)
      modifies this, memory
      ensures |View(ptr)| == |old(View(ptr))| && (ptr != oldPtr ==> View(oldPtr) == old(View(oldPtr)))
      ensures OnlyAt(ptr)
      ensures AllBelow(View(ptr), layout.base)
      ensures View(ptr)[..size - (last - first)] == old(View(oldPtr))[..first] + old(View(oldPtr))[last..size]
    {
      ghost var a, b := View(oldPtr), View(ptr);
      if ptr != oldPtr {
        ghost var c := Copied(a, b, 0, 0, first);
        CopyAround(oldPtr, ptr, first, last, size, a, b, c);
        CopiedBelow(a, b, 0, 0, first, layout.base);
        CopiedBelow(a, c, first, last - first, size - last, layout.base);
      } else {
        MoveDown(ptr, first, last, size, b);
        CopiedBelow(b, b, first, last - first, size - last, layout.base);
      }
    }

    method Erase(first: nat, last: nat, p: nat)
      requires Valid() && first <= last <= Size()
      requires Size() - (last - first) > layout.inline ==> Offered(p)
      modifies this, memory
      ensures Valid() && KeepsOthers()
      ensures Contents() == old(Contents())[..first] + old(Contents())[last..]
    {
      SuitsNow();
      var size, oldPtr := Size(), GetPtr();
      var n := size - (last - first);
      if n == size {
        return;
      }
      if n == 0 {
        Resize(0, 0, p);
        return;
      }
      ghost var s := Contents()[..first] + Contents()[last..];
      assert s == View(oldPtr)[..first] + View(oldPtr)[last..size];
      var ptr := Allocate(n, p);
      Close(oldPtr, ptr, first, last, size);
      Settle(oldPtr, ptr, n, s);
    }

    method Assign(n: nat, x: Element, p: nat)
      requires Valid() && n <= layout.maxSize && x < layout.base && (n > layout.inline ==> Offered(p))
      modifies this, memory
      ensures Valid() && KeepsOthers()
      ensures Contents() == seq(n, _ => x)
    {
      Resize(n, 0, p);
      SuitsNow();
      var ptr := GetPtr();
      Fill(ptr, 0, n, x);
      assert Contents() == seq(n, _ => x);
    }

    /** Elements from elsewhere; the vector takes their number as its size. */
    method AssignAll(xs: seq<Element>, p: nat)
      requires Valid() && |xs| <= layout.maxSize && AllBelow(xs, layout.base) && (|xs| > layout.inline ==> Offered(p))
      modifies this, memory
      ensures Valid() && KeepsOthers()
      ensures Contents() == xs
    {
      Resize(|xs|, 0, p);
      SuitsNow();
      Overwrite(GetPtr(), xs);
      assert Contents() == xs;
    }

    method Overwrite(ptr: Ptr, xs: seq<Element>)
      requires IsLayout(layout) && |xs| <= |View(ptr)| && AllBelow(xs, layout.base)
      modifies this, memory
      ensures |View(ptr)| == |old(View(ptr))| && OnlyAt(ptr)
      ensures forall k | 0 <= k < |xs| :: View(ptr)[k] == xs[k]
      ensures forall k | |xs| <= k < |View(ptr)| :: View(ptr)[k] == old(View(ptr))[k]
    {
      for i := 0 to |xs|
        invariant |View(ptr)| == |old(View(ptr))| && OnlyAt(ptr)
        invariant forall k | 0 <= k < i :: View(ptr)[k] == xs[k]
        invariant forall k | i <= k < |View(ptr)| :: View(ptr)[k] == old(View(ptr))[k]
      {
        Write(ptr, i, xs[i]);
      }
    }

    /** Two vectors exchange their words, and with them their blocks. */
    method Swap(other: Vector)
      requires Valid() && other.Valid() && other.layout == layout && other.memory == memory
      modifies this, other
      ensures Valid() && other.Valid() && memory.blocks == old(memory.blocks)
      ensures Contents() == old(other.Contents()) && other.Contents() == old(Contents())
      ensures Owned() == old(other.Owned()) && other.Owned() == old(Owned())
    {
      word, other.word := other.word, word;
    }

    /** The old contents are given up, and those of the other vector are taken from it; a
        vector that is moved to itself is emptied. */
    method MoveFrom(other: Vector, p: nat)
      requires Valid() && other.Valid() && other.layout == layout && other.memory == memory
      requires other != this ==> Owned() !! other.Owned()
      modifies this, other, memory
      ensures Valid() && other.Valid() && other.Contents() == []
      ensures Contents() == if other == this then [] else old(other.Contents())
      ensures memory.blocks == old(memory.blocks) - old(Owned())
    {
      Release();
      Swap(other);
    }

    /** The vector is emptied; its block, if it has one, is freed with its length. */
    method Release()
      requires Valid()
      modifies this, memory
      ensures Valid() && Contents() == [] && Owned() == {}
      ensures memory.blocks == old(memory.blocks) - old(Owned())
    {
      SuitsNow();
      if Size() != 0 {
        SetNewPtr(GetPtr(), Null, 0);
      }
    }
  }

  lemma Extended(a: seq<Element>, b: seq<Element>, c: seq<Element>, size: nat, n: nat, x: Element)
    requires size <= |a| && n <= |b| && c == if n > size then Filled(b, size, n, x) else b
    ensures Copied(a, c, 0, 0, if n < size then n else size)[..n] == Resized(a[..size], n, x)
  {
  }

  lemma ExtendedHere(a: seq<Element>, c: seq<Element>, size: nat, n: nat, x: Element)
    requires size <= |a| && n <= |a| && c == if n > size then Filled(a, size, n, x) else a
    ensures c[..n] == Resized(a[..size], n, x)
  {
  }

  lemma ResizedByOne(s: seq<Element>, x: Element)
    ensures Resized(s, |s| + 1, x) == s + [x]
  {
  }

  function Resized(s: seq<Element>, n: nat, x: Element): (r: seq<Element>)
    ensures |r| == n
  {
    if n <= |s| then s[..n] else s + seq(n - |s|, _ => x)
  }
}

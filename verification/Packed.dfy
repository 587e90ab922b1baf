/** A 64-bit word that holds a size in its high bits and, in its low bits, either a pointer
    or the first elements of a vector. Elements are digits of a number in a large base. */
module Packed {
  import opened Division

  // ----- digits ----------------------------------------------------------------------------

  function Digits(x: nat, base: nat, k: nat): (ds: seq<nat>)
    requires base > 0
    ensures |ds| == k && forall i | 0 <= i < k :: ds[i] < base
    decreases k
  {
    if k == 0 then [] else [x % base] + Digits(x / base, base, k - 1)
  }

  function PutDigit(x: nat, base: nat, i: nat, v: nat): nat
    requires base > 0
    decreases i
  {
    if i == 0 then x / base * base + v else PutDigit(x / base, base, i - 1, v) * base + x % base
  }

  /** What is left after the first digits. */
  function Beyond(x: nat, base: nat, k: nat): nat
    requires base > 0
    decreases k
  {
    if k == 0 then x else Beyond(x / base, base, k - 1)
  }

  function Power(base: nat, k: nat): nat {
    if k == 0 then 1 else base * Power(base, k - 1)
  }

  /** Writing one digit changes no other digit. */
  lemma {:induction false} DigitsPut(x: nat, base: nat, i: nat, v: nat, k: nat)
    requires v < base && i < k
    ensures Digits(PutDigit(x, base, i, v), base, k) == Digits(x, base, k)[i := v]
    decreases i
  {
    if i == 0 {
      DivMod(x / base, v, base);
    } else {
      var y := PutDigit(x / base, base, i - 1, v);
      DivMod(y, x % base, base);
      DigitsPut(x / base, base, i - 1, v, k - 1);
    }
  }

  /** Writing one digit changes nothing beyond the digits. */
  lemma {:induction false} BeyondPut(x: nat, base: nat, i: nat, v: nat, k: nat)
    requires v < base && i < k
    ensures Beyond(PutDigit(x, base, i, v), base, k) == Beyond(x, base, k)
    decreases i
  {
    if i == 0 {
      DivMod(x / base, v, base);
    } else {
      DivMod(PutDigit(x / base, base, i - 1, v), x % base, base);
      BeyondPut(x / base, base, i - 1, v, k - 1);
    }
  }

  lemma {:induction false} PowerPositive(base: nat, k: nat)
    requires base > 0
    ensures Power(base, k) > 0
    decreases k
  {
    if k > 0 {
      PowerPositive(base, k - 1);
      Product(1, Power(base, k - 1), base);
    }
  }

  lemma {:induction false} BeyondIsQuotient(x: nat, base: nat, k: nat)
    requires base > 0
    ensures Power(base, k) > 0 && Beyond(x, base, k) == x / Power(base, k)
    decreases k
  {
    PowerPositive(base, k);
    if k > 0 {
      BeyondIsQuotient(x / base, base, k - 1);
      DivideTwice(x, base, Power(base, k - 1));
    }
  }

  // ----- the word ---------------------------------------------------------------------------

  /** How a word is divided: sizes start at a power of two, and the inline elements stay
      below it. The type of sizes has so many values; it may have more than the word has
      room for. */
  datatype Layout = Layout(split: nat, base: nat, inline: nat, spare: nat, maxSize: nat, sizes: nat)

  ghost predicate IsLayout(l: Layout) {
    && l.base > 1 && l.spare > 0 && l.split == Power(l.base, l.inline) * l.spare
    && l.split > 0 && (l.maxSize + 1) * l.split == 0x1_0000_0000_0000_0000
    && l.inline < l.maxSize < l.sizes
  }

  function SizeOf(w: nat, l: Layout): nat
    requires l.split > 0
  {
    w / l.split
  }

  function PointerOf(w: nat, l: Layout): nat
    requires l.split > 0
  {
    w % l.split * 8
  }

  function WithSize(w: nat, l: Layout, size: nat): nat
    requires l.split > 0
  {
    w % l.split + size * l.split
  }

  function WithPointer(w: nat, l: Layout, p: nat): nat
    requires l.split > 0
  {
    p / 8 % l.split + w / l.split * l.split
  }

  predicate Addressable(p: nat, l: Layout) {
    p % 8 == 0 && p / 8 < l.split
  }

  function InlineOf(w: nat, l: Layout): seq<nat>
    requires l.base > 0
  {
    Digits(w, l.base, l.inline)
  }

  /** Setting the size leaves the pointer and the inline elements alone. */
  lemma SizeSet(w: nat, l: Layout, size: nat)
    requires IsLayout(l)
    ensures SizeOf(WithSize(w, l, size), l) == size
    ensures PointerOf(WithSize(w, l, size), l) == PointerOf(w, l)
    ensures InlineOf(WithSize(w, l, size), l) == InlineOf(w, l)
  {
    DivMod(size, w % l.split, l.split);
    SameLow(w, WithSize(w, l, size), l);
  }

  lemma PointerSet(w: nat, l: Layout, p: nat)
    requires IsLayout(l) && Addressable(p, l)
    ensures SizeOf(WithPointer(w, l, p), l) == SizeOf(w, l)
    ensures PointerOf(WithPointer(w, l, p), l) == p
  {
    DivMod(0, p / 8, l.split);
    DivMod(w / l.split, p / 8, l.split);
  }

  /** Writing an inline element leaves the size alone. */
  lemma InlineSet(w: nat, l: Layout, i: nat, v: nat)
    requires IsLayout(l) && i < l.inline && v < l.base
    ensures SizeOf(PutDigit(w, l.base, i, v), l) == SizeOf(w, l)
    ensures InlineOf(PutDigit(w, l.base, i, v), l) == InlineOf(w, l)[i := v]
  {
    DigitsPut(w, l.base, i, v, l.inline);
    BeyondPut(w, l.base, i, v, l.inline);
    BeyondIsQuotient(w, l.base, l.inline);
    BeyondIsQuotient(PutDigit(w, l.base, i, v), l.base, l.inline);
    DivideTwice(w, Power(l.base, l.inline), l.spare);
    DivideTwice(PutDigit(w, l.base, i, v), Power(l.base, l.inline), l.spare);
  }

  // ----- the low bits decide the inline elements ----------------------------------------------

  lemma {:induction false} DigitsOfSum(q: nat, x: nat, base: nat, k: nat)
    requires base > 0
    ensures Digits(q * Power(base, k) + x, base, k) == Digits(x, base, k)
    decreases k
  {
    if k > 0 {
      var m := q * Power(base, k - 1);
      assert q * Power(base, k) == m * base by {
        assert q * (base * Power(base, k - 1)) == m * base;
      }
      Recompose(x, base);
      NextSum(m, x / base, x % base, base);
      DivMod(m + x / base, x % base, base);
      DigitsOfSum(q, x / base, base, k - 1);
    }
  }

  lemma NextSum(a: nat, b: nat, r: nat, base: nat)
    ensures a * base + (b * base + r) == (a + b) * base + r
  {
  }

  lemma SameLow(w: nat, v: nat, l: Layout)
    requires IsLayout(l) && w % l.split == v % l.split
    ensures InlineOf(w, l) == InlineOf(v, l)
  {
    LowDigits(w, l);
    LowDigits(v, l);
  }

  lemma LowDigits(w: nat, l: Layout)
    requires IsLayout(l)
    ensures InlineOf(w, l) == InlineOf(w % l.split, l)
  {
    Recompose(w, l.split);
    var q, low := w / l.split, w % l.split;
    assert q * l.split == q * l.spare * Power(l.base, l.inline);
    DigitsOfSum(q * l.spare, low, l.base, l.inline);
  }
}

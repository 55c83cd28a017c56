/** Shifts and masks of hash values: `(h >> shift) & mask`. */
module HashBits {
  import opened Basics

  /** `h >> k`. */
  function Shr(h: nat, k: nat): (r: nat) {
    if k == 0 then h else Shr(h / 2, k - 1)
  }

  /** `q & ((1 << bits) - 1)`. */
  function Low(q: nat, bits: nat): (r: nat)
    ensures r < Pow2(bits)
  {
    if bits == 0 then 0 else q % 2 + 2 * Low(q / 2, bits - 1)
  }

  /** The radix digit of a hash value. */
  function Digit(h: nat, shift: nat, bits: nat): (d: nat)
    ensures d < Pow2(bits)
  {
    Low(Shr(h, shift), bits)
  }

  lemma {:induction false} ShrShr(h: nat, j: nat, k: nat)
    ensures Shr(Shr(h, j), k) == Shr(h, j + k)
  {
    if j > 0 {
      ShrShr(h / 2, j - 1, k);
    }
  }

  lemma {:induction false} ShrMono(g: nat, h: nat, k: nat)
    requires g <= h
    ensures Shr(g, k) <= Shr(h, k)
  {
    if k > 0 {
      ShrMono(g / 2, h / 2, k - 1);
    }
  }

  /** Numbers that agree above their low bits are ordered by their low bits. */
  lemma {:induction false} LowOrder(p: nat, q: nat, bits: nat)
    requires Shr(p, bits) == Shr(q, bits)
    ensures Low(p, bits) < Low(q, bits) ==> p < q
    ensures Low(p, bits) == Low(q, bits) ==> p == q
  {
    if bits > 0 {
      LowOrder(p / 2, q / 2, bits - 1);
    }
  }

  /** Among hashes that agree from bit `top` up, a digit that reaches `top` decides the
      order, and equal digits mean agreement from the digit's own position up. */
  lemma DigitOrder(g: nat, h: nat, top: nat, shift: nat, bits: nat)
    requires Shr(g, top) == Shr(h, top) && top <= shift + bits
    ensures Digit(g, shift, bits) < Digit(h, shift, bits) ==> g < h
    ensures Digit(g, shift, bits) == Digit(h, shift, bits) ==> Shr(g, shift) == Shr(h, shift)
  {
    hide Shr, Low;
    ShrShr(g, top, shift + bits - top);
    ShrShr(h, top, shift + bits - top);
    ShrShr(g, shift, bits);
    ShrShr(h, shift, bits);
    LowOrder(Shr(g, shift), Shr(h, shift), bits);
    if g >= h {
      ShrMono(h, g, shift);
    }
  }

  lemma {:induction false} ShrSmall(h: nat, k: nat)
    requires h < Pow2(k)
    ensures Shr(h, k) == 0
  {
    if k > 0 {
      ShrSmall(h / 2, k - 1);
    }
  }
}

/** Masks, branch numbers and popcounts of the decision-tree generator and of the decoder that walks
 *  its table. */
module DecodeMasks {
  import opened Basics
  import opened Words

  /** Number of bits set. */
  function NumOnes(m: bv32): nat { Ones(Bits(m, 32)) }

  /** The bits of w selected by m, packed: the branch number of w at a node that tests m. */
  function Key(w: bv32, m: bv32): nat { Select(Bits(w, 32), Bits(m, 32)) }

  lemma KeyBound(w: bv32, m: bv32)
    ensures Key(w, m) < Pow2(NumOnes(m))
  {
    hide *;
    SelectBound(Bits(w, 32), Bits(m, 32));
    KeyIs(w, m);
  }

  lemma KeyIs(w: bv32, m: bv32)
    ensures Key(w, m) == Select(Bits(w, 32), Bits(m, 32)) && NumOnes(m) == Ones(Bits(m, 32))
    ensures |Bits(w, 32)| == |Bits(m, 32)| == 32
  {
    hide Select, Ones, Bits;
  }

  /** Two words take the same branch exactly when they agree on the tested bits. */
  lemma KeyAgree(w: bv32, e: bv32, m: bv32)
    ensures Key(w, m) == Key(e, m) <==> And(w, m) == And(e, m)
  {
    hide Select, Ones, Bits, And;
    SelectInjective(Bits(w, 32), Bits(e, 32), Bits(m, 32));
    forall k: nat | k < 32
      ensures Bits(And(w, m), 32)[k] == (Bits(w, 32)[k] && Bits(m, 32)[k])
      ensures Bits(And(e, m), 32)[k] == (Bits(e, 32)[k] && Bits(m, 32)[k])
    {
      BitsAnd(w, m, 32, k);
      BitsAnd(e, m, 32, k);
    }
    if Key(w, m) == Key(e, m) {
      assert Bits(And(w, m), 32) == Bits(And(e, m), 32);
      WordsEqual(And(w, m), And(e, m));
    }
    if And(w, m) == And(e, m) {
      forall k | 0 <= k < 32 && Bits(m, 32)[k]
        ensures Bits(w, 32)[k] == Bits(e, 32)[k]
      {
        assert Bits(And(w, m), 32)[k] == Bits(And(e, m), 32)[k];
      }
    }
  }

  lemma KeyMasked(w: bv32, m: bv32)
    ensures Key(And(w, m), m) == Key(w, m)
  {
    hide Key;
    KeyAgree(And(w, m), w, m);
  }

  /** More bits, larger count; as many bits, the same mask. */
  lemma OnesOfSubset(a: bv32, b: bv32)
    requires And(a, b) == a
    ensures NumOnes(a) <= NumOnes(b) <= 32 && (NumOnes(a) == NumOnes(b) ==> a == b)
  {
    hide Bits, And, Ones;
    forall k: nat | k < 32 && Bits(a, 32)[k]
      ensures Bits(b, 32)[k]
    {
      BitsAnd(a, b, 32, k);
    }
    OnesMono(Bits(a, 32), Bits(b, 32));
    OnesBound(Bits(b, 32));
    if Bits(a, 32) == Bits(b, 32) { WordsEqual(a, b); }
  }

  // ----- clapseMask: most significant bit first

  /** One iteration keeps what is packed so far plus what the shifted words still hold. */
  lemma ClapseStep(e: bv32, m: bv32, ret: nat)
    ensures var te, tm := And(e, 0x8000_0000) != 0, And(m, 0x8000_0000) != 0;
      ret * Pow2(NumOnes(m)) + Key(e, m)
      == (if tm then 2 * ret + (if te then 1 else 0) else ret) * Pow2(NumOnes(Twice(m))) + Key(Twice(e), Twice(m))
  {
    hide Bits, And, Twice, Pow2, Select, Ones;
    BitsShl(e);
    BitsShl(m);
    assert Bits(e, 32) == Bits(e, 32)[..31] + [Bits(e, 32)[31]] && Bits(m, 32) == Bits(m, 32)[..31] + [Bits(m, 32)[31]];
    ClapseBits(Bits(e, 32)[..31], Bits(m, 32)[..31], Bits(e, 32)[31], Bits(m, 32)[31], ret);
  }

  lemma ClapseBits(e: seq<bool>, m: seq<bool>, te: bool, tm: bool, ret: nat)
    requires |e| == |m|
    ensures ret * Pow2(Ones(m + [tm])) + Select(e + [te], m + [tm])
         == (if tm then 2 * ret + (if te then 1 else 0) else ret) * Pow2(Ones([false] + m))
            + Select([false] + e, [false] + m)
  {
    hide Pow2, Select, Ones;
    SelectTop(e, m, te, tm);
    SelectFalse(e, m);
    Powers(ret, Ones(m), if te then 1 else 0);
  }

  lemma SelectFalse(e: seq<bool>, m: seq<bool>)
    requires |e| == |m|
    ensures Select([false] + e, [false] + m) == Select(e, m) && Ones([false] + m) == Ones(m)
  {
    assert ([false] + e)[1..] == e && ([false] + m)[1..] == m;
  }

  lemma Powers(ret: nat, n: nat, t: nat)
    ensures ret * Pow2(n + 1) + t * Pow2(n) == (2 * ret + t) * Pow2(n)
  {
    assert Pow2(n + 1) == 2 * Pow2(n);
    assert ret * (2 * Pow2(n)) == (2 * ret) * Pow2(n);
  }

  /** Shifting moves the zeros up from the bottom, so the loop ends. */
  lemma ShiftedZeros(m: bv32, j: nat)
    requires j <= 32 && m != 0 && forall k | 0 <= k < j :: !Bits(m, 32)[k]
    ensures j < 32 && forall k | 0 <= k < j + 1 :: !Bits(Twice(m), 32)[k]
  {
    hide Bits, And, Twice;
    BitsShl(m);
    if j == 32 {
      ZeroBits(32);
      assert Bits(m, 32) == Bits(0, 32);
      WordsEqual(m, 0);
    } else {
      forall k | 0 <= k < j + 1
        ensures !Bits(Twice(m), 32)[k]
      {
        if k > 0 { assert Bits(Twice(m), 32)[k] == Bits(m, 32)[..31][k - 1]; }
      }
    }
  }

  lemma {:induction false} ZeroBits(n: nat)
    ensures forall k | 0 <= k < n :: !Bits(0, n)[k]
  {
    if n > 0 { ZeroBits(n - 1); }
  }

  method ClapseMask(encoding: bv32, curMask: bv32) returns (ret: nat)
    ensures ret == Key(encoding, curMask)
  {
    hide Bits, Key, NumOnes, Pow2;
    ret := 0;
    var e, m := encoding, curMask;
    ghost var j := 0;
    while m != 0
      invariant ret * Pow2(NumOnes(m)) + Key(e, m) == Key(encoding, curMask)
      invariant j <= 32 && forall k | 0 <= k < j :: !Bits(m, 32)[k]
      decreases 32 - j
    {
      ClapseStep(e, m, ret);
      ShiftedZeros(m, j);
      if m & 0x8000_0000 != 0 {
        ret := 2 * ret + (if e & 0x8000_0000 != 0 then 1 else 0);
      }
      m := m << 1;
      e := e << 1;
      j := j + 1;
    }
    NoneSelected(e);
  }

  lemma NoneSelected(e: bv32)
    ensures NumOnes(0) == 0 && Key(e, 0) == 0 && Pow2(0) == 1
  {
    hide Bits;
    ZeroBits(32);
    AllFalse(Bits(e, 32), Bits(0, 32));
  }

  lemma {:induction false} AllFalse(e: seq<bool>, m: seq<bool>)
    requires |e| == |m| && forall k | 0 <= k < |m| :: !m[k]
    ensures Select(e, m) == 0 && Ones(m) == 0
  {
    if m != [] { AllFalse(e[1..], m[1..]); }
  }

  // ----- the decoder's key: least significant bit first

  /** The number the decoder computes at a table entry; it walks the bits from the other end, and gets
   *  the branch number the generator computed with clapseMask. */
  method BranchKey(insn: bv32, mask: bv32) returns (key: nat)
    ensures key == Key(insn, mask)
  {
    hide Bits, Select;
    var w, m := insn, mask;
    var weight: nat, idx: nat := 1, 0;
    key := 0;
    while idx < 32
      invariant 0 <= idx <= 32
      invariant key + weight * Select(Bits(w, 32 - idx), Bits(m, 32 - idx)) == Key(insn, mask)
    {
      SelectStep(w, m, 32 - idx);
      ghost var rest := Select(Bits(Half(w), 31 - idx), Bits(Half(m), 31 - idx));
      if m & 1 == 1 {
        KeyStep(weight, if w & 1 == 1 then 1 else 0, rest);
        key := key + (if w & 1 == 1 then weight else 0);
        weight := 2 * weight;
      }
      w, m := w >> 1, m >> 1;
      idx := idx + 1;
    }
    SelectEmpty(w, m);
  }

  lemma KeyStep(weight: nat, b: nat, rest: nat)
    ensures weight * (b + 2 * rest) == weight * b + (2 * weight) * rest
  {
    assert weight * (b + 2 * rest) == weight * b + weight * (2 * rest);
    assert weight * (2 * rest) == (2 * weight) * rest;
  }

  lemma SelectStep(w: bv32, m: bv32, n: nat)
    requires n > 0
    ensures Select(Bits(w, n), Bits(m, n))
         == var rest := Select(Bits(Half(w), n - 1), Bits(Half(m), n - 1));
            if Odd(m) then (if Odd(w) then 1 else 0) + 2 * rest else rest
  {
    hide Odd, Half;
    assert Bits(w, n)[1..] == Bits(Half(w), n - 1) && Bits(m, n)[1..] == Bits(Half(m), n - 1);
  }

  lemma SelectEmpty(w: bv32, m: bv32)
    ensures Select(Bits(w, 0), Bits(m, 0)) == 0
  {
  }

  /** num1sInMask. */
  method Num1sInMask(mask: bv32) returns (num: nat)
    ensures num == NumOnes(mask)
  {
    hide Bits, Ones;
    var m := mask;
    num := 0;
    ghost var n: nat := 32;
    LowValues();
    AndZero(m);
    while m != 0
      invariant num + Ones(Bits(m, n)) == NumOnes(mask) && (n == 0 ==> m == 0)
      invariant n <= 32 && Shifted(m, n)
      decreases n
    {
      OnesStep(m, n);
      ShiftedStep(m, n);
      if m & 1 == 1 {
        num := num + 1;
      }
      m := m >> 1;
      n := n - 1;
    }
    NoOnes(n);
  }

  lemma OnesStep(m: bv32, n: nat)
    requires n > 0
    ensures Ones(Bits(m, n)) == (if Odd(m) then 1 else 0) + Ones(Bits(Half(m), n - 1))
  {
    hide Odd, Half;
    assert Bits(m, n)[1..] == Bits(Half(m), n - 1);
  }

  lemma NoOnes(n: nat)
    ensures Ones(Bits(0, n)) == 0
  {
    ZeroBits(n);
    AllFalse(Bits(0, n), Bits(0, n));
  }

  /** m has no bit at or above n. */
  ghost predicate Shifted(m: bv32, n: nat) { And(m, Low(n)) == m }

  lemma ShiftedStep(m: bv32, n: nat)
    requires 0 < n && Shifted(m, n)
    ensures Shifted(Half(m), n - 1) && (n == 1 ==> Half(m) == 0)
  {
    hide And, Half, Odd, TwicePlus;
    HalfAndTwice(m, Low(n - 1));
    AndZero(Half(m));
  }
}

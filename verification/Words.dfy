/** 32-bit words as sequences of bits, least significant first. */
module Words {
  import opened Basics

  function Odd(w: bv32): bool { w & 1 == 1 }
  function Half(w: bv32): bv32 { w >> 1 }
  function And(a: bv32, b: bv32): bv32 { a & b }
  function Or(a: bv32, b: bv32): bv32 { a | b }
  function Xor(a: bv32, b: bv32): bv32 { a ^ b }
  function Twice(w: bv32): bv32 { w << 1 }
  function TwicePlus(w: bv32): bv32 { (w << 1) | 1 }

  lemma HalfAnd(a: bv32, b: bv32)
    ensures Half(And(a, b)) == And(Half(a), Half(b)) && (Odd(And(a, b)) <==> Odd(a) && Odd(b))
  {
  }

  lemma HalfOr(a: bv32, b: bv32)
    ensures Half(Or(a, b)) == Or(Half(a), Half(b)) && (Odd(Or(a, b)) <==> Odd(a) || Odd(b))
  {
  }

  lemma HalfXor(a: bv32, b: bv32)
    ensures Half(Xor(a, b)) == Xor(Half(a), Half(b)) && (Odd(Xor(a, b)) <==> Odd(a) != Odd(b))
  {
  }

  lemma HalfAndTwice(w: bv32, l: bv32)
    ensures Half(And(w, TwicePlus(l))) == And(Half(w), l) && (Odd(And(w, TwicePlus(l))) <==> Odd(w))
    ensures And(Half(w), l) != 0 <==> And(w, Twice(l)) != 0
  {
  }

  function Bits(w: bv32, n: nat): (s: seq<bool>)
    ensures |s| == n
    decreases n
  {
    if n == 0 then [] else [Odd(w)] + Bits(Half(w), n - 1)
  }

  /** The n lowest bits set. */
  function Low(n: nat): bv32 {
    if n == 0 then 0 else TwicePlus(Low(n - 1))
  }

  /** Only bit n - 1 set. */
  function Hot(n: nat): bv32 {
    if n <= 1 then 1 else Twice(Hot(n - 1))
  }

  lemma LowValues()
    ensures Low(31) == 0x7fff_ffff && Low(32) == 0xffff_ffff && Hot(32) == 0x8000_0000
  {
    assert Low(4) == 0xf;
    assert Low(8) == 0xff;
    assert Low(12) == 0xfff;
    assert Low(16) == 0xffff;
    assert Low(20) == 0xf_ffff;
    assert Low(24) == 0xff_ffff;
    assert Low(28) == 0xfff_ffff;
    assert Hot(4) == 0x8;
    assert Hot(8) == 0x80;
    assert Hot(12) == 0x800;
    assert Hot(16) == 0x8000;
    assert Hot(20) == 0x8_0000;
    assert Hot(24) == 0x80_0000;
    assert Hot(28) == 0x800_0000;
  }

  /** Bits at or above n do not matter. */
  lemma {:induction false} BitsLow(w: bv32, n: nat)
    ensures Bits(And(w, Low(n)), n) == Bits(w, n)
    decreases n
  {
    hide Odd, Half, And, Or, Xor, Twice, TwicePlus;
    if n > 0 {
      HalfAndTwice(w, Low(n - 1));
      BitsLow(Half(w), n - 1);
    }
  }

  lemma {:induction false} BitsTop(w: bv32, n: nat)
    requires n > 0
    ensures Bits(w, n)[n - 1] <==> And(w, Hot(n)) != 0
    decreases n
  {
    hide Odd, Half, And, Or, Xor, Twice, TwicePlus;
    if n > 1 {
      HalfAndTwice(w, Hot(n - 1));
      BitsTop(Half(w), n - 1);
    } else {
      OddIs(w);
    }
  }

  lemma OddIs(w: bv32)
    ensures Odd(w) <==> And(w, 1) != 0
  {
  }

  /** Shorter prefixes of the bits. */
  lemma {:induction false} BitsPrefix(w: bv32, n: nat, m: nat)
    requires m <= n
    ensures Bits(w, n)[..m] == Bits(w, m)
    decreases n
  {
    hide Odd, Half, And, Or, Xor, Twice, TwicePlus;
    if m > 0 { BitsPrefix(Half(w), n - 1, m - 1); }
  }

  lemma BitsShl(w: bv32)
    ensures Bits(Twice(w), 32) == [false] + Bits(w, 32)[..31]
    ensures Bits(w, 32)[31] <==> And(w, 0x8000_0000) != 0
  {
    hide Odd, Half, And, Or, Xor, Twice, TwicePlus, Bits, Low, Hot;
    LowValues();
    HalfTwice(w);
    BitsFront(Twice(w), 32);
    BitsLow(w, 31);
    BitsPrefix(w, 32, 31);
    BitsTop(w, 32);
  }

  lemma BitsFront(w: bv32, n: nat)
    requires n > 0
    ensures Bits(w, n) == [Odd(w)] + Bits(Half(w), n - 1)
  {
    hide Odd, Half;
  }

  lemma HalfTwice(w: bv32)
    ensures Half(Twice(w)) == And(w, 0x7fff_ffff) && !Odd(Twice(w))
  {
  }

  lemma BitAt(w: bv32, n: nat, k: nat)
    requires k < n
    ensures Bits(w, n)[k] == if k == 0 then Odd(w) else Bits(Half(w), n - 1)[k - 1]
  {
    hide Odd, Half;
  }

  lemma BitsShr(w: bv32)
    ensures forall k | 0 <= k < 31 :: Bits(Half(w), 32)[k] == Bits(w, 32)[k + 1]
    ensures !Bits(Half(w), 32)[31]
  {
    hide Bits, Half, Odd, And;
    BitsPrefix(Half(w), 32, 31);
    forall k | 0 <= k < 31
      ensures Bits(Half(w), 32)[k] == Bits(w, 32)[k + 1]
    {
      BitAt(w, 32, k + 1);
      assert Bits(Half(w), 32)[..31][k] == Bits(Half(w), 31)[k];
    }
    BitsTop(Half(w), 32);
    LowValues();
    HalfTop(w);
  }

  lemma HalfTop(w: bv32)
    ensures And(Half(w), 0x8000_0000) == 0
  {
  }

  lemma {:induction false} BitsAnd(a: bv32, b: bv32, n: nat, k: nat)
    requires k < n
    ensures Bits(And(a, b), n)[k] <==> Bits(a, n)[k] && Bits(b, n)[k]
    decreases n
  {
    hide Bits, Odd, Half, And, Or, Xor;
    BitAt(a, n, k);
    BitAt(b, n, k);
    BitAt(And(a, b), n, k);
    HalfAnd(a, b);
    if k > 0 { BitsAnd(Half(a), Half(b), n - 1, k - 1); }
  }

  lemma {:induction false} BitsOr(a: bv32, b: bv32, n: nat, k: nat)
    requires k < n
    ensures Bits(Or(a, b), n)[k] <==> Bits(a, n)[k] || Bits(b, n)[k]
    decreases n
  {
    hide Bits, Odd, Half, And, Or, Xor;
    BitAt(a, n, k);
    BitAt(b, n, k);
    BitAt(Or(a, b), n, k);
    HalfOr(a, b);
    if k > 0 { BitsOr(Half(a), Half(b), n - 1, k - 1); }
  }

  lemma {:induction false} BitsXor(a: bv32, b: bv32, n: nat, k: nat)
    requires k < n
    ensures Bits(Xor(a, b), n)[k] <==> Bits(a, n)[k] != Bits(b, n)[k]
    decreases n
  {
    hide Bits, Odd, Half, And, Or, Xor;
    BitAt(a, n, k);
    BitAt(b, n, k);
    BitAt(Xor(a, b), n, k);
    HalfXor(a, b);
    if k > 0 { BitsXor(Half(a), Half(b), n - 1, k - 1); }
  }

  lemma {:induction false} BitsEqual(a: bv32, b: bv32, n: nat)
    requires Bits(a, n) == Bits(b, n)
    ensures And(a, Low(n)) == And(b, Low(n))
    decreases n
  {
    hide Odd, Half, And, Or, Xor, Twice, TwicePlus;
    if n > 0 {
      assert Bits(a, n)[1..] == Bits(Half(a), n - 1) && Bits(b, n)[1..] == Bits(Half(b), n - 1);
      assert Bits(a, n)[0] == Bits(b, n)[0];
      BitsEqual(Half(a), Half(b), n - 1);
      SplitEqual(a, b, Low(n - 1));
    } else {
      AndZero(a);
      AndZero(b);
    }
  }

  lemma AndZero(a: bv32)
    ensures And(a, 0) == 0 && And(a, 0xffff_ffff) == a
  {
  }

  lemma SplitEqual(a: bv32, b: bv32, l: bv32)
    requires (Odd(a) <==> Odd(b)) && And(Half(a), l) == And(Half(b), l)
    ensures And(a, TwicePlus(l)) == And(b, TwicePlus(l))
  {
  }

  /** A word is determined by its 32 bits. */
  lemma WordsEqual(a: bv32, b: bv32)
    requires Bits(a, 32) == Bits(b, 32)
    ensures a == b
  {
    hide Odd, Half, And, Or, Xor, Twice, TwicePlus;
    LowValues();
    BitsEqual(a, b, 32);
    AndZero(a);
    AndZero(b);
  }

  // ----- counting and selecting

  function Ones(s: seq<bool>): nat {
    if s == [] then 0 else (if s[0] then 1 else 0) + Ones(s[1..])
  }

  /** The bits of e at the positions set in m, packed into a number, least significant first. */
  function Select(e: seq<bool>, m: seq<bool>): nat
    requires |e| == |m|
  {
    if m == [] then 0
    else if m[0] then (if e[0] then 1 else 0) + 2 * Select(e[1..], m[1..])
    else Select(e[1..], m[1..])
  }

  lemma {:induction false} SelectBound(e: seq<bool>, m: seq<bool>)
    requires |e| == |m|
    ensures Select(e, m) < Pow2(Ones(m))
  {
    if m != [] { SelectBound(e[1..], m[1..]); }
  }

  /** A new most significant bit. */
  lemma {:induction false} SelectTop(e: seq<bool>, m: seq<bool>, a: bool, b: bool)
    requires |e| == |m|
    ensures Select(e + [a], m + [b]) == Select(e, m) + (if a && b then Pow2(Ones(m)) else 0)
    ensures Ones(m + [b]) == Ones(m) + (if b then 1 else 0)
  {
    if m == [] {
      assert e + [a] == [a] && m + [b] == [b];
    } else {
      assert (e + [a])[1..] == e[1..] + [a] && (m + [b])[1..] == m[1..] + [b];
      SelectTop(e[1..], m[1..], a, b);
    }
  }

  /** Equal selections are equal bits wherever the mask is set, and conversely. */
  lemma {:induction false} SelectInjective(e: seq<bool>, f: seq<bool>, m: seq<bool>)
    requires |e| == |f| == |m|
    ensures Select(e, m) == Select(f, m) <==> forall k | 0 <= k < |m| && m[k] :: e[k] == f[k]
  {
    if m != [] {
      SelectInjective(e[1..], f[1..], m[1..]);
      assert (forall k | 0 <= k < |m| && m[k] :: e[k] == f[k])
        <==> (m[0] ==> e[0] == f[0]) && (forall k | 0 <= k < |m| - 1 && m[1..][k] :: e[1..][k] == f[1..][k]) by {
        if forall k | 0 <= k < |m| && m[k] :: e[k] == f[k] {
          forall k | 0 <= k < |m| - 1 && m[1..][k] ensures e[1..][k] == f[1..][k] { assert m[k + 1]; }
        }
        if (m[0] ==> e[0] == f[0]) && (forall k | 0 <= k < |m| - 1 && m[1..][k] :: e[1..][k] == f[1..][k]) {
          forall k | 0 <= k < |m| && m[k] ensures e[k] == f[k] { if k > 0 { assert m[1..][k - 1]; } }
        }
      }
    }
  }

  lemma {:induction false} OnesBound(s: seq<bool>)
    ensures Ones(s) <= |s|
  {
    if s != [] { OnesBound(s[1..]); }
  }

  lemma {:induction false} OnesMono(a: seq<bool>, b: seq<bool>)
    requires |a| == |b| && forall k | 0 <= k < |a| && a[k] :: b[k]
    ensures Ones(a) <= Ones(b) && (Ones(a) == Ones(b) ==> a == b)
  {
    if a != [] {
      forall k | 0 <= k < |a| - 1 && a[1..][k] ensures b[1..][k] { assert a[k + 1]; }
      OnesMono(a[1..], b[1..]);
      OnesBound(a[1..]);
      assert a == [a[0]] + a[1..] && b == [b[0]] + b[1..];
    }
  }
}

/** Polynomials over the field of two elements, as coefficient sequences, highest degree first. */
module Polynomials {

  ghost function Zeros(n: nat): (z: seq<bool>)
    ensures |z| == n && forall k | 0 <= k < n :: !z[k]
  {
    seq(n, _ => false)
  }

  ghost function Add(a: seq<bool>, b: seq<bool>): (c: seq<bool>)
    requires |a| == |b|
    ensures |c| == |a| && forall k | 0 <= k < |a| :: c[k] == (a[k] != b[k])
  {
    seq(|a|, k requires 0 <= k < |a| => a[k] != b[k])
  }

  /** x to the n times g, or nothing. */
  ghost function Term(b: bool, g: seq<bool>, n: nat): (t: seq<bool>)
    ensures |t| == |g| + n
  {
    if b then g + Zeros(n) else Zeros(|g| + n)
  }

  /** q times g. */
  ghost function Product(q: seq<bool>, g: seq<bool>): (p: seq<bool>)
    requires |g| > 0
    ensures |p| == |q| + |g| - 1
    decreases |q|
  {
    if q == [] then Zeros(|g| - 1) else Add(Term(q[0], g, |q| - 1), [false] + Product(q[1..], g))
  }

  /** Coefficient k of the product, by the leading coefficient of q. */
  lemma ProductAt(q: seq<bool>, g: seq<bool>, k: nat)
    requires |g| > 0 && q != [] && k < |q| + |g| - 1
    ensures Product(q, g)[k] == ((q[0] && k < |g| && g[k]) != (k > 0 && Product(q[1..], g)[k - 1]))
  {
  }

  lemma ProductNone(q: seq<bool>, g: seq<bool>, k: nat)
    requires q == [] && k < |g| - 1
    ensures !Product(q, g)[k]
  {
  }

  ghost predicate Quotient(p: seq<bool>, g: seq<bool>, r: seq<bool>, q: seq<bool>)
    requires 0 < |g| <= |p| + 1 && |r| == |g| - 1
  {
    |q| == |p| - |r| && p == Add(Product(q, g), Zeros(|q|) + r)
  }

  /** p == q * g + r for some quotient q, and r has lower degree than g. */
  ghost predicate Remainder(p: seq<bool>, g: seq<bool>, r: seq<bool>)
    requires |g| > 0
  {
    |r| == |g| - 1 <= |p| && exists q :: Quotient(p, g, r, q)
  }

  /** p with s added to its leading coefficients. */
  ghost function AddFront(s: seq<bool>, p: seq<bool>): (c: seq<bool>)
    requires |s| <= |p|
    ensures |c| == |p|
  {
    Add(s + Zeros(|p| - |s|), p)
  }

  /** One step of long division: the leading coefficient is cancelled with a multiple of g. */
  ghost function Cancel(p: seq<bool>, g: seq<bool>): (c: seq<bool>)
    requires 0 < |g| <= |p|
    ensures |c| == |p| - 1
  {
    if p[0] then AddFront(g[1..], p[1..]) else p[1..]
  }

  /** A long division step keeps the remainder. */
  lemma CancelKeepsRemainder(p: seq<bool>, g: seq<bool>, r: seq<bool>)
    requires 0 < |g| <= |p| && g[0]
    ensures Remainder(p, g, r) <==> Remainder(Cancel(p, g), g, r)
  {
    hide Quotient, Cancel;
    if Remainder(p, g, r) {
      var q :| Quotient(p, g, r, q);
      CancelOne(p, g, r, q);
    }
    if Remainder(Cancel(p, g), g, r) {
      var q :| Quotient(Cancel(p, g), g, r, q);
      assert ([p[0]] + q)[1..] == q;
      CancelOne(p, g, r, [p[0]] + q);
    }
  }

  lemma CancelOne(p: seq<bool>, g: seq<bool>, r: seq<bool>, q: seq<bool>)
    requires 0 < |g| <= |p| && g[0] && |r| == |g| - 1
    ensures Quotient(p, g, r, q) ==> q != [] && Quotient(Cancel(p, g), g, r, q[1..])
    ensures q != [] && q[0] == p[0] && Quotient(Cancel(p, g), g, r, q[1..]) ==> Quotient(p, g, r, q)
  {
    hide Product, Term, Cancel;
    if |q| == |p| - |r| {
      var s := Add(Product(q, g), Zeros(|q|) + r);
      var t := Add(Product(q[1..], g), Zeros(|q| - 1) + r);
      var c := Cancel(p, g);
      ProductAt(q, g, 0);
      forall k | 0 <= k < |t|
        ensures s[k + 1] == ((q[0] && k + 1 < |g| && g[k + 1]) != t[k])
        ensures c[k] == ((p[0] && k + 1 < |g| && g[k + 1]) != p[k + 1])
      {
        ProductAt(q, g, k + 1);
        CancelAt(p, g, k);
        assert (Zeros(|q|) + r)[k + 1] == (Zeros(|q| - 1) + r)[k];
      }
      SameTails(p, s, c, t, q[0], g);
    }
  }

  lemma CancelAt(p: seq<bool>, g: seq<bool>, k: nat)
    requires 0 < |g| <= |p| && k < |p| - 1
    ensures Cancel(p, g)[k] == ((p[0] && k + 1 < |g| && g[k + 1]) != p[k + 1])
  {
  }

  lemma SameTails(p: seq<bool>, s: seq<bool>, c: seq<bool>, t: seq<bool>, b: bool, g: seq<bool>)
    requires |p| == |s| == |c| + 1 == |t| + 1 && s[0] == b
    requires forall k | 0 <= k < |t| :: s[k + 1] == ((b && k + 1 < |g| && g[k + 1]) != t[k])
    requires forall k | 0 <= k < |t| :: c[k] == ((p[0] && k + 1 < |g| && g[k + 1]) != p[k + 1])
    ensures p == s ==> c == t
    ensures p[0] == b && c == t ==> p == s
  {
    if p[0] == b && c == t {
      forall k | 0 <= k < |p| ensures p[k] == s[k] { if k > 0 { assert c[k - 1] == t[k - 1]; } }
    }
  }

  /** There is nothing to divide in a polynomial of lower degree than g. */
  lemma ShortRemainder(p: seq<bool>, g: seq<bool>, r: seq<bool>)
    requires |p| == |g| - 1
    ensures Remainder(p, g, r) <==> r == p
  {
    if |r| == |p| {
      assert Add(Product([], g), Zeros(0) + r) == r;
      assert r == p ==> Quotient(p, g, r, []);
    }
  }

  lemma {:induction false} ProductAdd(a: seq<bool>, b: seq<bool>, g: seq<bool>, k: nat)
    requires |a| == |b| && |g| > 0 && k < |a| + |g| - 1
    ensures Product(Add(a, b), g)[k] == (Product(a, g)[k] != Product(b, g)[k])
    decreases |a|
  {
    hide Product, Add;
    if a == [] {
      ProductNone(a, g, k);
      ProductNone(b, g, k);
      ProductNone(Add(a, b), g, k);
    } else {
      ProductAt(a, g, k);
      ProductAt(b, g, k);
      ProductAt(Add(a, b), g, k);
      assert Add(a, b)[1..] == Add(a[1..], b[1..]);
      if k > 0 { ProductAdd(a[1..], b[1..], g, k - 1); }
    }
  }

  /** The first term of q stays the first term of the product ... */
  lemma {:induction false} ProductFirst(q: seq<bool>, g: seq<bool>, i: nat)
    requires |g| > 0 && g[0] && i < |q| && q[i] && forall k | 0 <= k < i :: !q[k]
    ensures Product(q, g)[i]
    decreases |q|
  {
    hide Product;
    ProductAt(q, g, i);
    if i > 0 { ProductFirst(q[1..], g, i - 1); }
  }

  /** ... and the last term of q times the last of g the last. */
  lemma {:induction false} ProductLast(q: seq<bool>, g: seq<bool>, j: nat)
    requires |g| > 0 && g[|g| - 1] && j < |q| && q[j] && forall k | j < k < |q| :: !q[k]
    ensures Product(q, g)[j + |g| - 1]
    decreases |q|
  {
    hide Product;
    ProductAt(q, g, j + |g| - 1);
    if j > 0 {
      ProductLast(q[1..], g, j - 1);
    } else if |g| > 1 {
      ProductZero(q[1..], g, |g| - 2);
    }
  }

  lemma {:induction false} ProductZero(q: seq<bool>, g: seq<bool>, k: nat)
    requires |g| > 0 && k < |q| + |g| - 1 && forall i | 0 <= i < |q| :: !q[i]
    ensures !Product(q, g)[k]
    decreases |q|
  {
    if q != [] && k > 0 { ProductZero(q[1..], g, k - 1); }
  }

  ghost function FirstSet(q: seq<bool>): (i: nat)
    requires true in q
    ensures i < |q| && q[i] && forall k | 0 <= k < i :: !q[k]
  {
    if q[0] then 0 else FirstSet(q[1..]) + 1
  }

  ghost function LastSet(q: seq<bool>): (j: nat)
    requires true in q
    ensures j < |q| && q[j] && forall k | j < k < |q| :: !q[k]
  {
    if q[|q| - 1] then |q| - 1 else LastSet(q[..|q| - 1])
  }

  /** A multiple of g whose terms fit in a window shorter than g is zero. */
  lemma MultiplesAreLong(q: seq<bool>, g: seq<bool>, lo: nat)
    requires |g| > 0 && g[0] && g[|g| - 1]
    requires forall k | 0 <= k < |Product(q, g)| && Product(q, g)[k] :: lo <= k < lo + |g| - 1
    ensures true !in q
  {
    if true in q {
      ProductFirst(q, g, FirstSet(q));
      ProductLast(q, g, LastSet(q));
      assert false;
    }
  }

  /** Dividends that differ in a window shorter than g, and only there, have different remainders. */
  lemma BurstChangesRemainder(p: seq<bool>, p': seq<bool>, g: seq<bool>, r: seq<bool>, lo: nat)
    requires |g| > 0 && g[0] && g[|g| - 1] && |p| == |p'|
    requires Remainder(p, g, r) && Remainder(p', g, r)
    requires forall k | 0 <= k < |p| && p[k] != p'[k] :: lo <= k < lo + |g| - 1
    ensures p == p'
  {
    hide Product, Quotient;
    var q :| Quotient(p, g, r, q);
    var q' :| Quotient(p', g, r, q');
    QuotientAt(p, g, r, q);
    QuotientAt(p', g, r, q');
    var d := Add(q, q');
    forall k: nat | k < |p|
      ensures (p[k] != p'[k]) == Product(d, g)[k]
    {
      ProductAdd(q, q', g, k);
    }
    MultiplesAreLong(d, g, lo);
    forall k: nat | k < |p|
      ensures p[k] == p'[k]
    {
      ProductZero(d, g, k);
    }
  }

  lemma QuotientAt(p: seq<bool>, g: seq<bool>, r: seq<bool>, q: seq<bool>)
    requires 0 < |g| <= |p| + 1 && |r| == |g| - 1 && Quotient(p, g, r, q)
    ensures |q| == |p| - |r| && forall k | 0 <= k < |p| :: p[k] == (Product(q, g)[k] != (Zeros(|q|) + r)[k])
  {
    hide Product;
  }

  /** p and t aligned so that t starts at the last |g| - 1 coefficients of p, and added. */
  ghost function Overlap(p: seq<bool>, t: seq<bool>, n: nat): (c: seq<bool>)
    requires n <= |p| && n <= |t|
    ensures |c| == |p| + |t| - n
  {
    Add(p + Zeros(|t| - n), Zeros(|p| - n) + t)
  }

  /** What has been divided already may be replaced by its remainder. */
  lemma {:induction false} RemainderOfPrefix(p: seq<bool>, g: seq<bool>, r: seq<bool>, t: seq<bool>, r': seq<bool>)
    requires |g| > 0 && g[0] && Remainder(p, g, r) && |g| - 1 <= |t|
    ensures Remainder(Overlap(p, t, |r|), g, r') <==> Remainder(Overlap(r, t, |r|), g, r')
    decreases |p|
  {
    hide Remainder, Cancel, Overlap;
    RemainderLength(p, g, r);
    if |p| == |g| - 1 {
      ShortRemainder(p, g, r);
    } else {
      CancelKeepsRemainder(p, g, r);
      RemainderOfPrefix(Cancel(p, g), g, r, t, r');
      CancelKeepsRemainder(Overlap(p, t, |r|), g, r');
      CancelOverlap(p, g, t);
    }
  }

  lemma RemainderLength(p: seq<bool>, g: seq<bool>, r: seq<bool>)
    requires |g| > 0 && Remainder(p, g, r)
    ensures |r| == |g| - 1 <= |p|
  {
  }

  lemma CancelOverlap(p: seq<bool>, g: seq<bool>, t: seq<bool>)
    requires 0 < |g| <= |p| && |g| - 1 <= |t|
    ensures Cancel(Overlap(p, t, |g| - 1), g) == Overlap(Cancel(p, g), t, |g| - 1)
  {
    hide Cancel;
    var n := |g| - 1;
    var l, r := Cancel(Overlap(p, t, n), g), Overlap(Cancel(p, g), t, n);
    forall k | 0 <= k < |l|
      ensures l[k] == r[k]
    {
      CancelAt(Overlap(p, t, n), g, k);
      if k < |p| - 1 { CancelAt(p, g, k); }
      assert (Zeros(|p| - n) + t)[k + 1] == (Zeros(|p| - 1 - n) + t)[k];
    }
  }
}

/** The 32-bit cyclic redundancy check. */
module Crc {
  import opened Words
  import opened Polynomials

  const POLY: bv32 := 0xedb8_8320
  const INIT: bv32 := 0xffff_ffff

  /** x^32 + x^26 + x^23 + x^22 + x^16 + x^12 + x^11 + x^10 + x^8 + x^7 + x^5 + x^4 + x^2 + x + 1 */
  ghost function Generator(): (g: seq<bool>)
    ensures |g| == 33
  {
    [true] + Bits(POLY, 32)
  }

  /** The bits of a message in transmission order: each byte least significant bit first. */
  ghost function MessageBits(m: seq<bv8>): (s: seq<bool>)
    ensures |s| == 8 * |m|
  {
    if m == [] then [] else MessageBits(m[..|m| - 1]) + Bits(m[|m| - 1] as bv32, 8)
  }

  ghost predicate ByteBit(b: bv8, k: nat)
    requires k < 8
  {
    Bits(b as bv32, 8)[k]
  }

  /** The message followed by 32 zeros, with the register's initial contents added in front. */
  ghost function Dividend(m: seq<bv8>): (p: seq<bool>)
    ensures |p| == 8 * |m| + 32
  {
    AddFront(Bits(INIT, 32), MessageBits(m) + Zeros(32))
  }

  lemma GeneratorEnds()
    ensures Generator()[0] && Generator()[32]
  {
    hide Bits;
    BitsTop(POLY, 32);
    LowValues();
  }

  /** The exponents of the generator, as section 8.1.1.6.2 of ITU-T V.42 lists them. */
  lemma GeneratorTerms(e: nat)
    requires e <= 32
    ensures Generator()[32 - e] <==> e in {32, 26, 23, 22, 16, 12, 11, 10, 8, 7, 5, 4, 2, 1, 0}
  {
    hide Bits;
    Nibble(0xedb88320, 0xedb8832, 32);
    Nibble(0xedb8832, 0xedb883, 28);
    Nibble(0xedb883, 0xedb88, 24);
    Nibble(0xedb88, 0xedb8, 20);
    Nibble(0xedb8, 0xedb, 16);
    Nibble(0xedb, 0xed, 12);
    Nibble(0xed, 0xe, 8);
    Nibble(0xe, 0x0, 4);
  }

  lemma Nibble(w: bv32, h: bv32, n: nat)
    requires n >= 4 && h == w >> 4
    ensures Bits(w, n) == [w & 1 == 1, w & 2 == 2, w & 4 == 4, w & 8 == 8] + Bits(h, n - 4)
  {
    hide Half, Odd;
    NibbleHalves(w);
    assert Bits(w, n) == [Odd(w)] + Bits(Half(w), n - 1);
    assert Bits(Half(Half(w)), n - 2) == [Odd(Half(Half(w)))] + Bits(Half(Half(Half(w))), n - 3);
  }

  lemma NibbleHalves(w: bv32)
    ensures Odd(w) == (w & 1 == 1) && Odd(Half(w)) == (w & 2 == 2)
    ensures Odd(Half(Half(w))) == (w & 4 == 4) && Odd(Half(Half(Half(w)))) == (w & 8 == 8)
    ensures Half(Half(Half(Half(w)))) == w >> 4
  {
    hide Half, Odd;
    OneHalf(w);
    TwoHalves(w);
    OneHalf(w >> 2);
    TwoHalves(w >> 2);
    HighPair(w);
  }

  lemma OneHalf(w: bv32)
    ensures Odd(w) == (w & 1 == 1) && Odd(Half(w)) == (w & 2 == 2)
  {
  }

  lemma TwoHalves(w: bv32)
    ensures Half(Half(w)) == w >> 2
  {
  }

  lemma HighPair(w: bv32)
    ensures ((w >> 2) & 1 == 1) == (w & 4 == 4) && ((w >> 2) & 2 == 2) == (w & 8 == 8) && (w >> 2) >> 2 == w >> 4
  {
  }

  /** Dividing what the message stands for leaves what dividing the register, n places up, leaves. */
  ghost predicate Pending(m: seq<bv8>, c: bv32, n: nat) {
    forall r :: Remainder(Dividend(m), Generator(), r) <==> Remainder(Bits(c, 32) + Zeros(n), Generator(), r)
  }

  function Shift(c: bv32): bv32 {
    Xor(Half(c), And(POLY, 0 - And(c, 1)))
  }

  lemma ShiftIs(c: bv32)
    ensures Shift(c) == if Odd(c) then Xor(Half(c), POLY) else Half(c)
  {
  }

  /** A shift of the register is a step of the division. */
  lemma ShiftCancels(c: bv32, n: nat)
    ensures Cancel(Bits(c, 32) + Zeros(n + 1), Generator()) == Bits(Shift(c), 32) + Zeros(n)
  {
    hide Bits, Cancel, Shift, Half, Odd, Xor;
    var p, s := Bits(c, 32) + Zeros(n + 1), Bits(Shift(c), 32) + Zeros(n);
    ShiftIs(c);
    BitsShr(c);
    BitAt(c, 32, 0);
    forall k: nat | k < n + 32
      ensures Cancel(p, Generator())[k] == s[k]
    {
      CancelAt(p, Generator(), k);
      if k < 32 { BitsXor(Half(c), POLY, 32, k); }
    }
  }

  lemma ShiftStep(m: seq<bv8>, c: bv32, n: nat)
    requires Pending(m, c, n + 1)
    ensures Pending(m, Shift(c), n)
  {
    hide Bits, Cancel, Shift, Remainder, Dividend, Generator;
    GeneratorEnds();
    ShiftCancels(c, n);
    forall r
      ensures Remainder(Dividend(m), Generator(), r) <==> Remainder(Bits(Shift(c), 32) + Zeros(n), Generator(), r)
    {
      CancelKeepsRemainder(Bits(c, 32) + Zeros(n + 1), Generator(), r);
    }
  }

  lemma {:induction false} BitsOfZero(n: nat)
    ensures Bits(0, n) == Zeros(n)
  {
    if n > 0 { BitsOfZero(n - 1); }
  }

  lemma ByteBits(b: bv32)
    requires b < 0x100
    ensures Bits(b, 32) == Bits(b, 8) + Zeros(24)
  {
    hide Bits, Half, Odd;
    BitsPrefix(b, 32, 8);
    BitsTail(b, 8);
    ByteFits(b);
    HalvesFit(b, 8);
    BitsOfZero(24);
  }

  function Halves(b: bv32, n: nat): bv32 {
    if n == 0 then b else Halves(Half(b), n - 1)
  }

  lemma {:induction false} BitsTail(b: bv32, n: nat)
    requires n <= 32
    ensures forall k | n <= k < 32 :: Bits(b, 32)[k] == Bits(Halves(b, n), 32 - n)[k - n]
  {
    BitsDrop(b, 32, n);
  }

  lemma {:induction false} BitsDrop(b: bv32, m: nat, n: nat)
    requires n <= m
    ensures Bits(b, m)[n..] == Bits(Halves(b, n), m - n)
    decreases n
  {
    hide Half, Odd;
    if n > 0 { BitsDrop(Half(b), m - 1, n - 1); }
  }

  lemma {:induction false} HalvesFit(b: bv32, n: nat)
    requires And(b, Low(n)) == b
    ensures Halves(b, n) == 0
    decreases n
  {
    hide Half, Odd, And, TwicePlus;
    if n == 0 {
      AndZero(b);
    } else {
      HalfAndTwice(b, Low(n - 1));
      HalvesFit(Half(b), n - 1);
    }
  }

  lemma ByteFits(b: bv32)
    requires b < 0x100
    ensures And(b, Low(8)) == b
  {
    assert Low(4) == 0xf;
    assert Low(8) == 0xff;
    AndByte(b);
  }

  lemma AndByte(b: bv32)
    requires b < 0x100
    ensures b & 0xff == b
  {
  }

  /** The byte is added to the register in front of eight new places. */
  lemma ByteStep(m: seq<bv8>, c: bv32, b: bv8)
    requires Pending(m, c, 0)
    ensures Pending(m + [b], Xor(c, b as bv32), 8)
  {
    hide Bits, Remainder, Dividend, Generator, Xor, Overlap;
    var t := Bits(b as bv32, 8) + Zeros(32);
    DividendGrows(m, b);
    RegisterGrows(c, b as bv32);
    GeneratorEnds();
    RemainderNow(m, c);
    forall r
      ensures Remainder(Dividend(m + [b]), Generator(), r)
        <==> Remainder(Bits(Xor(c, b as bv32), 32) + Zeros(8), Generator(), r)
    {
      RemainderOfPrefix(Dividend(m), Generator(), Bits(c, 32), t, r);
    }
  }

  lemma RemainderNow(m: seq<bv8>, c: bv32)
    requires Pending(m, c, 0)
    ensures forall r :: Remainder(Dividend(m), Generator(), r) <==> r == Bits(c, 32)
  {
    hide Bits, Remainder, Dividend, Generator;
    assert Bits(c, 32) + Zeros(0) == Bits(c, 32);
    forall r
      ensures Remainder(Dividend(m), Generator(), r) <==> r == Bits(c, 32)
    {
      ShortRemainder(Bits(c, 32), Generator(), r);
    }
  }

  lemma DividendGrows(m: seq<bv8>, b: bv8)
    ensures Dividend(m + [b]) == Overlap(Dividend(m), Bits(b as bv32, 8) + Zeros(32), 32)
  {
    hide Bits, Dividend;
    var p, o := Dividend(m + [b]), Overlap(Dividend(m), Bits(b as bv32, 8) + Zeros(32), 32);
    forall k: nat | k < |p|
      ensures p[k] == o[k]
    {
      DividendBit(m + [b], k);
      if k < 8 * |m| + 32 { DividendBit(m, k); }
      OverlapAt(Dividend(m), Bits(b as bv32, 8), k);
    }
  }

  lemma OverlapAt(p: seq<bool>, b: seq<bool>, k: nat)
    requires |p| >= 32 && |b| == 8 && k < |p| + 8
    ensures Overlap(p, b + Zeros(32), 32)[k]
      == ((k < |p| && p[k]) != (|p| - 32 <= k < |p| - 24 && b[k - (|p| - 32)]))
  {
  }

  lemma RegisterGrows(c: bv32, b: bv32)
    requires b < 0x100
    ensures Overlap(Bits(c, 32), Bits(b, 8) + Zeros(32), 32) == Bits(Xor(c, b), 32) + Zeros(8)
  {
    hide Bits, Xor;
    ByteBits(b);
    forall k: nat | k < 32
      ensures Bits(Xor(c, b), 32)[k] == (Bits(c, 32)[k] != Bits(b, 32)[k])
    {
      BitsXor(c, b, 32, k);
    }
  }

  lemma EmptyMessage()
    ensures Pending([], INIT, 0)
  {
    hide Bits, Remainder, Generator;
    assert Dividend([]) == Bits(INIT, 32) + Zeros(0);
  }

  /** What a checksum is: the complement of the remainder, which is unique. */
  ghost predicate IsChecksum(m: seq<bv8>, sum: bv32) {
    forall r :: Remainder(Dividend(m), Generator(), r) <==> r == Bits(Xor(sum, INIT), 32)
  }

  class Crc32 {
    var crc: bv32
    ghost var message: seq<bv8>

    ghost predicate Valid()
      reads this
    {
      Pending(message, crc, 0)
    }

    constructor ()
      ensures Valid() && message == []
    {
      crc, message := INIT, [];
      new;
      EmptyMessage();
    }

    method Reset()
      modifies this
      ensures Valid() && message == []
    {
      crc, message := INIT, [];
      EmptyMessage();
    }

    method ProcessBytes(data: seq<bv8>)
      requires Valid()
      modifies this
      ensures Valid() && message == old(message) + data
    {
      hide Pending;
      assert old(message) + data[..0] == old(message);
      for i := 0 to |data|
        invariant Valid() && message == old(message) + data[..i]
      {
        ByteStep(message, crc, data[i]);
        crc, message := crc ^ (data[i] as bv32), message + [data[i]];
        for bit := 0 to 8
          invariant Pending(message, crc, 8 - bit) && message == old(message) + data[..i + 1]
        {
          ShiftStep(message, crc, 7 - bit);
          var mask := 0 - (crc & 1);
          crc := (crc >> 1) ^ (POLY & mask);
        }
      }
      assert data[..|data|] == data;
    }

    function Checksum(): (sum: bv32)
      requires Valid()
      reads this
      ensures IsChecksum(message, sum)
    {
      Complemented(message, crc);
      crc ^ 0xffff_ffff
    }
  }

  lemma Complemented(m: seq<bv8>, c: bv32)
    requires Pending(m, c, 0)
    ensures IsChecksum(m, c ^ 0xffff_ffff)
  {
    hide Pending, Bits, Remainder, Dividend, Generator;
    RemainderNow(m, c);
    XorTwice(c);
  }

  lemma XorTwice(c: bv32)
    ensures Xor(c ^ 0xffff_ffff, INIT) == c
  {
  }

  function Joined(parts: seq<seq<bv8>>): (m: seq<bv8>) {
    if parts == [] then [] else Joined(parts[..|parts| - 1]) + parts[|parts| - 1]
  }

  /** A message has one checksum, however it is cut into calls. */
  lemma ChecksumUnique(m: seq<bv8>, sum: bv32, sum': bv32)
    requires IsChecksum(m, sum) && IsChecksum(m, sum')
    ensures sum == sum'
  {
    hide Bits, Remainder, Dividend, Generator;
    assert Remainder(Dividend(m), Generator(), Bits(Xor(sum, INIT), 32));
    WordsEqual(Xor(sum, INIT), Xor(sum', INIT));
    XorInjective(sum, sum');
  }

  lemma XorInjective(a: bv32, b: bv32)
    ensures Xor(a, INIT) == Xor(b, INIT) ==> a == b
  {
  }

  method ChecksumOfParts(parts: seq<seq<bv8>>) returns (sum: bv32, whole: bv32)
    ensures sum == whole && IsChecksum(Joined(parts), sum)
  {
    hide IsChecksum, Pending;
    var crc := new Crc32();
    for i := 0 to |parts|
      invariant fresh(crc) && crc.Valid() && crc.message == Joined(parts[..i])
    {
      assert parts[..i + 1][..i] == parts[..i];
      crc.ProcessBytes(parts[i]);
    }
    assert parts[..|parts|] == parts;
    sum := crc.Checksum();
    assert IsChecksum(Joined(parts), sum);
    crc.Reset();
    crc.ProcessBytes(Joined(parts));
    assert crc.message == Joined(parts);
    whole := crc.Checksum();
    ChecksumUnique(Joined(parts), sum, whole);
  }

  /** Messages of one length that differ within four consecutive bytes, and only there, have different checksums. */
  lemma BurstDetected(m: seq<bv8>, m': seq<bv8>, k: nat, sum: bv32, sum': bv32)
    requires |m| == |m'| && m != m' && forall i | 0 <= i < |m| && m[i] != m'[i] :: k <= i < k + 4
    requires IsChecksum(m, sum) && IsChecksum(m', sum')
    ensures sum != sum'
  {
    hide Bits, Remainder, Dividend, Generator;
    if sum == sum' {
      var r := Bits(Xor(sum, INIT), 32);
      assert Remainder(Dividend(m), Generator(), r) && Remainder(Dividend(m'), Generator(), r);
      GeneratorEnds();
      var i: nat :| i < |m| && m[i] != m'[i];
      DividendInjective(m, m', i);
      forall j | 0 <= j < |Dividend(m)| && Dividend(m)[j] != Dividend(m')[j]
        ensures 8 * k <= j < 8 * k + 32
      {
        BurstWindow(m, m', k, j);
      }
      BurstChangesRemainder(Dividend(m), Dividend(m'), Generator(), r, 8 * k);
      assert false;
    }
  }

  /** Bit k of the message is bit k % 8 of byte k / 8. */
  lemma {:induction false} MessageBit(m: seq<bv8>, k: nat)
    requires k < 8 * |m|
    ensures MessageBits(m)[k] == ByteBit(m[k / 8], k % 8)
  {
    hide Bits;
    if k < 8 * (|m| - 1) { MessageBit(m[..|m| - 1], k); }
  }

  lemma DividendBit(m: seq<bv8>, k: nat)
    requires k < 8 * |m| + 32
    ensures Dividend(m)[k] == ((k < 32 && Bits(INIT, 32)[k]) != (k < 8 * |m| && ByteBit(m[k / 8], k % 8)))
  {
    hide Bits;
    if k < 8 * |m| { MessageBit(m, k); }
  }

  lemma BurstWindow(m: seq<bv8>, m': seq<bv8>, k: nat, j: nat)
    requires |m| == |m'| && forall i | 0 <= i < |m| && m[i] != m'[i] :: k <= i < k + 4
    requires j < 8 * |m| + 32 && Dividend(m)[j] != Dividend(m')[j]
    ensures 8 * k <= j < 8 * k + 32
  {
    hide ByteBit, Bits, Dividend;
    DividendBit(m, j);
    DividendBit(m', j);
  }

  lemma DividendInjective(m: seq<bv8>, m': seq<bv8>, i: nat)
    requires |m| == |m'| && i < |m| && m[i] != m'[i]
    ensures Dividend(m) != Dividend(m')
  {
    hide ByteBit, Bits, Dividend;
    var b := BytesDiffer(m[i], m'[i]);
    DividendDiffers(m, m', i, b, 8 * i + b);
  }

  lemma DividendDiffers(m: seq<bv8>, m': seq<bv8>, i: nat, b: nat, j: nat)
    requires |m| == |m'| && i < |m| && b < 8 && j / 8 == i && j % 8 == b && j < 8 * |m|
    requires ByteBit(m[i], b) != ByteBit(m'[i], b)
    ensures Dividend(m)[j] != Dividend(m')[j]
  {
    hide ByteBit, Bits, Dividend;
    DividendBit(m, j);
    DividendBit(m', j);
  }

  lemma BytesDiffer(a: bv8, b: bv8) returns (k: nat)
    requires a != b
    ensures k < 8 && ByteBit(a, k) != ByteBit(b, k)
  {
    hide Bits;
    var s, t := Bits(a as bv32, 8), Bits(b as bv32, 8);
    if s == t {
      ByteBits(a as bv32);
      ByteBits(b as bv32);
      WordsEqual(a as bv32, b as bv32);
      assert false;
    }
    k :| 0 <= k < |s| && s[k] != t[k];
  }
}

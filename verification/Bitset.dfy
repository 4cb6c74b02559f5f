/** Sets of the numbers below a size, as blocks of bits. */
module Bitsets {

  const BITS: nat := 64

  /** An unsigned block, as its bits from the lowest up. */
  type Block = b: seq<bool> | |b| == BITS witness seq(BITS, _ => false)

  function Fill(v: bool): (b: Block)
    ensures forall k | 0 <= k < BITS :: b[k] == v
  {
    seq(BITS, _ => v)
  }

  predicate IsZero(b: Block) {
    forall k | 0 <= k < BITS :: !b[k]
  }

  function ShiftRight(b: Block): (c: Block)
    ensures forall k | 0 <= k < BITS :: c[k] == (k + 1 < BITS && b[k + 1])
  {
    b[1..] + [false]
  }

  function Combine(op: (bool, bool) -> bool, a: Block, b: Block): (c: Block)
    ensures forall k | 0 <= k < BITS :: c[k] == op(a[k], b[k])
  {
    seq(BITS, k requires 0 <= k < BITS => op(a[k], b[k]))
  }

  function Invert(a: Block): (c: Block)
    ensures forall k | 0 <= k < BITS :: c[k] == !a[k]
  {
    seq(BITS, k requires 0 <= k < BITS => !a[k])
  }

  /** The bits below n kept, the others cleared: masking with (1 << n) - 1. */
  function KeepLow(b: Block, n: nat): (c: Block)
    requires n < BITS
    ensures forall k | 0 <= k < BITS :: c[k] == (k < n && b[k])
  {
    b[..n] + seq(BITS - n, _ => false)
  }

  /** What n right shifts leave. */
  ghost function Shifted(b: Block, n: nat): (c: Block)
    ensures forall k | 0 <= k < BITS :: c[k] == (k + n < BITS && b[k + n])
  {
    seq(BITS, k requires 0 <= k < BITS => k + n < BITS && b[k + n])
  }

  lemma ShiftMore(b: Block, n: nat)
    ensures Shifted(b, 0) == b && ShiftRight(Shifted(b, n)) == Shifted(b, n + 1)
    ensures Shifted(b, n)[0] == (n < BITS && b[n])
    ensures IsZero(Shifted(b, n)) <==> forall k | n <= k < BITS :: !b[k]
  {
    if IsZero(Shifted(b, n)) {
      forall k | n <= k < BITS ensures !b[k] { assert !Shifted(b, n)[k - n]; }
    }
  }

  function BlockCount(size: nat): nat {
    if size == 0 then 0 else (size + BITS - 1) / BITS
  }

  predicate Bit(blocks: seq<Block>, k: nat) {
    k / BITS < |blocks| && blocks[k / BITS][k % BITS]
  }

  ghost function Below(blocks: seq<Block>, n: nat): (s: set<nat>)
    ensures forall k: nat :: k in s <==> k < n && Bit(blocks, k)
  {
    if n == 0 then {} else Below(blocks, n - 1) + if Bit(blocks, n - 1) then {n - 1} else {}
  }

  /** No bit at or above n. */
  ghost predicate Trimmed(blocks: seq<Block>, n: nat) {
    forall k: nat | k >= n :: !Bit(blocks, k)
  }

  lemma BitUpdate(blocks: seq<Block>, pos: nat, value: bool, k: nat)
    requires pos / BITS < |blocks|
    ensures Bit(blocks[pos / BITS := blocks[pos / BITS][pos % BITS := value]], k)
      <==> if k == pos then value else Bit(blocks, k)
  {
  }

  lemma BlockOf(size: nat, pos: nat)
    requires pos < size
    ensures pos / BITS < BlockCount(size)
  {
  }

  /** An operation on corresponding blocks is the operation on corresponding bits. */
  lemma BitCombine(op: (bool, bool) -> bool, a: seq<Block>, b: seq<Block>, c: seq<Block>, k: nat)
    requires |a| == |b| == |c| && forall i | 0 <= i < |a| :: c[i] == Combine(op, a[i], b[i])
    ensures Bit(c, k) <==> k / BITS < |a| && op(Bit(a, k), Bit(b, k))
  {
  }

  lemma BitInvert(a: seq<Block>, c: seq<Block>, k: nat)
    requires |a| == |c| && forall i | 0 <= i < |a| :: c[i] == Invert(a[i])
    ensures Bit(c, k) <==> k / BITS < |a| && !Bit(a, k)
  {
  }

  lemma BitFill(v: bool, blocks: seq<Block>, k: nat)
    requires forall i | 0 <= i < |blocks| :: blocks[i] == Fill(v)
    ensures Bit(blocks, k) <==> k / BITS < |blocks| && v
  {
  }

  /** Clearing the unused bits of the last block leaves the bits below size, and only those. */
  lemma BitTrim(blocks: seq<Block>, size: nat, k: nat)
    requires |blocks| == BlockCount(size) > 0
    ensures size % BITS != 0 ==>
      (Bit(blocks[|blocks| - 1 := KeepLow(blocks[|blocks| - 1], size % BITS)], k) <==> k < size && Bit(blocks, k))
    ensures size % BITS == 0 ==> (Bit(blocks, k) ==> k < size)
  {
  }

  class Bitset {
    var size: nat
    var blocks: seq<Block>

    ghost predicate Valid()
      reads this
    {
      |blocks| == BlockCount(size) && Trimmed(blocks, size)
    }

    ghost function Members(): set<nat>
      reads this
    {
      Below(blocks, size)
    }

    /** The numbers below size whose bit is set in value. */
    constructor (size: nat, value: Block)
      ensures Valid() && this.size == size && forall k: nat :: k in Members() <==> k < size && k < BITS && value[k]
    {
      hide Bit;
      this.size := size;
      blocks := seq(BlockCount(size), _ => Fill(false));
      new;
      forall k: nat ensures !Bit(blocks, k) { BitFill(false, blocks, k); }
      Load(value);
    }

    /** Sets the bits of value, lowest first, until the size or the last set bit is reached. */
    method Load(value: Block)
      requires Valid() && forall k: nat :: !Bit(blocks, k)
      modifies this
      ensures Valid() && size == old(size) && forall k: nat :: Bit(blocks, k) <==> k < size && k < BITS && value[k]
    {
      hide Bit, Below, Shifted, IsZero, ShiftRight;
      var v := value;
      var i := 0;
      ShiftMore(value, 0);
      while i < size && !IsZero(v)
        invariant Valid() && size == old(size) && i <= size && v == Shifted(value, i)
        invariant forall k: nat :: Bit(blocks, k) <==> k < i && k < BITS && value[k]
        decreases size - i
      {
        ShiftMore(value, i);
        if v[0] { SetBit(i, true); }
        v := ShiftRight(v);
        i := i + 1;
      }
      ShiftMore(value, i);
    }

    method Set(pos: nat, value: bool)
      requires Valid() && pos < size
      modifies this
      ensures Valid() && size == old(size)
      ensures Members() == if value then old(Members()) + {pos} else old(Members()) - {pos}
    {
      hide Bit;
      SetBit(pos, value);
    }

    method SetBit(pos: nat, value: bool)
      requires Valid() && pos < size
      modifies this
      ensures Valid() && size == old(size)
      ensures forall k: nat :: Bit(blocks, k) <==> if k == pos then value else Bit(old(blocks), k)
    {
      hide Bit;
      BlockOf(size, pos);
      var updated := blocks[pos / BITS := blocks[pos / BITS][pos % BITS := value]];
      forall k: nat
        ensures Bit(updated, k) <==> if k == pos then value else Bit(blocks, k)
      {
        BitUpdate(blocks, pos, value, k);
      }
      blocks := updated;
    }

    method SetAll()
      requires Valid()
      modifies this
      ensures Valid() && size == old(size) && forall k: nat :: k in Members() <==> k < size
    {
      hide Bit;
      blocks := seq(|blocks|, _ => Fill(true));
      forall k: nat ensures Bit(blocks, k) <==> k / BITS < |blocks| { BitFill(true, blocks, k); }
      forall k: nat | k < size ensures k / BITS < |blocks| { BlockOf(size, k); }
      TrimUnusedBits();
    }

    method ResetAll()
      requires Valid()
      modifies this
      ensures Valid() && size == old(size) && Members() == {}
    {
      hide Bit;
      blocks := seq(|blocks|, _ => Fill(false));
      forall k: nat ensures !Bit(blocks, k) { BitFill(false, blocks, k); }
    }

    method Test(pos: nat) returns (b: bool)
      requires Valid() && pos < size
      ensures b <==> pos in Members()
    {
      BlockOf(size, pos);
      b := blocks[pos / BITS][pos % BITS];
    }

    method TrimUnusedBits()
      requires |blocks| == BlockCount(size)
      modifies this
      ensures Valid() && size == old(size) && forall k: nat :: Bit(blocks, k) <==> k < size && Bit(old(blocks), k)
    {
      hide Bit;
      if size == 0 || blocks == [] {
        forall k: nat ensures !Bit(blocks, k) { BitFill(false, blocks, k); }
        return;
      }
      var used := size % BITS;
      var trimmed := if used != 0 then blocks[|blocks| - 1 := KeepLow(blocks[|blocks| - 1], used)] else blocks;
      forall k: nat ensures Bit(trimmed, k) <==> k < size && Bit(blocks, k) { BitTrim(blocks, size, k); }
      blocks := trimmed;
    }

    /** Combines each block with the other's, in place. */
    method CombineWith(op: (bool, bool) -> bool, other: Bitset)
      requires Valid() && other.Valid() && size == other.size
      modifies this
      ensures |blocks| == BlockCount(size) && size == old(size)
      ensures forall k: nat | k < size :: Bit(blocks, k) <==> op(old(Bit(blocks, k)), old(Bit(other.blocks, k)))
      ensures !op(false, false) ==> Trimmed(blocks, size)
    {
      hide Bit;
      ghost var a, b := blocks, other.blocks;
      for i := 0 to |blocks|
        invariant |blocks| == |a| && size == old(size) && (other != this ==> other.blocks == b)
        invariant forall j | 0 <= j < i :: blocks[j] == Combine(op, a[j], b[j])
        invariant forall j | i <= j < |a| :: blocks[j] == a[j]
      {
        blocks := blocks[i := Combine(op, blocks[i], other.blocks[i])];
      }
      forall k: nat
        ensures Bit(blocks, k) <==> k / BITS < |a| && op(Bit(a, k), Bit(b, k))
      {
        BitCombine(op, a, b, blocks, k);
      }
      forall k: nat | k < size ensures k / BITS < |blocks| { BlockOf(size, k); }
    }

    method OrWith(other: Bitset)
      requires Valid() && other.Valid() && size == other.size
      modifies this
      ensures Valid() && size == old(size) && Members() == old(Members()) + old(other.Members())
    {
      hide Bit;
      CombineWith((x, y) => x || y, other);
      TrimUnusedBits();
    }

    method AndWith(other: Bitset)
      requires Valid() && other.Valid() && size == other.size
      modifies this
      ensures Valid() && size == old(size) && Members() == old(Members()) * old(other.Members())
    {
      hide Bit;
      CombineWith((x, y) => x && y, other);
    }

    method XorWith(other: Bitset)
      requires Valid() && other.Valid() && size == other.size
      modifies this
      ensures Valid() && size == old(size)
      ensures Members() == (old(Members()) - old(other.Members())) + (old(other.Members()) - old(Members()))
    {
      hide Bit;
      CombineWith((x, y) => x != y, other);
      TrimUnusedBits();
    }

    /** The complement within the numbers below size. */
    method Complement()
      requires Valid()
      modifies this
      ensures Valid() && size == old(size) && forall k: nat :: k in Members() <==> k < size && k !in old(Members())
    {
      hide Bit;
      ghost var a := blocks;
      for i := 0 to |blocks|
        invariant |blocks| == |a| && size == old(size)
        invariant forall j | 0 <= j < i :: blocks[j] == Invert(a[j])
        invariant forall j | i <= j < |a| :: blocks[j] == a[j]
      {
        blocks := blocks[i := Invert(blocks[i])];
      }
      forall k: nat ensures Bit(blocks, k) <==> k / BITS < |a| && !Bit(a, k) { BitInvert(a, blocks, k); }
      forall k: nat | k < size ensures k / BITS < |blocks| { BlockOf(size, k); }
      TrimUnusedBits();
    }

    constructor Copy(other: Bitset)
      requires other.Valid()
      ensures Valid() && size == other.size && Members() == other.Members()
    {
      size, blocks := other.size, other.blocks;
    }

    /** The difference, through the complement of a copy. */
    method MinusWith(other: Bitset)
      requires Valid() && other.Valid() && size == other.size
      modifies this
      ensures Valid() && size == old(size) && Members() == old(Members()) - old(other.Members())
    {
      hide Bit;
      var inverse := new Bitset.Copy(other);
      inverse.Complement();
      AndWith(inverse);
    }

    /** The two sets are equal exactly when the sizes and the blocks are. */
    method Equals(other: Bitset) returns (eq: bool)
      requires Valid() && other.Valid()
      ensures eq <==> size == other.size && Members() == other.Members()
    {
      eq := size == other.size && blocks == other.blocks;
      if size == other.size && Members() == other.Members() { SameBlocks(blocks, other.blocks, size); }
    }

    /** How many members there are. */
    method Count() returns (n: nat)
      requires Valid()
      ensures n == |Members()|
    {
      hide Bit, Below, Shifted, IsZero, ShiftRight;
      n := 0;
      BelowNone(blocks);
      for i := 0 to |blocks|
        invariant n == |Below(blocks, BITS * i)|
      {
        var block := blocks[i];
        ghost var j := 0;
        ShiftMore(blocks[i], 0);
        while !IsZero(block)
          invariant j <= BITS && n == |Below(blocks, BITS * i + j)| && block == Shifted(blocks[i], j)
          decreases BITS - j
        {
          ShiftMore(blocks[i], j);
          BelowStep(blocks, i, j);
          if block[0] { n := n + 1; }
          block := ShiftRight(block);
          j := j + 1;
        }
        ShiftMore(blocks[i], j);
        BelowRest(blocks, i, j);
      }
      BelowSize(blocks, size);
    }
  }

  lemma BelowNone(blocks: seq<Block>)
    ensures Below(blocks, 0) == {}
  {
  }

  lemma BitAt(blocks: seq<Block>, i: nat, j: nat)
    requires i < |blocks| && j < BITS
    ensures Bit(blocks, BITS * i + j) == blocks[i][j]
  {
  }

  lemma BelowStep(blocks: seq<Block>, i: nat, j: nat)
    requires i < |blocks| && j < BITS
    ensures |Below(blocks, BITS * i + j + 1)| == |Below(blocks, BITS * i + j)| + if blocks[i][j] then 1 else 0
  {
    hide Bit;
    BitAt(blocks, i, j);
  }

  lemma {:induction false} BelowRest(blocks: seq<Block>, i: nat, j: nat)
    requires i < |blocks| && j <= BITS && forall k | j <= k < BITS :: !blocks[i][k]
    ensures Below(blocks, BITS * i + j) == Below(blocks, BITS * (i + 1))
    decreases BITS - j
  {
    hide Bit;
    if j < BITS {
      BitAt(blocks, i, j);
      BelowRest(blocks, i, j + 1);
    }
  }

  lemma BelowSize(blocks: seq<Block>, size: nat)
    requires |blocks| == BlockCount(size) && Trimmed(blocks, size)
    ensures Below(blocks, BITS * |blocks|) == Below(blocks, size)
  {
    hide Bit;
    assert size <= BITS * |blocks|;
  }

  lemma SameBlocks(a: seq<Block>, b: seq<Block>, size: nat)
    requires |a| == |b| && Trimmed(a, size) && Trimmed(b, size) && Below(a, size) == Below(b, size)
    ensures a == b
  {
    forall i, j | 0 <= i < |a| && 0 <= j < BITS
      ensures a[i][j] == b[i][j]
    {
      var k := BITS * i + j;
      assert Bit(a, k) == a[i][j] && Bit(b, k) == b[i][j];
      assert k in Below(a, size) <==> k in Below(b, size);
    }
    forall i | 0 <= i < |a| ensures a[i] == b[i] {}
  }
}

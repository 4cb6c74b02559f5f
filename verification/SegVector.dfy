/** A vector whose elements live in segments that never move. */
module SegVectors {
  import opened Basics

  const MIN_SEGMENT_SIZE: nat := 8
  const EMBEDDED_SEGMENTS: nat := 4
  const MAX_SEGMENTS: nat := 40

  // ----- index arithmetic

  function Log2(x: nat): nat {
    if x < 2 then 0 else Log2(x / 2) + 1
  }

  function Shifted(n: nat, k: nat): nat {
    if k == 0 then n else 2 * Shifted(n, k - 1)
  }

  function SegmentOf(n: nat): nat {
    if n < MIN_SEGMENT_SIZE then 0 else Log2(n / MIN_SEGMENT_SIZE) + 1
  }

  function SegmentBase(seg: nat): nat {
    if seg == 0 then 0 else Shifted(MIN_SEGMENT_SIZE, seg - 1)
  }

  function SegmentSize(seg: nat): nat {
    if seg == 0 then MIN_SEGMENT_SIZE else Shifted(MIN_SEGMENT_SIZE, seg - 1)
  }

  /** The segments are laid end to end. */
  lemma NextBase(seg: nat)
    ensures SegmentBase(seg + 1) == SegmentBase(seg) + SegmentSize(seg) && SegmentSize(seg) > 0
  {
    ShiftedPositive(seg);
  }

  lemma {:induction false} ShiftedPositive(k: nat)
    ensures Shifted(MIN_SEGMENT_SIZE, k) >= MIN_SEGMENT_SIZE
  {
    if k > 0 { ShiftedPositive(k - 1); }
  }

  lemma {:induction false} BaseMono(a: nat, b: nat)
    requires a <= b
    ensures SegmentBase(a) <= SegmentBase(b) && (a < b ==> SegmentBase(a) < SegmentBase(b))
    decreases b
  {
    if a < b {
      NextBase(b - 1);
      BaseMono(a, b - 1);
    }
  }

  lemma {:induction false} Log2Bounds(x: nat, k: nat)
    requires x > 0
    ensures Log2(x) == k <==> Shifted(1, k) <= x < Shifted(1, k + 1)
    decreases x
  {
    if x < 2 {
      ShiftedOne(k);
    } else if k > 0 {
      Log2Bounds(x / 2, k - 1);
    }
  }

  lemma {:induction false} ShiftedOne(k: nat)
    ensures Shifted(1, k) > k
  {
    if k > 0 { ShiftedOne(k - 1); }
  }

  lemma {:induction false} ShiftedTimes(k: nat)
    ensures Shifted(MIN_SEGMENT_SIZE, k) == MIN_SEGMENT_SIZE * Shifted(1, k)
  {
    if k > 0 { ShiftedTimes(k - 1); }
  }

  /** Index n is in segment seg exactly when it falls between the segment's ends. */
  lemma SegmentIs(n: nat, seg: nat)
    ensures SegmentOf(n) == seg <==> SegmentBase(seg) <= n < SegmentBase(seg + 1)
  {
    if seg == 0 {
    } else if n < MIN_SEGMENT_SIZE {
      BaseMono(1, seg);
    } else {
      Log2Bounds(n / MIN_SEGMENT_SIZE, seg - 1);
      ShiftedTimes(seg - 1);
      ShiftedTimes(seg);
    }
  }

  /** Every index has one slot, and every slot of every segment is the slot of one index. */
  lemma SlotsAreIndices(n: nat, seg: nat, off: nat)
    ensures SegmentBase(SegmentOf(n)) <= n < SegmentBase(SegmentOf(n)) + SegmentSize(SegmentOf(n))
    ensures off < SegmentSize(seg) ==> SegmentOf(SegmentBase(seg) + off) == seg
    ensures off < SegmentSize(seg) && SegmentOf(n) == seg && n - SegmentBase(seg) == off
      <==> off < SegmentSize(seg) && n == SegmentBase(seg) + off
  {
    SegmentIs(n, SegmentOf(n));
    NextBase(SegmentOf(n));
    SegmentIs(SegmentBase(seg) + off, seg);
    NextBase(seg);
  }

  /** The table has room for exactly 2^42 elements. */
  lemma Capacity(n: nat)
    ensures SegmentOf(n) < MAX_SEGMENTS <==> n < 0x400_0000_0000
  {
    BaseIs();
    SegmentIs(n, SegmentOf(n));
    if SegmentOf(n) < MAX_SEGMENTS {
      BaseMono(SegmentOf(n) + 1, MAX_SEGMENTS);
    } else {
      BaseMono(MAX_SEGMENTS, SegmentOf(n));
    }
  }

  lemma BaseIs()
    ensures SegmentBase(MAX_SEGMENTS) == 0x400_0000_0000
  {
    assert Shifted(8, 5) == 0x100;
    assert Shifted(8, 10) == 0x2000;
    assert Shifted(8, 15) == 0x4_0000;
    assert Shifted(8, 20) == 0x80_0000;
    assert Shifted(8, 25) == 0x1000_0000;
    assert Shifted(8, 30) == 0x2_0000_0000;
    assert Shifted(8, 35) == 0x40_0000_0000;
    assert Shifted(8, 39) == 0x400_0000_0000;
  }

  // ----- the segment table

  /** A place in a segment: bare memory, or memory that holds an element. */
  datatype Slot<T> = Raw | Live(value: T)

  type Table<!T> = seq<array?<Slot<T>>>

  /** The allocated segments are the first a, each of its own size and no two the same. */
  ghost predicate TableOk<T>(t: Table<T>, a: nat) {
    && |t| == MAX_SEGMENTS && a <= MAX_SEGMENTS
    && (forall s | 0 <= s < MAX_SEGMENTS :: t[s] != null <==> s < a)
    && (forall s | 0 <= s < a :: t[s].Length == SegmentSize(s))
    && (forall r, s | 0 <= r < s < a :: t[r] != t[s])
  }

  ghost function Segments<T>(t: Table<T>, a: nat): set<array<Slot<T>>>
    requires TableOk(t, a)
  {
    set s | 0 <= s < a :: t[s]
  }

  /** The slots of the indices below size hold elements, and no others. */
  ghost predicate Constructed<T>(t: Table<T>, a: nat, size: nat)
    requires TableOk(t, a)
    reads Segments(t, a)
  {
    forall s, i | 0 <= s < a && 0 <= i < SegmentSize(s) ::
      t[s] in Segments(t, a) && (t[s][i].Live? <==> SegmentBase(s) + i < size)
  }

  /** Where element n is. */
  lemma SlotOf<T>(t: Table<T>, a: nat, n: nat)
    requires TableOk(t, a) && n < SegmentBase(a)
    ensures SegmentOf(n) < a && t[SegmentOf(n)] in Segments(t, a)
    ensures 0 <= n - SegmentBase(SegmentOf(n)) < t[SegmentOf(n)].Length
  {
    hide SegmentOf, SegmentBase, SegmentSize;
    SlotsAreIndices(n, 0, 0);
    if a <= SegmentOf(n) { BaseMono(a, SegmentOf(n)); }
  }

  ghost function Element<T>(t: Table<T>, a: nat, size: nat, n: nat): T
    requires TableOk(t, a) && size <= SegmentBase(a) && Constructed(t, a, size) && n < size
    reads Segments(t, a)
  {
    SlotOf(t, a, n);
    SlotsAreIndices(n, 0, 0);
    t[SegmentOf(n)][n - SegmentBase(SegmentOf(n))].value
  }

  ghost function ContentsOf<T>(t: Table<T>, a: nat, size: nat): (s: seq<T>)
    requires TableOk(t, a) && size <= SegmentBase(a) && Constructed(t, a, size)
    reads Segments(t, a)
    ensures |s| == size && forall n | 0 <= n < size :: s[n] == Element(t, a, size, n)
  {
    ContentsUpto(t, a, size, size)
  }

  ghost function ContentsUpto<T>(t: Table<T>, a: nat, size: nat, n: nat): (s: seq<T>)
    requires TableOk(t, a) && size <= SegmentBase(a) && Constructed(t, a, size) && n <= size
    reads Segments(t, a)
    ensures |s| == n && forall i | 0 <= i < n :: s[i] == Element(t, a, size, i)
  {
    if n == 0 then [] else ContentsUpto(t, a, size, n - 1) + [Element(t, a, size, n - 1)]
  }

  /** A new segment after the last. */
  lemma TableGrows<T>(t: Table<T>, a: nat, base: array<Slot<T>>, size: nat)
    requires TableOk(t, a) && a < MAX_SEGMENTS && base.Length == SegmentSize(a) && base !in Segments(t, a)
    requires size <= SegmentBase(a) && Constructed(t, a, size) && forall i | 0 <= i < base.Length :: base[i].Raw?
    ensures TableOk(t[a := base], a + 1) && Segments(t[a := base], a + 1) == Segments(t, a) + {base}
    ensures size <= SegmentBase(a + 1) && Constructed(t[a := base], a + 1, size)
    ensures ContentsOf(t[a := base], a + 1, size) == ContentsOf(t, a, size)
  {
    hide SegmentBase, SegmentSize, SegmentOf;
    var t' := t[a := base];
    NextBase(a);
    forall r | 0 <= r < a ensures t[r] != base { assert t[r] in Segments(t, a); }
    assert TableOk(t', a + 1);
    SegmentsGrow(t, a, base);
    assert Constructed(t', a + 1, size);
    forall n: nat | n < size
      ensures Element(t', a + 1, size, n) == Element(t, a, size, n)
    {
      SlotOf(t, a, n);
    }
  }

  lemma SegmentsGrow<T>(t: Table<T>, a: nat, base: array<Slot<T>>)
    requires TableOk(t, a) && a < MAX_SEGMENTS && TableOk(t[a := base], a + 1)
    ensures Segments(t[a := base], a + 1) == Segments(t, a) + {base}
  {
    var t' := t[a := base];
    assert t'[a] in Segments(t', a + 1);
    forall s | 0 <= s < a ensures t[s] in Segments(t', a + 1) { assert t'[s] == t[s]; }
  }

  /** The first a elements' storage is where it was. */
  ghost predicate Extends<T>(t: Table<T>, a: nat, t': Table<T>, a': nat) {
    a <= a' && |t| == |t'| == MAX_SEGMENTS && a <= MAX_SEGMENTS && forall s | 0 <= s < a :: t'[s] == t[s]
  }

  function Nulls<T>(n: nat): (t: seq<array?<Slot<T>>>)
    ensures |t| == n && forall s | 0 <= s < n :: t[s] == null
  {
    seq(n, _ => null)
  }

  /** The embedded pointers, followed by those of the spill table if there is one. */
  ghost function Joined<T>(embedded: seq<array?<Slot<T>>>, spill: seq<array?<Slot<T>>>): Table<T> {
    embedded + (if spill == [] then Nulls(MAX_SEGMENTS - EMBEDDED_SEGMENTS) else spill)
  }

  class SegVector<T> {
    var embedded: seq<array?<Slot<T>>>
    /** No entries stands for the null spill table. */
    var spill: seq<array?<Slot<T>>>
    var size: nat
    /** How many segments are allocated. */
    ghost var segments: nat
    /** The storage taken from the allocator and not given back. */
    ghost var owned: set<array<Slot<T>>>

    ghost function Segs(): Table<T>
      reads this
    {
      Joined(embedded, spill)
    }

    ghost predicate Valid()
      reads this, owned
    {
      && |embedded| == EMBEDDED_SEGMENTS && (spill == [] || |spill| == MAX_SEGMENTS - EMBEDDED_SEGMENTS)
      && (spill == [] ==> segments <= EMBEDDED_SEGMENTS)
      && TableOk(Segs(), segments) && owned == Segments(Segs(), segments)
      && size <= SegmentBase(segments) && Constructed(Segs(), segments, size)
    }

    ghost function Contents(): (s: seq<T>)
      requires Valid()
      reads this, owned
      ensures |s| == size
    {
      ContentsOf(Segs(), segments, size)
    }

    constructor ()
      ensures Bare() && Contents() == []
    {
      embedded, spill, size, segments, owned := Nulls<T>(EMBEDDED_SEGMENTS), [], 0, 0, {};
    }

    /** The segment with this number, or null if it is not allocated. */
    function CellOf(seg: nat): (c: array?<Slot<T>>)
      requires seg < MAX_SEGMENTS && |embedded| == EMBEDDED_SEGMENTS
      requires spill == [] || |spill| == MAX_SEGMENTS - EMBEDDED_SEGMENTS
      reads this
      ensures c == Segs()[seg]
    {
      if seg < EMBEDDED_SEGMENTS then embedded[seg]
      else if spill == [] then null
      else spill[seg - EMBEDDED_SEGMENTS]
    }

    /** Reads element n, which must exist. */
    method Get(n: nat) returns (v: T)
      requires Valid() && n < size
      ensures v == Contents()[n]
    {
      SlotOf(Segs(), segments, n);
      var seg := SegmentOf(n);
      var base := CellOf(seg);
      v := base[n - SegmentBase(seg)].value;
    }

    /** Makes the storage of element n exist. */
    method ReserveSlot(n: nat) returns (base: array?<Slot<T>>)
      requires Valid() && size <= n <= SegmentBase(segments)
      modifies this
      ensures Valid() && size == old(size) && Contents() == old(Contents())
      ensures Extends(old(Segs()), old(segments), Segs(), segments)
      ensures fresh(owned - old(owned)) && old(owned) <= owned
      ensures base == null <==> SegmentOf(n) >= MAX_SEGMENTS
      ensures base == null ==> unchanged(this)
      ensures base != null ==> SegmentOf(n) < segments && base == Segs()[SegmentOf(n)]
    {
      hide SegmentOf, SegmentBase, SegmentSize, TableOk, Segments, Constructed, ContentsOf, Joined;
      InTable(Segs(), segments, 0);
      var seg := SegmentOf(n);
      if seg >= MAX_SEGMENTS { return null; }
      NextSegment(n, segments);
      if seg >= EMBEDDED_SEGMENTS && spill == [] {
        spill := Nulls<T>(MAX_SEGMENTS - EMBEDDED_SEGMENTS);
        JoinedNulls(embedded, spill);
      }
      base := CellOf(seg);
      InTable(Segs(), segments, seg);
      if base == null {
        base := new Slot<T>[SegmentSize(seg)](_ => Raw);
        TableGrows(Segs(), segments, base, size);
        JoinedUpdate(embedded, spill, seg, base);
        if seg < EMBEDDED_SEGMENTS {
          embedded := embedded[seg := base];
        } else {
          spill := spill[seg - EMBEDDED_SEGMENTS := base];
        }
        segments, owned := segments + 1, owned + {base};
      }
    }

    /** Appends v, unless the vector holds 2^42 elements already. Nothing that was there moves. */
    method Append(v: T) returns (ok: bool)
      requires Valid()
      modifies this, owned
      ensures Valid() && ok == (old(size) < 0x400_0000_0000)
      ensures Contents() == old(Contents()) + (if ok then [v] else [])
      ensures Extends(old(Segs()), old(segments), Segs(), segments)
      ensures fresh(owned - old(owned)) && old(owned) <= owned
    {
      hide SegmentOf, SegmentBase, SegmentSize, TableOk, Segments, Constructed, ContentsOf, Joined;
      var n := size;
      Capacity(n);
      var base := ReserveSlot(n);
      if base == null { return false; }
      BelowBase(n, segments);
      InTable(Segs(), segments, SegmentOf(n));
      Construct(Segs(), segments, n, base, v);
      size := n + 1;
      ok := true;
    }

    /** Destroys the last element, if there is one. */
    method PopBack()
      requires Valid()
      modifies this, owned
      ensures Valid() && Segs() == old(Segs()) && owned == old(owned)
      ensures Contents() == if old(size) == 0 then [] else old(Contents())[..old(size) - 1]
    {
      hide SegmentOf, SegmentBase, SegmentSize, TableOk, Segments, Constructed, ContentsOf, Joined;
      var n := size;
      if n == 0 { return; }
      SlotOf(Segs(), segments, n - 1);
      InTable(Segs(), segments, 0);
      size := n - 1;
      Destroy(Segs(), segments, n - 1, CellOf(SegmentOf(n - 1)));
    }

    /** Reads element n, or nothing when there is no such element. */
    method At(n: nat) returns (v: Opt<T>)
      requires Valid()
      ensures v == if n < size then Some(Contents()[n]) else None
    {
      if n >= size { return None; }
      var x := Get(n);
      v := Some(x);
    }

    /** Cuts the vector to n elements, or pads it with `zero` as far as there is room. */
    method Resize(n: nat, zero: T) returns (ok: bool)
      requires Valid()
      modifies this, owned
      ensures Valid() && ok == (n <= 0x400_0000_0000)
      ensures Contents() == Resized(old(Contents()), if ok then n else 0x400_0000_0000, zero)
      ensures Extends(old(Segs()), old(segments), Segs(), segments)
      ensures fresh(owned - old(owned)) && old(owned) <= owned
    {
      hide SegmentOf, SegmentBase, SegmentSize, TableOk, Segments, Constructed, ContentsOf, Joined;
      SizeBound();
      InTable(Segs(), segments, 0);
      Shrink(n);
      ok := true;
      while size < n
        invariant Valid() && Extends(old(Segs()), old(segments), Segs(), segments)
        invariant fresh(owned - old(owned)) && old(owned) <= owned
        invariant size <= 0x400_0000_0000 && (n <= old(size) ==> size == n)
        invariant old(size) <= n ==> old(size) <= size <= n
        invariant Contents() == Resized(old(Contents()), size, zero)
      {
        ok := Append(zero);
        SizeBound();
        if !ok { return; }
      }
    }

    method Shrink(n: nat)
      requires Valid()
      modifies this, owned
      ensures Valid() && Segs() == old(Segs()) && segments == old(segments) && owned == old(owned)
      ensures Contents() == if n < old(size) then old(Contents())[..n] else old(Contents())
    {
      hide SegmentOf, SegmentBase, SegmentSize, TableOk, Segments, Constructed, ContentsOf, Joined;
      InTable(Segs(), segments, 0);
      while size > n
        invariant Valid() && Segs() == old(Segs()) && segments == old(segments) && owned == old(owned)
        invariant size <= old(size) && (if old(size) > n then size >= n else size == old(size))
        invariant Contents() == old(Contents())[..size]
        decreases size
      {
        SlotOf(Segs(), segments, size - 1);
        size := size - 1;
        Destroy(Segs(), segments, size, CellOf(SegmentOf(size)));
      }
    }

    lemma SizeBound()
      requires Valid()
      ensures size <= 0x400_0000_0000
    {
      hide SegmentBase, SegmentSize, Segments, Constructed;
      BaseMono(segments, MAX_SEGMENTS);
      BaseIs();
    }

    /** No element, no storage. */
    ghost predicate Bare()
      reads this, owned
    {
      Valid() && size == 0 && segments == 0 && spill == [] && owned == {}
    }

    /** Destroys every element once and gives every segment back once. */
    method Reset()
      requires Valid()
      modifies this, owned
      ensures Bare() && forall base | base in old(owned) :: AllRaw(base)
    {
      hide SegmentOf, SegmentBase, SegmentSize, TableOk, Segments, Constructed, ContentsOf, Joined, AllRaw;
      InTable(Segs(), segments, 0);
      ghost var t, a := Segs(), segments;
      var i: nat := size;
      while i > 0
        invariant i <= size && TableOk(t, a) && Constructed(t, a, i)
        invariant unchanged(this)
      {
        SlotOf(t, a, i - 1);
        Destroy(t, a, i - 1, CellOf(SegmentOf(i - 1)));
        i := i - 1;
      }
      size := 0;
      NoneConstructed(t, a);
      FreeSegments();
      spill := [];
      Emptied();
    }

    /** Gives the segments back, first to last, stopping at the first that is null. */
    method FreeSegments()
      requires |embedded| == EMBEDDED_SEGMENTS && (spill == [] || |spill| == MAX_SEGMENTS - EMBEDDED_SEGMENTS)
      requires TableOk(Segs(), segments) && owned == Segments(Segs(), segments)
      requires forall base | base in owned :: AllRaw(base)
      modifies this
      ensures |embedded| == EMBEDDED_SEGMENTS && (spill == [] || |spill| == MAX_SEGMENTS - EMBEDDED_SEGMENTS)
      ensures (forall s | 0 <= s < EMBEDDED_SEGMENTS :: embedded[s] == null) && segments == 0 && owned == {}
      ensures size == old(size)
    {
      ghost var t, a := Segs(), segments;
      var seg := 0;
      while seg < MAX_SEGMENTS
        invariant seg <= a && Freed(t, Segs(), seg) && owned == Left(t, a, seg) && size == old(size)
        invariant |embedded| == EMBEDDED_SEGMENTS && (spill == [] || |spill| == MAX_SEGMENTS - EMBEDDED_SEGMENTS)
      {
        if seg >= EMBEDDED_SEGMENTS && spill == [] { break; }
        var base := CellOf(seg);
        if base == null { break; }
        Deallocate(base);
        JoinedUpdate(embedded, spill, seg, null);
        if seg < EMBEDDED_SEGMENTS {
          embedded := embedded[seg := null];
        } else {
          spill := spill[seg - EMBEDDED_SEGMENTS := null];
        }
        seg := seg + 1;
      }
      segments := 0;
      forall s | 0 <= s < EMBEDDED_SEGMENTS ensures embedded[s] == null { assert Segs()[s] == embedded[s]; }
    }

    /** Only storage that was taken, not given back yet and without elements may be given back. */
    method Deallocate(base: array<Slot<T>>)
      requires base in owned && AllRaw(base)
      modifies `owned
      ensures owned == old(owned) - {base}
    {
      owned := owned - {base};
    }

    /** Takes over the storage of `other`; every element keeps its address. */
    method Adopt(other: SegVector<T>)
      requires this != other && Bare() && other.Valid()
      modifies this, other
      ensures Valid() && Segs() == old(other.Segs()) && segments == old(other.segments)
      ensures owned == old(other.owned) && Contents() == old(other.Contents()) && other.Bare()
    {
      hide SegmentOf, SegmentBase, SegmentSize, Segments, Constructed, ContentsOf;
      forall s | 0 <= s < EMBEDDED_SEGMENTS ensures embedded[s] == null { assert Segs()[s] == embedded[s]; }
      for seg := 0 to EMBEDDED_SEGMENTS
        invariant |embedded| == |other.embedded| == EMBEDDED_SEGMENTS
        invariant forall s | 0 <= s < EMBEDDED_SEGMENTS ::
          embedded[s] == if s < seg then old(other.embedded)[s] else null
        invariant forall s | 0 <= s < EMBEDDED_SEGMENTS ::
          other.embedded[s] == if s < seg then null else old(other.embedded)[s]
        invariant other.spill == old(other.spill) && other.size == old(other.size)
        invariant other.segments == old(other.segments) && other.owned == old(other.owned)
      {
        embedded, other.embedded := embedded[seg := other.embedded[seg]], other.embedded[seg := null];
      }
      spill, other.spill := other.spill, [];
      size, other.size := other.size, 0;
      segments, owned, other.segments, other.owned := other.segments, other.owned, 0, {};
      assert embedded == old(other.embedded);
      other.Emptied();
    }

    /** Exchanges the contents of two vectors, storage and all. */
    method Swap(other: SegVector<T>)
      requires Valid() && other.Valid()
      modifies this, other
      ensures Valid() && other.Valid() && Contents() == old(other.Contents()) && other.Contents() == old(Contents())
      ensures Segs() == old(other.Segs()) && other.Segs() == old(Segs())
    {
      hide SegVector.Valid, SegVector.Contents, SegVector.Segs, SegVector.Bare;
      if this == other { return; }
      var tmp := new SegVector<T>();
      tmp.Adopt(other);
      other.Adopt(this);
      Adopt(tmp);
    }

    lemma Emptied()
      requires |embedded| == EMBEDDED_SEGMENTS && spill == []
      requires forall s | 0 <= s < EMBEDDED_SEGMENTS :: embedded[s] == null
      requires segments == 0 && owned == {} && size == 0
      ensures Bare()
    {
    }
  }

  /** No element is left in the segment. */
  ghost predicate AllRaw<T>(base: array<Slot<T>>)
    reads base
  {
    forall i | 0 <= i < base.Length :: base[i].Raw?
  }

  lemma NoneConstructed<T>(t: Table<T>, a: nat)
    requires TableOk(t, a) && Constructed(t, a, 0)
    ensures forall base | base in Segments(t, a) :: AllRaw(base)
  {
    hide SegmentSize, SegmentBase;
    forall base | base in Segments(t, a)
      ensures AllRaw(base)
    {
      var s :| 0 <= s < a && t[s] == base;
      forall i | 0 <= i < base.Length ensures base[i].Raw? { assert t[s][i].Live? <==> SegmentBase(s) + i < 0; }
    }
  }

  /** The first k segments are gone, the others where they were. */
  ghost predicate Freed<T>(t: Table<T>, t': Table<T>, k: nat)
    requires |t| == MAX_SEGMENTS
  {
    |t'| == MAX_SEGMENTS && forall s | 0 <= s < MAX_SEGMENTS :: t'[s] == if s < k then null else t[s]
  }

  ghost function Left<T>(t: Table<T>, a: nat, k: nat): set<array<Slot<T>>>
    requires TableOk(t, a)
  {
    set s | k <= s < a :: t[s]
  }

  function Resized<T>(s: seq<T>, n: nat, zero: T): seq<T> {
    if n <= |s| then s[..n] else s + seq(n - |s|, _ => zero)
  }

  lemma BelowBase(n: nat, a: nat)
    requires SegmentOf(n) < a
    ensures n < SegmentBase(a)
  {
    hide SegmentOf, SegmentBase;
    SegmentIs(n, SegmentOf(n));
    BaseMono(SegmentOf(n) + 1, a);
  }

  /** Fills the slot of index n, which must be bare. */
  method Construct<T>(ghost t: Table<T>, ghost a: nat, n: nat, base: array<Slot<T>>, v: T)
    requires TableOk(t, a) && n < SegmentBase(a) && Constructed(t, a, n) && SegmentOf(n) < a && base == t[SegmentOf(n)]
    modifies base
    ensures Constructed(t, a, n + 1) && ContentsOf(t, a, n + 1) == old(ContentsOf(t, a, n)) + [v]
  {
    hide SegmentOf, SegmentBase, SegmentSize;
    SlotOf(t, a, n);
    ghost var before := ContentsOf(t, a, n);
    var off := n - SegmentBase(SegmentOf(n));
    base[off] := Live(v);
    forall s, i | 0 <= s < a && 0 <= i < SegmentSize(s)
      ensures t[s] in Segments(t, a) && (t[s][i].Live? <==> SegmentBase(s) + i < n + 1)
    {
      InTable(t, a, s);
      SlotsAreIndices(n, s, i);
    }
    forall i: nat | i < n
      ensures Element(t, a, n + 1, i) == before[i]
    {
      SlotOf(t, a, i);
    }
  }

  /** Empties the slot of index n, the last that holds an element. */
  method Destroy<T>(ghost t: Table<T>, ghost a: nat, n: nat, base: array<Slot<T>>)
    requires TableOk(t, a) && n < SegmentBase(a) && Constructed(t, a, n + 1) && SegmentOf(n) < a
    requires base == t[SegmentOf(n)]
    modifies base
    ensures Constructed(t, a, n) && ContentsOf(t, a, n) == old(ContentsOf(t, a, n + 1))[..n]
  {
    hide SegmentOf, SegmentBase, SegmentSize;
    SlotOf(t, a, n);
    ghost var before := ContentsOf(t, a, n + 1);
    var off := n - SegmentBase(SegmentOf(n));
    base[off] := Raw;
    forall s, i | 0 <= s < a && 0 <= i < SegmentSize(s)
      ensures t[s] in Segments(t, a) && (t[s][i].Live? <==> SegmentBase(s) + i < n)
    {
      InTable(t, a, s);
      SlotsAreIndices(n, s, i);
    }
    forall i: nat | i < n
      ensures Element(t, a, n, i) == before[i]
    {
      SlotOf(t, a, i);
    }
  }

  lemma JoinedNulls<T>(embedded: seq<array?<Slot<T>>>, spill: seq<array?<Slot<T>>>)
    requires spill == Nulls(MAX_SEGMENTS - EMBEDDED_SEGMENTS)
    ensures Joined(embedded, spill) == Joined(embedded, [])
  {
  }

  lemma JoinedUpdate<T>(embedded: seq<array?<Slot<T>>>, spill: seq<array?<Slot<T>>>, seg: nat, base: array?<Slot<T>>)
    requires |embedded| == EMBEDDED_SEGMENTS && seg < MAX_SEGMENTS
    requires seg >= EMBEDDED_SEGMENTS ==> |spill| == MAX_SEGMENTS - EMBEDDED_SEGMENTS
    requires spill == [] || |spill| == MAX_SEGMENTS - EMBEDDED_SEGMENTS
    ensures seg < EMBEDDED_SEGMENTS ==> Joined(embedded[seg := base], spill) == Joined(embedded, spill)[seg := base]
    ensures seg >= EMBEDDED_SEGMENTS ==>
      Joined(embedded, spill[seg - EMBEDDED_SEGMENTS := base]) == Joined(embedded, spill)[seg := base]
  {
  }

  lemma InTable<T>(t: Table<T>, a: nat, seg: nat)
    requires TableOk(t, a) && seg < MAX_SEGMENTS
    ensures a <= MAX_SEGMENTS == |t| && (t[seg] != null <==> seg < a)
    ensures seg < a ==> t[seg] in Segments(t, a) && t[seg].Length == SegmentSize(seg)
  {
  }

  /** The next index to fill is in an allocated segment or in the first one that is not. */
  lemma NextSegment(n: nat, a: nat)
    requires n <= SegmentBase(a)
    ensures SegmentOf(n) <= a
  {
    hide SegmentOf, SegmentBase;
    SegmentIs(n, SegmentOf(n));
    if a < SegmentOf(n) { BaseMono(a, SegmentOf(n)); }
  }
}

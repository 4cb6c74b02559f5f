/** The A64 decision-tree generator (buildDecodeTable) and the walk the decoder does over its table. */
module DecodeTable {
  import opened Basics
  import opened Words
  import opened DecodeMasks

  /** Fixed bits of an instruction and their values. */
  datatype Insn = Insn(mask: bv32, enc: bv32)

  predicate Matches(w: bv32, i: Insn) { And(w, i.mask) == And(i.enc, i.mask) }

  /** A decision node: the bits to test and, per branch number, the next entry.  A leaf tests nothing and
   *  names an instruction. */
  datatype Entry = Entry(mask: bv32, branches: seq<(nat, nat)>, index: int)

  type Table = map<nat, Entry>

  predicate Within(a: bv32, b: bv32) { And(a, b) == a }

  function Not(w: bv32): bv32 { !w }

  /** w and e agree on the bits of m that are not in d. */
  predicate Agree(w: bv32, e: bv32, m: bv32, d: bv32) { And(And(w, m), Not(d)) == And(And(e, m), Not(d)) }

  // ----- walking a table

  function Lookup(branches: seq<(nat, nat)>, key: nat): Opt<nat> {
    if branches == [] then None
    else if branches[0].0 == key then Some(branches[0].1)
    else Lookup(branches[1..], key)
  }

  /** Branches lead to higher entries, below `bound`. */
  ghost predicate Numbered(t: Table, bound: nat) {
    forall e | e in t :: e < bound && forall b | b in t[e].branches :: e < b.1 < bound
  }

  lemma {:induction false} LookupIn(branches: seq<(nat, nat)>, key: nat)
    ensures Lookup(branches, key).Some? ==> (key, Lookup(branches, key).v) in branches
  {
    if branches != [] && branches[0].0 != key { LookupIn(branches[1..], key); }
  }

  /** The leaf at which the walk of word w from entry e ends; None when no branch fits. */
  ghost function Walk(t: Table, bound: nat, e: nat, w: bv32): (r: Opt<nat>)
    requires Numbered(t, bound) && e < bound
    ensures r.Some? ==> r.v in t && t[r.v].mask == 0
    decreases bound - e
  {
    if e !in t then None
    else if t[e].mask == 0 then Some(e)
    else
      var next := Lookup(t[e].branches, Key(w, t[e].mask));
      LookupIn(t[e].branches, Key(w, t[e].mask));
      if next.None? then None else Walk(t, bound, next.v, w)
  }

  /** Entry `top` and entries lo..hi are all there and lead only to each other. */
  ghost predicate Closed(t: Table, top: nat, lo: nat, hi: nat) {
    forall e | e == top || lo <= e < hi :: e in t && forall b | b in t[e].branches :: lo <= b.1 < hi
  }

  ghost predicate Extends(t: Table, t': Table) { forall e | e in t :: e in t' && t'[e] == t[e] }

  /** Adding entries elsewhere changes no walk. */
  lemma {:induction false} WalkKept(t: Table, b: nat, t': Table, b': nat, top: nat, lo: nat, hi: nat, e: nat, w: bv32)
    requires Numbered(t, b) && Numbered(t', b') && Extends(t, t') && b <= b' && Closed(t, top, lo, hi)
    requires (e == top || lo <= e < hi) && e < b
    ensures Walk(t', b', e, w) == Walk(t, b, e, w)
    decreases b - e
  {
    hide Key;
    if t[e].mask != 0 {
      var next := Lookup(t[e].branches, Key(w, t[e].mask));
      LookupIn(t[e].branches, Key(w, t[e].mask));
      if next.Some? { WalkKept(t, b, t', b', top, lo, hi, next.v, w); }
    }
  }

  // ----- mask algebra

  lemma MaskStep(w: bv32, e: bv32, m: bv32, d: bv32, c: bv32)
    requires Agree(w, e, m, Or(d, c)) && And(w, c) == And(e, c)
    ensures Agree(w, e, m, d)
  {
  }

  lemma MaskJoin(d: bv32, c: bv32, m: bv32)
    requires Within(d, m) && Within(c, m)
    ensures Within(Or(d, c), m)
  {
  }

  lemma MaskTrans(a: bv32, b: bv32, c: bv32)
    requires Within(a, b) && Within(b, c)
    ensures Within(a, c)
  {
  }

  lemma MaskGrows(d: bv32, c: bv32)
    requires c != 0 && And(c, d) == 0
    ensures Within(d, Or(d, c)) && d != Or(d, c)
  {
  }

  /** A word that matches an instruction agrees with it on any of its mask bits. */
  lemma MatchOn(w: bv32, i: Insn, c: bv32)
    requires Matches(w, i) && Within(c, i.mask)
    ensures And(w, c) == And(i.enc, c)
  {
    MatchBits(w, i.enc, i.mask, c);
  }

  lemma MatchBits(w: bv32, e: bv32, m: bv32, c: bv32)
    requires And(w, m) == And(e, m) && And(c, m) == c
    ensures And(w, c) == And(e, c)
  {
  }

  lemma AgreeAll(w: bv32, e: bv32, m: bv32)
    ensures Agree(w, e, m, 0) ==> And(w, m) == And(e, m)
    ensures Agree(w, e, m, m)
  {
  }

  lemma MinusOff(v: bv32, d: bv32)
    ensures And(And(v, Not(d)), d) == 0 && Within(And(v, Not(d)), v)
    ensures And(v, Not(d)) == 0 ==> Within(v, d)
  {
  }

  lemma AllOnes(m: bv32)
    ensures Within(m, 0xffff_ffff) && Within(0, m)
  {
  }

  lemma MeetIs(v: bv32, m: bv32, c: bv32)
    ensures Within(And(v, m), m) && Within(And(v, m), v)
    ensures Within(c, v) && Within(c, m) ==> Within(c, And(v, m))
  {
  }

  // ----- lists of instruction numbers

  ghost predicate Distinct(l: seq<nat>) { forall a, b | 0 <= a < b < |l| :: l[a] != l[b] }

  ghost predicate InRange(insns: seq<Insn>, l: seq<nat>) { forall k | 0 <= k < |l| :: l[k] < |insns| }

  /** The sublist that takes branch k at a node testing c. */
  function Branch(insns: seq<Insn>, l: seq<nat>, c: bv32, k: nat): seq<nat>
    requires forall k | 0 <= k < |l| :: l[k] < |insns|
  {
    if l == [] then []
    else
      var rest := Branch(insns, l[..|l| - 1], c, k);
      var i := l[|l| - 1];
      if Key(insns[i].enc, c) == k then rest + [i] else rest
  }

  lemma {:induction false} BranchMembers(insns: seq<Insn>, l: seq<nat>, c: bv32, k: nat)
    requires InRange(insns, l)
    ensures forall i :: i in Branch(insns, l, c, k) <==> i in l && Key(insns[i].enc, c) == k
    ensures Distinct(l) ==> Distinct(Branch(insns, l, c, k))
  {
    hide Key;
    if l != [] {
      var front, i := l[..|l| - 1], l[|l| - 1];
      assert l == front + [i];
      BranchMembers(insns, front, c, k);
      if Distinct(l) {
        assert i !in front;
      }
    }
  }

  /** The branches of a node: branch numbers in increasing order, each with its non-empty sublist. */
  ghost predicate Partitioned(insns: seq<Insn>, l: seq<nat>, c: bv32, keys: seq<nat>, lists: seq<seq<nat>>)
    requires InRange(insns, l)
  {
    && |keys| == |lists|
    && (forall a, b | 0 <= a < b < |keys| :: keys[a] < keys[b])
    && (forall j | 0 <= j < |keys| :: lists[j] != [] && lists[j] == Branch(insns, l, c, keys[j]))
    && (forall i | i in l :: Key(insns[i].enc, c) in keys)
  }

  method Partition(insns: seq<Insn>, l: seq<nat>, c: bv32, bits: nat) returns (keys: seq<nat>, lists: seq<seq<nat>>)
    requires InRange(insns, l) && bits == NumOnes(c)
    ensures Partitioned(insns, l, c, keys, lists)
  {
    hide Key, NumOnes, Pow2;
    var index: seq<seq<nat>> := seq(Pow2(bits), _ => []);
    var k := 0;
    while k < |l|
      invariant 0 <= k <= |l| && |index| == Pow2(bits)
      invariant forall b | 0 <= b < |index| :: index[b] == Branch(insns, l[..k], c, b)
    {
      var b := ClapseMask(And(insns[l[k]].enc, c), c);
      KeyMasked(insns[l[k]].enc, c);
      KeyBound(insns[l[k]].enc, c);
      assert l[..k + 1][..k] == l[..k];
      index := index[b := index[b] + [l[k]]];
      k := k + 1;
    }
    assert l[..k] == l;
    keys, lists := [], [];
    var b := 0;
    while b < |index|
      invariant 0 <= b <= |index| && |keys| == |lists|
      invariant forall j | 0 <= j < |keys| :: keys[j] < b && lists[j] != [] && lists[j] == index[keys[j]]
      invariant forall i, j | 0 <= i < j < |keys| :: keys[i] < keys[j]
      invariant forall d | 0 <= d < b && index[d] != [] :: d in keys
    {
      if index[b] != [] {
        keys, lists := keys + [b], lists + [index[b]];
      }
      b := b + 1;
    }
    forall i | i in l
      ensures Key(insns[i].enc, c) in keys
    {
      KeyBound(insns[i].enc, c);
      BranchMembers(insns, l, c, Key(insns[i].enc, c));
      assert i in index[Key(insns[i].enc, c)];
    }
  }

  /** The bits common to every mask. */
  ghost predicate Common(insns: seq<Insn>, l: seq<nat>, v: bv32)
    requires InRange(insns, l)
  {
    && (forall i | i in l :: Within(v, insns[i].mask))
    && (forall c | (forall i | i in l :: Within(c, insns[i].mask)) :: Within(c, v))
  }

  method CommonMask(insns: seq<Insn>, l: seq<nat>) returns (v: bv32)
    requires InRange(insns, l)
    ensures Common(insns, l, v)
  {
    hide Within;
    v := 0xffff_ffff;
    forall c ensures Within(c, v) { AllOnes(c); }
    var k := 0;
    while k < |l|
      invariant 0 <= k <= |l| && Common(insns, l[..k], v)
    {
      ghost var u := v;
      var m := insns[l[k]].mask;
      assert l[..k + 1] == l[..k] + [l[k]];
      v := And(v, m);
      forall i | i in l[..k + 1]
        ensures Within(v, insns[i].mask)
      {
        MeetIs(u, m, 0);
        if i in l[..k] { MaskTrans(v, u, insns[i].mask); }
      }
      forall c | forall i | i in l[..k + 1] :: Within(c, insns[i].mask)
        ensures Within(c, v)
      {
        assert l[k] in l[..k + 1];
        assert forall i | i in l[..k] :: i in l[..k + 1];
        MeetIs(u, m, c);
      }
      k := k + 1;
    }
    assert l[..k] == l;
  }

  /** The bit-by-bit scan from the top: it rebuilds the mask and counts it. */
  method ScanMask(valid: bv32) returns (cur: bv32, num: nat)
    ensures cur == valid && num == NumOnes(valid)
  {
    hide ScanInv, And, Or, Half, Twice, NumOnes;
    var v, probe: bv32, bit := valid, 0x8000_0000, 0;
    cur, num := 0, 0;
    ScanStart(valid);
    while bit < 32
      invariant 0 <= bit <= 32 && ScanInv(valid, v, probe, cur, num, bit)
    {
      ScanStep(valid, v, probe, cur, num, bit);
      if And(v, 0x8000_0000) != 0 {
        cur := Or(cur, probe);
        num := num + 1;
      }
      v, probe := Twice(v), Half(probe);
      bit := bit + 1;
    }
    ScanEnd(valid, v, probe, cur, num);
  }

  /** After `bit` rounds: v is shifted by them, the probe stands at the next bit, and the bits above it
   *  have been copied and counted. */
  ghost predicate ScanInv(valid: bv32, v: bv32, probe: bv32, cur: bv32, num: nat, bit: int)
    requires 0 <= bit <= 32
  {
    && num == Ones(Bits(valid, 32)[32 - bit..])
    && ShiftedBy(valid, v, bit) && Probes(probe, bit) && Copied(valid, cur, bit)
  }

  ghost predicate ShiftedBy(valid: bv32, v: bv32, bit: int) {
    forall k | 0 <= bit <= k < 32 :: Bits(v, 32)[k] == Bits(valid, 32)[k - bit]
  }

  ghost predicate Probes(probe: bv32, bit: int) {
    forall k | 0 <= k < 32 :: Bits(probe, 32)[k] == (k == 31 - bit)
  }

  ghost predicate Copied(valid: bv32, cur: bv32, bit: int) {
    forall k | 0 <= k < 32 :: Bits(cur, 32)[k] == (k >= 32 - bit && Bits(valid, 32)[k])
  }

  lemma ScanStep(valid: bv32, v: bv32, probe: bv32, cur: bv32, num: nat, bit: int)
    requires 0 <= bit < 32 && ScanInv(valid, v, probe, cur, num, bit)
    ensures var hit := And(v, 0x8000_0000) != 0;
      ScanInv(valid, Twice(v), Half(probe), if hit then Or(cur, probe) else cur, if hit then num + 1 else num, bit + 1)
  {
    hide Bits, And, Or, Half, Twice, Ones, ShiftedBy, Probes, Copied;
    OnesFront(Bits(valid, 32), 31 - bit);
    ScanShift(valid, v, bit);
    ScanProbe(probe, bit);
    ScanCopy(valid, probe, cur, bit);
  }

  lemma ScanShift(valid: bv32, v: bv32, bit: int)
    requires 0 <= bit < 32 && ShiftedBy(valid, v, bit)
    ensures ShiftedBy(valid, Twice(v), bit + 1)
    ensures And(v, 0x8000_0000) != 0 <==> Bits(valid, 32)[31 - bit]
  {
    hide Bits, And, Twice;
    BitsShl(v);
    forall k | bit + 1 <= k < 32
      ensures Bits(Twice(v), 32)[k] == Bits(valid, 32)[k - (bit + 1)]
    {
      assert Bits(Twice(v), 32)[k] == Bits(v, 32)[..31][k - 1];
    }
  }

  lemma ScanProbe(probe: bv32, bit: int)
    requires 0 <= bit < 32 && Probes(probe, bit)
    ensures Probes(Half(probe), bit + 1)
  {
    hide Bits, Half;
    BitsShr(probe);
  }

  lemma ScanCopy(valid: bv32, probe: bv32, cur: bv32, bit: int)
    requires 0 <= bit < 32 && Probes(probe, bit) && Copied(valid, cur, bit)
    ensures Copied(valid, if Bits(valid, 32)[31 - bit] then Or(cur, probe) else cur, bit + 1)
  {
    hide Bits, Or;
    forall k: nat | k < 32
      ensures Bits(Or(cur, probe), 32)[k] == (Bits(cur, 32)[k] || Bits(probe, 32)[k])
    {
      BitsOr(cur, probe, 32, k);
    }
  }

  lemma ScanEnd(valid: bv32, v: bv32, probe: bv32, cur: bv32, num: nat)
    requires ScanInv(valid, v, probe, cur, num, 32)
    ensures cur == valid && num == NumOnes(valid)
  {
    hide Bits, Ones;
    assert Bits(cur, 32) == Bits(valid, 32);
    WordsEqual(cur, valid);
    assert Bits(valid, 32)[0..] == Bits(valid, 32);
  }

  lemma ScanStart(valid: bv32)
    ensures ScanInv(valid, valid, 0x8000_0000, 0, 0, 0)
  {
    hide Bits;
    ZeroBits(32);
    OnlyTop(32);
    LowValues();
  }

  lemma {:induction false} OnlyTop(n: nat)
    requires 0 < n <= 32
    ensures forall k | 0 <= k < 32 :: Bits(Hot(n), 32)[k] == (k == n - 1)
  {
    hide Half, Odd, Twice, And, Bits;
    if n > 1 {
      OnlyTop(n - 1);
      BitsShl(Hot(n - 1));
    } else {
      OnlyBottom();
    }
  }

  lemma OnlyBottom()
    ensures forall k | 0 <= k < 32 :: Bits(1, 32)[k] == (k == 0)
  {
    hide Half, Odd;
    OddOne();
    ZeroBits(31);
    assert Bits(1, 32) == [Odd(1)] + Bits(Half(1), 31);
  }

  lemma OddOne()
    ensures Odd(1) && Half(1) == 0
  {
  }

  lemma OnesFront(s: seq<bool>, k: nat)
    requires k < |s|
    ensures Ones(s[k..]) == (if s[k] then 1 else 0) + Ones(s[k + 1..])
  {
    assert s[k..][1..] == s[k + 1..];
  }

  /** The first member, in list order, among those with the fewest mask bits. */
  ghost predicate Fewest(insns: seq<Insn>, l: seq<nat>, i: nat)
    requires InRange(insns, l)
  {
    && (forall j | j in l :: i < |insns| && NumOnes(insns[i].mask) <= NumOnes(insns[j].mask))
    && (exists k | 0 <= k < |l| :: FirstAt(insns, l, i, k))
  }

  ghost predicate FirstAt(insns: seq<Insn>, l: seq<nat>, i: nat, k: nat)
    requires InRange(insns, l) && k < |l|
  {
    l[k] == i && forall j | 0 <= j < k :: NumOnes(insns[l[j]].mask) > NumOnes(insns[i].mask)
  }

  method FewestOnes(insns: seq<Insn>, l: seq<nat>) returns (i: nat)
    requires InRange(insns, l) && l != []
    ensures Fewest(insns, l, i)
  {
    hide NumOnes;
    i := l[0];
    var best := Num1sInMask(insns[i].mask);
    var k := 1;
    ghost var at: nat := 0;
    while k < |l|
      invariant 1 <= k <= |l| && i < |insns| && at < k && FirstAt(insns, l, i, at) && best == NumOnes(insns[i].mask)
      invariant forall j | 0 <= j < k :: best <= NumOnes(insns[l[j]].mask)
    {
      var n := Num1sInMask(insns[l[k]].mask);
      if n < best {
        i, best, at := l[k], n, k;
      }
      k := k + 1;
    }
  }

  // ----- the state of the generator

  /** What has been written: the table, the next free entry, the instructions placed, and for each leaf
   *  the instructions it stands for and the bits tested on the way to it. */
  datatype St = St(table: Table, available: nat, processed: set<nat>, groups: map<nat, seq<nat>>,
      tested: map<nat, bv32>)

  /** A leaf: tested bits belong to every member's mask; the named instruction is the member with the
   *  fewest mask bits; with several members there was no further bit common to all of them. */
  ghost predicate LeafOk(insns: seq<Insn>, n: Entry, g: seq<nat>, t: bv32) {
    && g != [] && InRange(insns, g) && Distinct(g) && n.branches == []
    && (forall i | i in g :: Within(t, insns[i].mask))
    && n.index >= 0 && Fewest(insns, g, n.index)
    && (|g| > 1 ==> forall c | (forall i | i in g :: Within(c, insns[i].mask)) :: Within(c, t))
  }

  ghost predicate GroupsOk(s: St) {
    && s.groups.Keys == s.tested.Keys && s.groups.Keys <= s.table.Keys
    && (forall e | e in s.table :: e in s.groups <==> s.table[e].mask == 0)
    && (forall e, f, i | e in s.groups && f in s.groups && i in s.groups[e] && i in s.groups[f] :: e == f)
    && (forall e, i | e in s.groups && i in s.groups[e] :: i in s.processed)
    && (forall i | i in s.processed :: exists e | e in s.groups :: i in s.groups[e])
  }

  ghost predicate StateOk(insns: seq<Insn>, s: St) {
    && Numbered(s.table, s.available)
    && GroupsOk(s)
    && (forall e | e in s.groups ::
          e in s.table && e in s.tested && LeafOk(insns, s.table[e], s.groups[e], s.tested[e]))
  }

  /** s' only adds to s. */
  ghost predicate Grown(s: St, s': St) {
    && Extends(s.table, s'.table) && s.available <= s'.available
    && (forall e | e in s.groups :: e in s'.groups && s'.groups[e] == s.groups[e])
    && (forall e | e in s.tested :: e in s'.tested && s'.tested[e] == s.tested[e])
  }

  /** The walk of w from `entry` ends at a leaf that stands for i. */
  ghost predicate Reaches(s: St, entry: nat, w: bv32, i: nat)
    requires Numbered(s.table, s.available) && entry < s.available
  {
    var r := Walk(s.table, s.available, entry, w);
    r.Some? && r.v in s.groups && i in s.groups[r.v]
  }

  /** The leaf reached by w stands for members of l that agree with w on what was tested since d. */
  ghost predicate SoundAt(insns: seq<Insn>, s: St, l: seq<nat>, d: bv32, entry: nat, w: bv32)
    requires Numbered(s.table, s.available) && entry < s.available
  {
    var r := Walk(s.table, s.available, entry, w);
    r.Some? ==> r.v in s.groups && r.v in s.tested
                && forall i | i in s.groups[r.v] :: i < |insns| && i in l && Agree(w, insns[i].enc, s.tested[r.v], d)
  }

  /** The subtree at `entry` does what list l needs. */
  ghost predicate Built(insns: seq<Insn>, s: St, l: seq<nat>, d: bv32, entry: nat) {
    && Numbered(s.table, s.available) && entry < s.available && InRange(insns, l)
    && (forall w, i | i in l && Matches(w, insns[i]) :: Reaches(s, entry, w, i))
    && (forall w :: SoundAt(insns, s, l, d, entry, w))
  }

  lemma BuiltKept(insns: seq<Insn>, s: St, s': St, l: seq<nat>, d: bv32, entry: nat, lo: nat, hi: nat)
    requires Built(insns, s, l, d, entry) && Grown(s, s') && Numbered(s'.table, s'.available)
    requires Closed(s.table, entry, lo, hi)
    ensures Built(insns, s', l, d, entry) && Closed(s'.table, entry, lo, hi)
  {
    hide Matches, Agree;
    forall w
      ensures Walk(s'.table, s'.available, entry, w) == Walk(s.table, s.available, entry, w)
    {
      WalkKept(s.table, s.available, s'.table, s'.available, entry, lo, hi, entry, w);
    }
    forall w, i | i in l && Matches(w, insns[i])
      ensures Reaches(s', entry, w, i)
    {
      assert Reaches(s, entry, w, i);
    }
    forall w
      ensures SoundAt(insns, s', l, d, entry, w)
    {
      assert SoundAt(insns, s, l, d, entry, w);
    }
  }

  // ----- leaves

  ghost function WithLeaf(s: St, l: seq<nat>, d: bv32, entry: nat, index: nat): St {
    s.(table := s.table[entry := Entry(0, [], index)], groups := s.groups[entry := l], tested := s.tested[entry := d],
       processed := s.processed + set i | i in l)
  }

  lemma LeafPlaced(insns: seq<Insn>, s: St, l: seq<nat>, d: bv32, entry: nat, index: nat)
    requires StateOk(insns, s) && entry < s.available && entry !in s.table && forall i | i in l :: i !in s.processed
    requires LeafOk(insns, Entry(0, [], index), l, d)
    ensures StateOk(insns, WithLeaf(s, l, d, entry, index)) && Grown(s, WithLeaf(s, l, d, entry, index))
    ensures Built(insns, WithLeaf(s, l, d, entry, index), l, d, entry)
    ensures Closed(WithLeaf(s, l, d, entry, index).table, entry, s.available, s.available)
  {
    hide *;
    LeafState(insns, s, l, d, entry, index);
    LeafBuilt(insns, s, l, d, entry, index);
  }

  lemma LeafState(insns: seq<Insn>, s: St, l: seq<nat>, d: bv32, entry: nat, index: nat)
    requires StateOk(insns, s) && entry < s.available && entry !in s.table && forall i | i in l :: i !in s.processed
    requires LeafOk(insns, Entry(0, [], index), l, d)
    ensures StateOk(insns, WithLeaf(s, l, d, entry, index)) && Grown(s, WithLeaf(s, l, d, entry, index))
    ensures Closed(WithLeaf(s, l, d, entry, index).table, entry, s.available, s.available)
  {
    hide LeafOk, GroupsOk, Numbered, Closed, Grown;
    LeafGroups(s, l, d, entry, index);
    StillLeaf(insns, s, l, d, entry, index);
    LeafTable(s, l, d, entry, index);
    var s' := WithLeaf(s, l, d, entry, index);
    forall e | e in s'.groups
      ensures e in s'.table && e in s'.tested && LeafOk(insns, s'.table[e], s'.groups[e], s'.tested[e])
    {
      if e != entry { assert e in s.groups; }
    }
  }

  lemma LeafTable(s: St, l: seq<nat>, d: bv32, entry: nat, index: nat)
    requires Numbered(s.table, s.available) && entry < s.available && entry !in s.table && entry !in s.groups
    requires entry !in s.tested
    ensures Numbered(WithLeaf(s, l, d, entry, index).table, s.available) && Grown(s, WithLeaf(s, l, d, entry, index))
    ensures Closed(WithLeaf(s, l, d, entry, index).table, entry, s.available, s.available)
  {
  }

  lemma StillLeaf(insns: seq<Insn>, s: St, l: seq<nat>, d: bv32, entry: nat, index: nat)
    requires GroupsOk(s) && entry !in s.table
    ensures entry !in s.groups && entry !in s.tested
  {
  }

  lemma LeafBuilt(insns: seq<Insn>, s: St, l: seq<nat>, d: bv32, entry: nat, index: nat)
    requires StateOk(insns, WithLeaf(s, l, d, entry, index)) && entry < s.available
    ensures Built(insns, WithLeaf(s, l, d, entry, index), l, d, entry)
  {
    hide Matches, Agree, LeafOk, GroupsOk;
    var s' := WithLeaf(s, l, d, entry, index);
    assert entry in s'.groups;
    LeafList(insns, s'.table[entry], l, d);
    forall w
      ensures Walk(s'.table, s'.available, entry, w) == Some(entry) && SoundAt(insns, s', l, d, entry, w)
    {
      forall i | i in l ensures Agree(w, insns[i].enc, d, d) { AgreeAll(w, insns[i].enc, d); }
    }
  }

  lemma LeafList(insns: seq<Insn>, n: Entry, l: seq<nat>, d: bv32)
    requires LeafOk(insns, n, l, d)
    ensures InRange(insns, l) && l != []
  {
  }

  lemma LeafGroups(s: St, l: seq<nat>, d: bv32, entry: nat, index: nat)
    requires GroupsOk(s) && entry !in s.table && forall i | i in l :: i !in s.processed
    ensures GroupsOk(WithLeaf(s, l, d, entry, index))
  {
    var s' := WithLeaf(s, l, d, entry, index);
    forall i | i in s'.processed
      ensures exists e | e in s'.groups :: i in s'.groups[e]
    {
      if i in l {
        assert i in s'.groups[entry];
      } else {
        var e :| e in s.groups && i in s.groups[e];
        assert i in s'.groups[e];
      }
    }
  }

  // ----- decision nodes

  /** Branch j of a node leads to entry a + j. */
  function Branches(keys: seq<nat>, a: nat): (b: seq<(nat, nat)>)
    ensures |b| == |keys| && forall j | 0 <= j < |keys| :: b[j] == (keys[j], a + j)
  {
    seq(|keys|, j requires 0 <= j < |keys| => (keys[j], a + j))
  }

  lemma {:induction false} LookupBranch(b: seq<(nat, nat)>, key: nat)
    requires forall i, j | 0 <= i < j < |b| :: b[i].0 < b[j].0
    ensures forall j | 0 <= j < |b| && b[j].0 == key :: Lookup(b, key) == Some(b[j].1)
    ensures (forall j | 0 <= j < |b| :: b[j].0 != key) ==> Lookup(b, key).None?
  {
    if b != [] {
      LookupBranch(b[1..], key);
      forall j | 0 <= j < |b| && b[j].0 == key
        ensures Lookup(b, key) == Some(b[j].1)
      {
        if j > 0 { assert b[1..][j - 1] == b[j]; }
      }
    }
  }

  ghost function WithNode(s: St, c: bv32, entry: nat, keys: seq<nat>): St {
    s.(table := s.table[entry := Entry(c, Branches(keys, s.available), -1)], available := s.available + |keys|)
  }

  lemma NodePlaced(insns: seq<Insn>, s: St, c: bv32, entry: nat, keys: seq<nat>)
    requires StateOk(insns, s) && entry < s.available && entry !in s.table && c != 0
    ensures StateOk(insns, WithNode(s, c, entry, keys)) && Grown(s, WithNode(s, c, entry, keys))
  {
    hide LeafOk;
    var s' := WithNode(s, c, entry, keys);
    forall b | b in s'.table[entry].branches
      ensures entry < b.1 < s'.available
    {
    }
    forall e | e in s'.table && e != entry
      ensures e < s'.available && forall b | b in s'.table[e].branches :: e < b.1 < s'.available
    {
      assert e in s.table;
    }
  }

  /** Walking through a node: the branch taken by w. */
  lemma NodeWalk(s: St, c: bv32, entry: nat, keys: seq<nat>, a: nat, w: bv32)
    requires Numbered(s.table, s.available) && entry in s.table && entry < s.available && c != 0
    requires s.table[entry] == Entry(c, Branches(keys, a), -1) && forall i, j | 0 <= i < j < |keys| :: keys[i] < keys[j]
    ensures forall j | 0 <= j < |keys| && keys[j] == Key(w, c) ::
              a + j < s.available && Walk(s.table, s.available, entry, w) == Walk(s.table, s.available, a + j, w)
    ensures Key(w, c) !in keys ==> Walk(s.table, s.available, entry, w).None?
  {
    hide Key;
    var b := Branches(keys, a);
    LookupBranch(b, Key(w, c));
    forall j | 0 <= j < |b|
      ensures b[j].1 < s.available
    {
      assert b[j] in s.table[entry].branches;
    }
  }

  /** If every branch does what its sublist needs, the node does what the list needs. */
  lemma NodeBuilt(insns: seq<Insn>, s: St, l: seq<nat>, d: bv32, c: bv32, entry: nat, keys: seq<nat>,
      lists: seq<seq<nat>>, a: nat)
    requires Numbered(s.table, s.available) && entry in s.table && entry < s.available && c != 0 && InRange(insns, l)
    requires s.table[entry] == Entry(c, Branches(keys, a), -1) && Partitioned(insns, l, c, keys, lists)
    requires forall i | i in l :: Within(c, insns[i].mask)
    requires forall j | 0 <= j < |keys| :: Built(insns, s, lists[j], Or(d, c), a + j)
    ensures Built(insns, s, l, d, entry)
  {
    hide Key, Matches, Agree, Within, Built, Branch, Walk;
    forall w, i | i in l && Matches(w, insns[i])
      ensures Reaches(s, entry, w, i)
    {
      NodeReaches(insns, s, l, d, c, entry, keys, lists, a, w, i);
    }
    forall w
      ensures SoundAt(insns, s, l, d, entry, w)
    {
      NodeSound(insns, s, l, d, c, entry, keys, lists, a, w);
    }
    BuiltIs(insns, s, l, d, entry);
  }

  lemma BuiltIs(insns: seq<Insn>, s: St, l: seq<nat>, d: bv32, entry: nat)
    requires Numbered(s.table, s.available) && entry < s.available && InRange(insns, l)
    requires forall w, i | i in l && Matches(w, insns[i]) :: Reaches(s, entry, w, i)
    requires forall w :: SoundAt(insns, s, l, d, entry, w)
    ensures Built(insns, s, l, d, entry)
  {
  }

  lemma NodeReaches(insns: seq<Insn>, s: St, l: seq<nat>, d: bv32, c: bv32, entry: nat, keys: seq<nat>,
      lists: seq<seq<nat>>, a: nat, w: bv32, i: nat)
    requires Numbered(s.table, s.available) && entry in s.table && entry < s.available && c != 0 && InRange(insns, l)
    requires s.table[entry] == Entry(c, Branches(keys, a), -1) && Partitioned(insns, l, c, keys, lists)
    requires forall j | 0 <= j < |keys| :: Built(insns, s, lists[j], Or(d, c), a + j)
    requires i in l && Within(c, insns[i].mask) && Matches(w, insns[i])
    ensures Reaches(s, entry, w, i)
  {
    hide Key, Matches, Agree, Within, Branch, Walk, Or, And;
    NodeWalk(s, c, entry, keys, a, w);
    MatchOn(w, insns[i], c);
    KeyAgree(w, insns[i].enc, c);
    var j :| 0 <= j < |keys| && keys[j] == Key(insns[i].enc, c);
    BranchMembers(insns, l, c, keys[j]);
    assert i in lists[j];
    assert Built(insns, s, lists[j], Or(d, c), a + j);
    assert Reaches(s, a + j, w, i);
  }

  lemma NodeSound(insns: seq<Insn>, s: St, l: seq<nat>, d: bv32, c: bv32, entry: nat, keys: seq<nat>,
      lists: seq<seq<nat>>, a: nat, w: bv32)
    requires Numbered(s.table, s.available) && entry in s.table && entry < s.available && c != 0 && InRange(insns, l)
    requires s.table[entry] == Entry(c, Branches(keys, a), -1) && Partitioned(insns, l, c, keys, lists)
    requires forall j | 0 <= j < |keys| :: Built(insns, s, lists[j], Or(d, c), a + j)
    ensures SoundAt(insns, s, l, d, entry, w)
  {
    hide Key, Matches, Agree, Branch, Walk, Or, And;
    NodeWalk(s, c, entry, keys, a, w);
    if Key(w, c) in keys {
      var j :| 0 <= j < |keys| && keys[j] == Key(w, c);
      BranchMembers(insns, l, c, keys[j]);
      assert Built(insns, s, lists[j], Or(d, c), a + j);
      assert SoundAt(insns, s, lists[j], Or(d, c), a + j, w);
      var r := Walk(s.table, s.available, entry, w);
      if r.Some? {
        forall i | i in s.groups[r.v]
          ensures i < |insns| && i in l && Agree(w, insns[i].enc, s.tested[r.v], d)
        {
          assert i in lists[j];
          KeyAgree(w, insns[i].enc, c);
          MaskStep(w, insns[i].enc, s.tested[r.v], d, c);
        }
      }
    }
  }

  function Range(a: nat, b: nat): (r: set<nat>)
    ensures forall e :: e in r <==> a <= e < b
  {
    if a >= b then {} else Range(a, b - 1) + {b - 1}
  }

  lemma RangeJoin(a: nat, b: nat, c: nat)
    requires a <= b <= c
    ensures Range(a, b) + Range(b, c) == Range(a, c) && Range(a, a) == {} && Range(a, a + 1) == {a}
  {
  }

  lemma RangeStep(k: set<nat>, a: nat, j: nat, c: nat, hi: nat, hi': nat)
    requires c <= hi <= hi'
    ensures k + Range(a, a + j) + Range(c, hi) + {a + j} + Range(hi, hi') == k + Range(a, a + j + 1) + Range(c, hi')
  {
    hide Range;
    RangeJoin(a, a + j, a + j + 1);
    RangeJoin(a + j, a + j, a + j + 1);
    RangeJoin(c, hi, hi');
  }

  lemma SingleLeaf(insns: seq<Insn>, l: seq<nat>, d: bv32)
    requires |l| == 1 && InRange(insns, l) && forall i | i in l :: Within(d, insns[i].mask)
    ensures LeafOk(insns, Entry(0, [], l[0]), l, d)
  {
    hide NumOnes;
    assert FirstAt(insns, l, l[0], 0);
  }

  lemma CommonBits(insns: seq<Insn>, l: seq<nat>, v: bv32, d: bv32)
    requires InRange(insns, l) && Common(insns, l, v)
    ensures And(And(v, Not(d)), d) == 0 && forall i | i in l :: Within(And(v, Not(d)), insns[i].mask)
  {
    hide Within, And, Not;
    MinusOff(v, d);
    forall i | i in l
      ensures Within(And(v, Not(d)), insns[i].mask)
    {
      MaskTrans(And(v, Not(d)), v, insns[i].mask);
    }
  }

  lemma AliasLeaf(insns: seq<Insn>, l: seq<nat>, d: bv32, v: bv32, first: nat)
    requires l != [] && InRange(insns, l) && Distinct(l) && forall i | i in l :: Within(d, insns[i].mask)
    requires Common(insns, l, v) && And(v, Not(d)) == 0 && Fewest(insns, l, first)
    ensures LeafOk(insns, Entry(0, [], first), l, d)
  {
    hide NumOnes, Within, Fewest, And, Not;
    forall c | forall i | i in l :: Within(c, insns[i].mask)
      ensures Within(c, d)
    {
      MinusOff(v, d);
      MaskTrans(c, v, d);
    }
  }

  /** The members of l that take one of the first j branches. */
  ghost function Taken(insns: seq<Insn>, l: seq<nat>, c: bv32, keys: seq<nat>): set<nat>
  {
    set i | i in l && i < |insns| && Key(insns[i].enc, c) in keys
  }

  /** The next sublist is ready to be compiled. */
  lemma NextList(insns: seq<Insn>, l: seq<nat>, d: bv32, c: bv32, keys: seq<nat>, lists: seq<seq<nat>>, j: nat)
    requires InRange(insns, l) && Distinct(l) && Partitioned(insns, l, c, keys, lists) && j < |keys|
    requires forall i | i in l :: Within(d, insns[i].mask) && Within(c, insns[i].mask)
    ensures lists[j] != [] && InRange(insns, lists[j]) && Distinct(lists[j])
    ensures forall i | i in lists[j] :: i in l && i !in Taken(insns, l, c, keys[..j]) && Within(Or(d, c), insns[i].mask)
    ensures Taken(insns, l, c, keys[..j + 1]) == Taken(insns, l, c, keys[..j]) + set i | i in lists[j]
  {
    hide Key, Within, Branch;
    BranchMembers(insns, l, c, keys[j]);
    forall k | 0 <= k < |lists[j]| ensures lists[j][k] < |insns| { assert lists[j][k] in l; }
    forall i | i in lists[j]
      ensures i in l && i !in Taken(insns, l, c, keys[..j]) && Within(Or(d, c), insns[i].mask)
    {
      MaskJoin(d, c, insns[i].mask);
    }
    assert keys[..j + 1] == keys[..j] + [keys[j]];
  }

  lemma AllTaken(insns: seq<Insn>, l: seq<nat>, c: bv32, keys: seq<nat>, lists: seq<seq<nat>>)
    requires InRange(insns, l) && Partitioned(insns, l, c, keys, lists)
    ensures Taken(insns, l, c, keys[..|keys|]) == (set i | i in l) && Taken(insns, l, c, keys[..0]) == {}
  {
    hide Key, Branch;
    assert keys[..|keys|] == keys;
  }

  lemma DeeperMask(d: bv32, c: bv32)
    requires c != 0 && And(c, d) == 0
    ensures NumOnes(d) < NumOnes(Or(d, c)) <= 32
  {
    hide NumOnes, And, Or;
    MaskGrows(d, c);
    OnesOfSubset(d, Or(d, c));
  }

  lemma PartitionSizes(insns: seq<Insn>, l: seq<nat>, c: bv32, keys: seq<nat>, lists: seq<seq<nat>>)
    requires InRange(insns, l) && Partitioned(insns, l, c, keys, lists)
    ensures |keys| == |lists|
  {
  }

  lemma FilledNone(t: Table, a: nat, b: nat)
    ensures Filled(t, a, a, b, b)
  {
  }

  lemma NumberedNow(insns: seq<Insn>, s: St)
    requires StateOk(insns, s)
    ensures Numbered(s.table, s.available)
  {
  }

  lemma KeysBelow(insns: seq<Insn>, s: St)
    requires StateOk(insns, s)
    ensures forall e | e in s.table :: e < s.available
  {
  }

  lemma GrownRefl(s: St)
    ensures Grown(s, s)
  {
  }

  lemma GrownTrans(r: St, s: St, t: St)
    requires Grown(r, s) && Grown(s, t)
    ensures Grown(r, t)
  {
  }

  lemma GrownTable(s: St, t: St)
    requires Grown(s, t)
    ensures Extends(s.table, t.table) && s.available <= t.available
  {
  }

  /** The first |los| branches are compiled; branch k owns entries los[k]..his[k] besides a + k. */
  ghost predicate AllBuilt(insns: seq<Insn>, s: St, lists: seq<seq<nat>>, d: bv32, a: nat, los: seq<nat>,
      his: seq<nat>)
  {
    && |los| == |his| <= |lists|
    && forall k | 0 <= k < |los| :: Built(insns, s, lists[k], d, a + k) && Closed(s.table, a + k, los[k], his[k])
  }

  lemma AllBuiltNext(insns: seq<Insn>, s: St, s': St, lists: seq<seq<nat>>, d: bv32, a: nat, los: seq<nat>,
      his: seq<nat>)
    requires AllBuilt(insns, s, lists, d, a, los, his) && Grown(s, s') && StateOk(insns, s') && |los| < |lists|
    requires Built(insns, s', lists[|los|], d, a + |los|) && Closed(s'.table, a + |los|, s.available, s'.available)
    ensures AllBuilt(insns, s', lists, d, a, los + [s.available], his + [s'.available])
  {
    hide Built, Closed, Grown, StateOk;
    NumberedNow(insns, s');
    forall k | 0 <= k < |los|
      ensures Built(insns, s', lists[k], d, a + k) && Closed(s'.table, a + k, los[k], his[k])
    {
      BuiltKept(insns, s, s', lists[k], d, a + k, los[k], his[k]);
    }
  }

  lemma AllBuiltEnd(insns: seq<Insn>, s: St, lists: seq<seq<nat>>, d: bv32, a: nat, los: seq<nat>, his: seq<nat>)
    requires AllBuilt(insns, s, lists, d, a, los, his) && |los| == |lists|
    ensures forall j | 0 <= j < |lists| :: Built(insns, s, lists[j], d, a + j)
  {
    hide Built, Closed;
  }

  lemma AllBuiltNone(insns: seq<Insn>, s: St, lists: seq<seq<nat>>, d: bv32, a: nat)
    ensures AllBuilt(insns, s, lists, d, a, [], [])
  {
  }

  /** Entries a..b and c..hi are written and lead only into c..hi. */
  ghost predicate Filled(t: Table, a: nat, b: nat, c: nat, hi: nat) {
    forall e | a <= e < b || c <= e < hi :: e in t && forall x | x in t[e].branches :: c <= x.1 < hi
  }

  lemma FilledMore(t: Table, t': Table, a: nat, j: nat, c: nat, hi: nat, hi': nat)
    requires Filled(t, a, a + j, c, hi) && Extends(t, t') && c <= hi <= hi' && Closed(t', a + j, hi, hi')
    ensures Filled(t', a, a + j + 1, c, hi')
  {
  }

  lemma NodeClosed(t: Table, entry: nat, c: bv32, keys: seq<nat>, a: nat, hi: nat)
    requires entry in t && t[entry] == Entry(c, Branches(keys, a), -1) && Filled(t, a, a + |keys|, a + |keys|, hi)
    requires a + |keys| <= hi
    ensures Closed(t, entry, a, hi)
  {
    forall x | x in t[entry].branches
      ensures a <= x.1 < hi
    {
    }
  }

  /** The node being compiled: list l at `entry`, testing c after d, branches at entries from a. */
  datatype Job = Job(l: seq<nat>, d: bv32, c: bv32, entry: nat, keys: seq<nat>, lists: seq<seq<nat>>, a: nat)

  ghost predicate JobOk(insns: seq<Insn>, s0: St, b: Job) {
    && StateOk(insns, s0) && b.a == s0.available && b.entry < b.a && b.entry !in s0.table && b.c != 0
    && InRange(insns, b.l) && Distinct(b.l) && (forall i | i in b.l :: i !in s0.processed)
    && (forall i | i in b.l :: Within(b.d, insns[i].mask) && Within(b.c, insns[i].mask))
    && Partitioned(insns, b.l, b.c, b.keys, b.lists)
  }

  /** What j branches have written and placed. */
  ghost predicate Placed(insns: seq<Insn>, s0: St, s: St, b: Job, j: nat)
    requires j <= |b.keys|
  {
    && s.table.Keys == s0.table.Keys + {b.entry} + Range(b.a, b.a + j) + Range(b.a + |b.keys|, s.available)
    && s.processed == s0.processed + Taken(insns, b.l, b.c, b.keys[..j])
  }

  /** After j of its branches: what is written, placed and known. */
  ghost predicate Progress(insns: seq<Insn>, s0: St, s: St, b: Job, j: nat, los: seq<nat>, his: seq<nat>) {
    && j <= |b.keys| == |b.lists| && |los| == |his| == j
    && StateOk(insns, s) && Grown(WithNode(s0, b.c, b.entry, b.keys), s) && b.a + |b.keys| <= s.available
    && Placed(insns, s0, s, b, j)
    && Filled(s.table, b.a, b.a + j, b.a + |b.keys|, s.available)
    && AllBuilt(insns, s, b.lists, Or(b.d, b.c), b.a, los, his)
  }

  lemma ProgressStart(insns: seq<Insn>, s0: St, b: Job)
    requires JobOk(insns, s0, b)
    ensures Progress(insns, s0, WithNode(s0, b.c, b.entry, b.keys), b, 0, [], [])
  {
    hide StateOk, Grown, Filled, AllBuilt, Key, Within, Or, Partitioned, Distinct, Taken;
    var s1 := WithNode(s0, b.c, b.entry, b.keys);
    NodePlaced(insns, s0, b.c, b.entry, b.keys);
    GrownRefl(s1);
    PartitionSizes(insns, b.l, b.c, b.keys, b.lists);
    AllTaken(insns, b.l, b.c, b.keys, b.lists);
    FilledNone(s1.table, b.a, s1.available);
    AllBuiltNone(insns, s1, b.lists, Or(b.d, b.c), b.a);
  }

  /** The next branch may be compiled. */
  lemma ProgressReady(insns: seq<Insn>, s0: St, s: St, b: Job, j: nat, los: seq<nat>, his: seq<nat>)
    requires JobOk(insns, s0, b) && Progress(insns, s0, s, b, j, los, his) && j < |b.keys|
    ensures b.a + j < s.available && b.a + j !in s.table
    ensures b.lists[j] != [] && InRange(insns, b.lists[j]) && Distinct(b.lists[j])
    ensures forall i | i in b.lists[j] :: i !in s.processed && Within(Or(b.d, b.c), insns[i].mask)
  {
    hide StateOk, Grown, Filled, AllBuilt, Within, Or, Partitioned, Distinct, Taken;
    NextList(insns, b.l, b.d, b.c, b.keys, b.lists, j);
    KeysBelow(insns, s0);
  }

  lemma ProgressOk(insns: seq<Insn>, s0: St, s: St, b: Job, j: nat, los: seq<nat>, his: seq<nat>)
    requires Progress(insns, s0, s, b, j, los, his)
    ensures StateOk(insns, s)
  {
    hide StateOk, Grown, Filled, AllBuilt;
  }

  lemma ProgressStep(insns: seq<Insn>, s0: St, s: St, s': St, b: Job, j: nat, los: seq<nat>, his: seq<nat>)
    requires JobOk(insns, s0, b) && Progress(insns, s0, s, b, j, los, his) && j < |b.keys|
    requires StateOk(insns, s') && Grown(s, s') && Built(insns, s', b.lists[j], Or(b.d, b.c), b.a + j)
    requires Closed(s'.table, b.a + j, s.available, s'.available)
    requires s'.table.Keys == s.table.Keys + {b.a + j} + Range(s.available, s'.available)
    requires s'.processed == s.processed + set i | i in b.lists[j]
    ensures Progress(insns, s0, s', b, j + 1, los + [s.available], his + [s'.available])
  {
    hide StateOk, Grown, Filled, AllBuilt, Built, Closed, Or, Range, Placed, Partitioned, Distinct, Within;
    GrownTrans(WithNode(s0, b.c, b.entry, b.keys), s, s');
    GrownTable(s, s');
    ProgressSets(insns, s0, s, s', b, j);
    FilledMore(s.table, s'.table, b.a, j, b.a + |b.keys|, s.available, s'.available);
    AllBuiltNext(insns, s, s', b.lists, Or(b.d, b.c), b.a, los, his);
  }

  lemma ProgressSets(insns: seq<Insn>, s0: St, s: St, s': St, b: Job, j: nat)
    requires JobOk(insns, s0, b) && j < |b.keys| == |b.lists| && b.a + |b.keys| <= s.available <= s'.available
    requires Placed(insns, s0, s, b, j)
    requires s'.table.Keys == s.table.Keys + {b.a + j} + Range(s.available, s'.available)
    requires s'.processed == s.processed + set i | i in b.lists[j]
    ensures Placed(insns, s0, s', b, j + 1)
  {
    hide StateOk, Or, Partitioned, Distinct, Taken, Range, Within;
    NextList(insns, b.l, b.d, b.c, b.keys, b.lists, j);
    RangeStep(s0.table.Keys + {b.entry}, b.a, j, b.a + |b.keys|, s.available, s'.available);
  }

  lemma ProgressEnd(insns: seq<Insn>, s0: St, s: St, b: Job, los: seq<nat>, his: seq<nat>)
    requires JobOk(insns, s0, b) && Progress(insns, s0, s, b, |b.keys|, los, his)
    ensures StateOk(insns, s) && Grown(s0, s) && Built(insns, s, b.l, b.d, b.entry)
    ensures Closed(s.table, b.entry, b.a, s.available)
    ensures s.table.Keys == s0.table.Keys + {b.entry} + Range(b.a, s.available)
    ensures s.processed == s0.processed + set i | i in b.l
  {
    hide StateOk, Grown, Filled, AllBuilt, Built, Closed, Within, Or, Partitioned, Distinct, Taken, Range;
    var s1 := WithNode(s0, b.c, b.entry, b.keys);
    RangeJoin(b.a, b.a + |b.keys|, s.available);
    NodePlaced(insns, s0, b.c, b.entry, b.keys);
    GrownTrans(s0, s1, s);
    GrownTable(s1, s);
    assert b.entry in s1.table;
    NumberedNow(insns, s);
    AllTaken(insns, b.l, b.c, b.keys, b.lists);
    AllBuiltEnd(insns, s, b.lists, Or(b.d, b.c), b.a, los, his);
    NodeBuilt(insns, s, b.l, b.d, b.c, b.entry, b.keys, b.lists, b.a);
    NodeClosed(s.table, b.entry, b.c, b.keys, b.a, s.available);
  }

  // ----- the generator

  class Builder {
    const insns: seq<Insn>
    var table: Table
    var available: nat
    var processed: set<nat>
    var numNodes: nat
    var numLeaves: nat
    ghost var groups: map<nat, seq<nat>>
    ghost var tested: map<nat, bv32>

    ghost function S(): St
      reads this
    {
      St(table, available, processed, groups, tested)
    }

    constructor (insns: seq<Insn>)
      ensures this.insns == insns && S() == St(map[], 1, {}, map[], map[])
    {
      this.insns := insns;
      table, available, processed, numNodes, numLeaves := map[], 1, {}, 0, 0;
      groups, tested := map[], map[];
    }

    method PlaceLeaf(l: seq<nat>, d: bv32, entry: nat, index: nat)
      modifies this
      ensures S() == WithLeaf(old(S()), l, d, entry, index)
    {
      table := table[entry := Entry(0, [], index)];
      processed := processed + set i | i in l;
      numNodes, numLeaves := numNodes + 1, numLeaves + |l|;
      groups, tested := groups[entry := l], tested[entry := d];
    }

    method PlaceNode(c: bv32, entry: nat, keys: seq<nat>)
      modifies this
      ensures S() == WithNode(old(S()), c, entry, keys)
    {
      table := table[entry := Entry(c, Branches(keys, available), -1)];
      available := available + |keys|;
      numNodes := numNodes + 1;
    }

    /** Entries a caller may still fill: none of them has been written. */
    ghost predicate Ready(l: seq<nat>, d: bv32, entry: nat)
      reads this
    {
      && StateOk(insns, S()) && entry < available && entry !in table
      && l != [] && InRange(insns, l) && Distinct(l) && (forall i | i in l :: i !in processed)
      && (forall i | i in l :: Within(d, insns[i].mask))
    }

    /** The effect of compiling list l into the subtree at `entry`, from state s to s'. */
    static ghost predicate Compiled(insns: seq<Insn>, s: St, s': St, l: seq<nat>, d: bv32, entry: nat) {
      && StateOk(insns, s') && Grown(s, s') && Built(insns, s', l, d, entry)
      && Closed(s'.table, entry, s.available, s'.available)
      && s'.table.Keys == s.table.Keys + {entry} + Range(s.available, s'.available)
      && s'.processed == s.processed + set i | i in l
    }

    /** Compiles list l, whose masks all include the bits d tested so far, into the subtree at `entry`.
     *  It writes `entry` and every entry it reserves exactly once, and nothing else. */
    method Build(l: seq<nat>, d: bv32, entry: nat)
      requires l != [] ==> Ready(l, d, entry)
      modifies this
      ensures l == [] ==> S() == old(S())
      ensures l != [] ==> Compiled(insns, old(S()), S(), l, d, entry)
      decreases 32 - NumOnes(d), 1
    {
      if |l| < 1 { return; }
      hide StateOk, Compiled, NumOnes, LeafOk, Common, Fewest, And, Not, Within, Distinct;
      if |l| == 1 {
        SingleLeaf(insns, l, d);
        BuildLeaf(l, d, entry, l[0]);
        return;
      }
      var common := CommonMask(insns, l);
      var valid := And(common, Not(d));
      CommonBits(insns, l, common, d);
      if valid == 0 {
        var first := FewestOnes(insns, l);
        AliasLeaf(insns, l, d, common, first);
        BuildLeaf(l, d, entry, first);
        return;
      }
      BuildNode(l, d, entry, valid);
    }

    method BuildLeaf(l: seq<nat>, d: bv32, entry: nat, index: nat)
      requires Ready(l, d, entry) && LeafOk(insns, Entry(0, [], index), l, d)
      modifies this
      ensures Compiled(insns, old(S()), S(), l, d, entry)
    {
      hide StateOk, Grown, Built, Closed, Range, LeafOk, Within, Distinct;
      RangeJoin(available, available, available);
      LeafPlaced(insns, S(), l, d, entry, index);
      PlaceLeaf(l, d, entry, index);
    }

    method BuildNode(l: seq<nat>, d: bv32, entry: nat, valid: bv32)
      requires Ready(l, d, entry) && valid != 0 && And(valid, d) == 0
      requires forall i | i in l :: Within(valid, insns[i].mask)
      modifies this
      ensures Compiled(insns, old(S()), S(), l, d, entry)
      decreases 32 - NumOnes(d), 0
    {
      hide StateOk, Built, Closed, Grown, NumOnes, Within, And, Or, Partitioned, Progress, Range, WithNode, Distinct;
      var cur, bits := ScanMask(valid);
      var keys, lists := Partition(insns, l, cur, bits);
      ghost var s0, b := S(), Job(l, d, cur, entry, keys, lists, available);
      ProgressStart(insns, s0, b);
      DeeperMask(d, cur);
      PartitionSizes(insns, l, cur, keys, lists);
      var a := available;
      PlaceNode(cur, entry, keys);
      ghost var los: seq<nat>, his: seq<nat> := [], [];
      var j := 0;
      while j < |keys|
        invariant 0 <= j <= |keys| && Progress(insns, s0, S(), b, j, los, his)
      {
        ghost var s := S();
        ProgressReady(insns, s0, s, b, j, los, his);
        ProgressOk(insns, s0, s, b, j, los, his);
        Build(lists[j], Or(d, cur), a + j);
        ProgressStep(insns, s0, s, S(), b, j, los, his);
        los, his := los + [s.available], his + [available];
        j := j + 1;
      }
      ProgressEnd(insns, s0, S(), b, los, his);
    }
  }

  // ----- decoding with the finished table

  /** All instructions have been compiled into entry 0. */
  ghost predicate Complete(insns: seq<Insn>, s: St) {
    && StateOk(insns, s) && Built(insns, s, Everything(|insns|), 0, 0) && Closed(s.table, 0, 1, s.available)
    && s.table.Keys == Range(0, s.available) && s.processed == Range(0, |insns|)
  }

  function Everything(n: nat): (l: seq<nat>)
    ensures |l| == n && forall k | 0 <= k < n :: l[k] == k
  {
    seq(n, k => k)
  }

  /** The whole generation: the table starts at entry 0, its entries are numbered without gaps, and every
   *  instruction is placed.  Without instructions there is no table. */
  method Generate(insns: seq<Insn>) returns (b: Builder)
    ensures fresh(b) && b.insns == insns && (if insns == [] then b.table == map[] else Complete(insns, b.S()))
  {
    hide StateOk, Built, Closed, Range, Grown, NumOnes;
    b := new Builder(insns);
    var l := Everything(|insns|);
    EmptyOk(insns);
    MembersOf(|insns|);
    forall i | i in l ensures Within(0, insns[i].mask) { AllOnes(insns[i].mask); }
    b.Build(l, 0, 0);
    if insns == [] { return; }
    GrownTable(St(map[], 1, {}, map[], map[]), b.S());
    RangeJoin(0, 1, b.available);
  }

  lemma EmptyOk(insns: seq<Insn>)
    ensures StateOk(insns, St(map[], 1, {}, map[], map[]))
  {
  }

  lemma MembersOf(n: nat)
    ensures (set i | i in Everything(n)) == Range(0, n) && Distinct(Everything(n)) && Range(0, 1) == {0}
    ensures forall i | i in Everything(n) :: i < n
  {
    forall i | 0 <= i < n ensures i in Everything(n) { assert Everything(n)[i] == i; }
    assert Range(0, 1) == {0};
  }

  /** The decoder's walk: the index at the leaf, or 0 when no branch fits. */
  method FindInsnTableIndex(insns: seq<Insn>, t: Table, ghost s: St, e: nat, w: bv32) returns (index: int)
    requires Complete(insns, s) && t == s.table && e < s.available
    ensures var r := Walk(t, s.available, e, w); index == if r.Some? then t[r.v].index else 0
    decreases s.available - e
  {
    hide Built, Key, Range, GroupsOk;
    assert e in t by { InRangeIs(s); }
    if t[e].mask == 0 {
      LeafNamed(insns, s, e);
      assert t[e].index != -1;
      return t[e].index;
    }
    var key := BranchKey(w, t[e].mask);
    var i := 0;
    while i < |t[e].branches|
      invariant 0 <= i <= |t[e].branches|
      invariant Lookup(t[e].branches[i..], key) == Lookup(t[e].branches, key)
    {
      assert t[e].branches[i..][1..] == t[e].branches[i + 1..];
      if t[e].branches[i].0 == key {
        assert t[e].branches[i] in t[e].branches;
        index := FindInsnTableIndex(insns, t, s, t[e].branches[i].1, w);
        return;
      }
      i := i + 1;
    }
    return 0;
  }

  lemma InRangeIs(s: St)
    requires s.table.Keys == Range(0, s.available)
    ensures forall e | 0 <= e < s.available :: e in s.table
  {
    forall e | 0 <= e < s.available ensures e in s.table { assert e in Range(0, s.available); }
  }

  lemma LeafNamed(insns: seq<Insn>, s: St, e: nat)
    requires StateOk(insns, s) && e in s.table && s.table[e].mask == 0
    ensures e in s.groups && e in s.tested && LeafOk(insns, s.table[e], s.groups[e], s.tested[e])
  {
  }

  /** The leaf of an instruction: a word that matches i is walked to a leaf that stands for i; if i is
   *  alone there, i is the answer; if some member's mask was fully tested, the answer matches the word. */
  lemma Decodes(insns: seq<Insn>, s: St, w: bv32, i: nat) returns (e: nat)
    requires Complete(insns, s) && i < |insns| && Matches(w, insns[i])
    ensures 0 < s.available && Walk(s.table, s.available, 0, w) == Some(e)
    ensures e in s.table && e in s.groups && e in s.tested && i in s.groups[e] && 0 <= s.table[e].index < |insns|
    ensures |s.groups[e]| == 1 ==> s.table[e].index == i
    ensures (exists g | g in s.groups[e] :: g < |insns| && Within(insns[g].mask, s.tested[e]))
      ==> Matches(w, insns[s.table[e].index])
  {
    hide Complete, StateOk, Numbered, Matches, Agree, NumOnes, Within, Walk, Range;
    e := Arrives(insns, s, w, i);
    LeafNamed(insns, s, e);
    var g, c := s.groups[e], s.table[e].index;
    if x: nat :| x in g && x < |insns| && Within(insns[x].mask, s.tested[e]) {
      FullyTested(insns, g, s.tested[e], x, c);
      AgreeMatches(w, insns[c], s.tested[e]);
    }
  }

  /** The leaf a matching word arrives at stands for i, and its group agrees with the word on what was tested. */
  lemma Arrives(insns: seq<Insn>, s: St, w: bv32, i: nat) returns (e: nat)
    requires Complete(insns, s) && i < |insns| && Matches(w, insns[i])
    ensures StateOk(insns, s) && Numbered(s.table, s.available) && 0 < s.available
    ensures Walk(s.table, s.available, 0, w) == Some(e) && e in s.table && s.table[e].mask == 0
    ensures e in s.groups && e in s.tested && i in s.groups[e]
    ensures forall g | g in s.groups[e] :: g < |insns| && Agree(w, insns[g].enc, s.tested[e], 0)
  {
    hide StateOk, Numbered, Matches, Agree, Closed, Range;
    NumberedNow(insns, s);
    assert Everything(|insns|)[i] == i;
    assert Reaches(s, 0, w, i) && SoundAt(insns, s, Everything(|insns|), 0, 0, w);
    e := Walk(s.table, s.available, 0, w).v;
  }

  lemma AgreeMatches(w: bv32, i: Insn, t: bv32)
    requires Agree(w, i.enc, t, 0) && i.mask == t
    ensures Matches(w, i)
  {
    AgreeAll(w, i.enc, t);
  }

  /** The member with the fewest mask bits has exactly the tested bits, if any member has. */
  lemma FullyTested(insns: seq<Insn>, g: seq<nat>, t: bv32, x: nat, c: nat)
    requires InRange(insns, g) && (forall i | i in g :: Within(t, insns[i].mask)) && Fewest(insns, g, c)
    requires x in g && x < |insns| && Within(insns[x].mask, t)
    ensures c in g && insns[c].mask == t
  {
    hide NumOnes;
    OnesOfSubset(insns[x].mask, t);
    OnesOfSubset(t, insns[c].mask);
  }

  /** Every instruction stands at exactly one leaf. */
  lemma OneLeafEach(insns: seq<Insn>, s: St, i: nat)
    requires Complete(insns, s) && i < |insns|
    ensures exists e | e in s.groups :: i in s.groups[e]
    ensures forall e, f | e in s.groups && f in s.groups && i in s.groups[e] && i in s.groups[f] :: e == f
  {
    assert i in Range(0, |insns|);
  }

  /** c answers for i in every respect: its fixed bits are fixed in i, with the same values. */
  predicate Subsumes(c: Insn, i: Insn) { Within(c.mask, i.mask) && And(i.enc, c.mask) == And(c.enc, c.mask) }

  /** Exactly when the weak solution to aliases is right for i: whatever word matches i, the instruction
   *  named by i's leaf matches it too, if and only if that instruction subsumes i. */
  lemma AliasExact(c: Insn, i: Insn)
    ensures (forall w | Matches(w, i) :: Matches(w, c)) <==> Subsumes(c, i)
  {
    var probe := Probe(c.mask, c.enc, i.mask, i.enc);
    ProbeMatches(c.mask, c.enc, i.mask, i.enc);
    if forall w | Matches(w, i) :: Matches(w, c) {
      assert Matches(probe, i);
      assert Matches(probe, c);
    }
    if Subsumes(c, i) {
      forall w | Matches(w, i) ensures Matches(w, c) { SubsumesOne(c.mask, c.enc, i.mask, i.enc, w); }
    }
  }

  /** A word that agrees with i under i's mask and disagrees with c wherever i leaves it free. */
  function Probe(cm: bv32, ce: bv32, im: bv32, ie: bv32): bv32 {
    Or(And(ie, im), And(And(Not(ce), cm), Not(im)))
  }

  lemma ProbeMatches(cm: bv32, ce: bv32, im: bv32, ie: bv32)
    ensures And(Probe(cm, ce, im, ie), im) == And(ie, im)
    ensures And(Probe(cm, ce, im, ie), cm) == And(ce, cm) ==> And(cm, im) == cm && And(ie, cm) == And(ce, cm)
  {
    hide And, Or, Not;
    ProbeIn(And(ie, im), ie, im, And(Not(ce), cm));
    ProbeOut(cm, ce, im, ie);
    ProbeFree(ce, cm, im);
    if And(cm, im) == cm { ProbeSame(ie, im, And(Not(ce), cm), cm); }
  }

  lemma ProbeIn(a: bv32, ie: bv32, im: bv32, q: bv32)
    requires a == And(ie, im)
    ensures And(Or(a, And(q, Not(im))), im) == a
  {
  }

  lemma ProbeOut(cm: bv32, ce: bv32, im: bv32, ie: bv32)
    ensures And(And(Probe(cm, ce, im, ie), cm), Not(im)) == And(Not(ce), And(cm, Not(im)))
  {
    hide And, Or, Not;
    OutsideMask(ie, im, And(Not(ce), cm));
    AndSwap(Probe(cm, ce, im, ie), cm, Not(im));
    AndAgain(Not(ce), cm, Not(im));
  }

  lemma OutsideMask(ie: bv32, im: bv32, q: bv32)
    ensures And(Or(And(ie, im), And(q, Not(im))), Not(im)) == And(q, Not(im))
  {
  }

  lemma AndSwap(p: bv32, x: bv32, y: bv32)
    ensures And(And(p, x), y) == And(And(p, y), x)
  {
  }

  lemma AndAgain(e: bv32, x: bv32, y: bv32)
    ensures And(And(And(e, x), y), x) == And(e, And(x, y))
  {
  }

  lemma ProbeFree(ce: bv32, cm: bv32, im: bv32)
    ensures And(And(ce, cm), Not(im)) == And(Not(ce), And(cm, Not(im))) ==> And(cm, im) == cm
  {
  }

  lemma ProbeSame(ie: bv32, im: bv32, q: bv32, cm: bv32)
    requires And(cm, im) == cm
    ensures And(Or(And(ie, im), And(q, Not(im))), cm) == And(ie, cm)
  {
  }

  lemma SubsumesOne(cm: bv32, ce: bv32, im: bv32, ie: bv32, w: bv32)
    requires And(cm, im) == cm && And(ie, cm) == And(ce, cm) && And(w, im) == And(ie, im)
    ensures And(w, cm) == And(ce, cm)
  {
  }
}

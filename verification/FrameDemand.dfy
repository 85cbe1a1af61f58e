/** How many frames a range of pages will need: the counting behind calculate_required_frames. */
module FrameDemand {
  import opened Mmu
  import opened FrameTable

  /** The tables of directory entries a..b-1 that do not exist. */
  function MissingTables(m: Mem, e: nat, a: nat, b: nat): nat
    decreases b
  {
    if b <= a then 0
    else MissingTables(m, e, a, b - 1) + if Table(Ram(e), b - 1) in m.own then 0 else 1
  }

  /** The pages lo..hi-1 of the address space that are not mapped. */
  function MissingPages(m: Mem, e: nat, lo: nat, hi: nat): nat
    decreases hi
  {
    if hi <= lo then 0
    else MissingPages(m, e, lo, hi - 1) + if (Ram(e), Nth(hi - 1)) in m.leaf then 0 else 1
  }

  /** One past the last directory entry that pages below hi use. */
  function TablesUpTo(hi: nat): nat { (hi + 1023) / 1024 }

  /** What calculate_required_frames adds up for the pages lo..hi-1. */
  function Required(m: Mem, e: nat, lo: nat, hi: nat): nat {
    MissingTables(m, e, lo / 1024, TablesUpTo(hi)) + MissingPages(m, e, lo, hi)
  }

  /** What the range really needs: nothing if it is empty. */
  function Demand(m: Mem, e: nat, lo: nat, hi: nat): nat {
    if hi <= lo then 0 else Required(m, e, lo, hi)
  }

  /** A frame is allocated and mapped at v, with a table if there is none yet. */
  function MapFresh(m: Mem, e: nat, v: Vpn): (r: Mem)
    requires MemOk(m) && UserPage(v) && Dir(Ram(e)) in m.own && (Ram(e), v) !in m.leaf
    requires |m.free| >= 1 + if Table(Ram(e), v.d) in m.own then 0 else 1
    ensures MemOk(r) && |r.free| == |m.free| - 1 - if Table(Ram(e), v.d) in m.own then 0 else 1
    ensures forall k :: k in r.leaf <==> k in m.leaf || k == (Ram(e), v)
    ensures forall o :: o in r.own <==> o in m.own || o == Table(Ram(e), v.d) || o == Page(e, v)
  {
    var f := m.free[0];
    AllocOk(m);
    assert Mappable(Alloc(m), f) && |m.free[1..]| == |m.free| - 1;
    MapFrameOk(Alloc(m), e, v, f);
    EnsureTableOk(Alloc(m), Ram(e), v.d);
    Mapped(Alloc(m), e, v, f)
  }

  /** v is one of the pages lo..hi-1. */
  predicate InRange(v: Vpn, lo: nat, hi: nat) {
    lo <= Number(v) < hi
  }

  /** r is m with the unmapped pages among lo..hi-1 mapped: what it took, and what is mapped now. */
  ghost predicate Covers(m: Mem, r: Mem, e: nat, lo: nat, hi: nat) {
    && MemOk(r) && Dir(Ram(e)) in r.own
    && |r.free| == |m.free| - Demand(m, e, lo, hi)
    && (forall d: nat :: Table(Ram(e), d) in r.own <==> Table(Ram(e), d) in m.own || TableTouched(lo, hi, d))
    && (forall v: Vpn :: v.t < NPTENTRIES ==> ((Ram(e), v) in r.leaf <==> (Ram(e), v) in m.leaf || InRange(v, lo, hi)))
  }

  /** Every unmapped page among lo..hi-1 is allocated and mapped, in order. */
  function MapRange(m: Mem, e: nat, lo: nat, hi: nat): (r: Mem)
    requires MemOk(m) && Dir(Ram(e)) in m.own && hi <= USER_PDX * 1024 && |m.free| >= Demand(m, e, lo, hi)
    ensures Covers(m, r, e, lo, hi)
    decreases hi
  {
    if hi <= lo then m
    else
      DemandStep(m, e, lo, hi);
      var m1 := MapRange(m, e, lo, hi - 1);
      MapRangeStep(m, m1, e, lo, hi);
      if (Ram(e), Nth(hi - 1)) in m1.leaf then m1 else MapFresh(m1, e, Nth(hi - 1))
  }

  lemma MapRangeStep(m: Mem, m1: Mem, e: nat, lo: nat, hi: nat)
    requires lo < hi <= USER_PDX * 1024 && |m.free| >= Demand(m, e, lo, hi) && Covers(m, m1, e, lo, hi - 1)
    ensures var v := Nth(hi - 1);
            if (Ram(e), v) in m1.leaf then Covers(m, m1, e, lo, hi)
            else UserPage(v) && |m1.free| >= 1 + (if Table(Ram(e), v.d) in m1.own then 0 else 1) &&
                 Covers(m, MapFresh(m1, e, v), e, lo, hi)
  {
    var v := Nth(hi - 1);
    DemandStep(m, e, lo, hi);
    RangeStep(lo, hi);
    TouchStep(lo, hi);
    if (Ram(e), v) in m1.leaf {
      assert Table(Ram(e), v.d) in m1.own;
    } else {
      CoversFresh(m, m1, MapFresh(m1, e, v), e, lo, hi, v);
    }
  }

  lemma CoversFresh(m: Mem, m1: Mem, r: Mem, e: nat, lo: nat, hi: nat, v: Vpn)
    requires lo < hi && Covers(m, m1, e, lo, hi - 1) && MemOk(r)
    requires |r.free| == |m.free| - Demand(m, e, lo, hi)
    requires forall k :: k in r.leaf <==> k in m1.leaf || k == (Ram(e), v)
    requires forall o :: o in r.own <==> o in m1.own || o == Table(Ram(e), v.d) || o == Page(e, v)
    requires forall u: Vpn :: u.t < NPTENTRIES ==> (InRange(u, lo, hi) <==> InRange(u, lo, hi - 1) || u == v)
    requires forall d: nat :: TableTouched(lo, hi, d) <==> TableTouched(lo, hi - 1, d) || d == v.d
    ensures Covers(m, r, e, lo, hi)
  {
  }

  lemma RangeStep(lo: nat, hi: nat)
    requires lo < hi
    ensures forall u: Vpn :: u.t < NPTENTRIES ==> (InRange(u, lo, hi) <==> InRange(u, lo, hi - 1) || u == Nth(hi - 1))
    ensures InRange(Nth(hi - 1), lo, hi) && !InRange(Nth(hi - 1), lo, hi - 1)
  {
    var v := Nth(hi - 1);
    assert Number(v) == hi - 1;
    forall u: Vpn | u.t < NPTENTRIES && Number(u) == hi - 1 ensures u == v {
    }
  }

  lemma TouchStep(lo: nat, hi: nat)
    requires lo < hi
    ensures forall d: nat :: TableTouched(lo, hi, d) <==> TableTouched(lo, hi - 1, d) || d == Nth(hi - 1).d
  {
    if hi - 1 > lo {
      assert (hi - 1) / 1024 == (hi - 2) / 1024 || (hi - 1) / 1024 == (hi - 2) / 1024 + 1;
    }
  }

  /** Directory entry d serves some page among lo..hi-1. */
  predicate TableTouched(lo: nat, hi: nat, d: nat) {
    lo < hi && lo / 1024 <= d <= (hi - 1) / 1024
  }

  /** One more page costs its frame, and its table if no earlier page of the range used it. */
  lemma DemandStep(m: Mem, e: nat, lo: nat, hi: nat)
    requires lo < hi
    ensures var v := Nth(hi - 1);
            Demand(m, e, lo, hi) == Demand(m, e, lo, hi - 1)
              + (if (Ram(e), v) in m.leaf then 0 else 1)
              + (if Table(Ram(e), v.d) in m.own || TableTouched(lo, hi - 1, v.d) then 0 else 1)
  {
    var a, d := lo / 1024, (hi - 1) / 1024;
    assert TablesUpTo(hi) == d + 1;
    assert MissingTables(m, e, a, d + 1) == MissingTables(m, e, a, d) + if Table(Ram(e), d) in m.own then 0 else 1;
    if hi - 1 == lo {
      assert MissingTables(m, e, a, d) == 0 && MissingPages(m, e, lo, hi - 1) == 0;
    } else if (hi - 1) % 1024 == 0 {
      assert TablesUpTo(hi - 1) == d && (hi - 2) / 1024 == d - 1;
    } else {
      assert TablesUpTo(hi - 1) == d + 1 && (hi - 2) / 1024 == d;
    }
  }

  /** calculate_required_frames is exact, it is the number of frames that mapping every unmapped page of
      the range takes, if and only if the range is nonempty, or starts on a table boundary, or its
      first table exists: an empty range inside a missing table is charged for that table. */
  lemma RequiredExactIff(m: Mem, e: nat, lo: nat, hi: nat)
    requires MemOk(m) && Dir(Ram(e)) in m.own && lo <= hi <= USER_PDX * 1024 && |m.free| >= Demand(m, e, lo, hi)
    ensures |m.free| - |MapRange(m, e, lo, hi).free| == Required(m, e, lo, hi) <==>
            (lo < hi || lo % 1024 == 0 || Table(Ram(e), lo / 1024) in m.own)
  {
    hide MapRange, MemOk;
    var a := lo / 1024;
    assert Covers(m, MapRange(m, e, lo, hi), e, lo, hi);
    if lo == hi {
      assert MissingPages(m, e, lo, lo) == 0;
      if lo % 1024 == 0 {
        assert TablesUpTo(lo) == a;
      } else {
        assert TablesUpTo(lo) == a + 1 && MissingTables(m, e, a, a) == 0;
      }
    }
  }

  /** Environment 0 has a directory and no table. */
  function NoTables(): Mem {
    Mem([1, 1], [], map[Boot(0) := 0, Dir(Ram(0)) := 1], map[], {})
  }

  /** No pages at all, from page 1 on: one frame is asked for, none is taken. */
  lemma EmptyRangeCharged()
    ensures MemOk(NoTables()) && Dir(Ram(0)) in NoTables().own
    ensures Required(NoTables(), 0, 1, 1) == 1 && Demand(NoTables(), 0, 1, 1) == 0
  {
    hide MemOk, Required;
    NoTablesOk();
    EmptyInside(NoTables(), 0, 0, 1);
  }

  /** The same for every empty range inside a missing table. */
  lemma EmptyInside(m: Mem, e: nat, a: nat, b: nat)
    requires MemOk(m) && Dir(Ram(e)) in m.own && 0 < b < 1024 && a < USER_PDX && Table(Ram(e), a) !in m.own
    ensures Required(m, e, 1024 * a + b, 1024 * a + b) == 1
    ensures MapRange(m, e, 1024 * a + b, 1024 * a + b) == m
  {
    var lo := 1024 * a + b;
    assert MissingTables(m, e, a, a) == 0 && MissingPages(m, e, lo, lo) == 0 && TablesUpTo(lo) == a + 1;
  }

  lemma NoTablesOk()
    ensures MemOk(NoTables())
  {
    var m := NoTables();
    var own1: map<Owner, Frame> := map[Boot(0) := 0];
    assert m.own == own1[Dir(Ram(0)) := 1] && map[][Boot(0) := 0] == own1;
    forall f ensures Count(m.own, f) == if f < 2 then 1 else 0 {
      CountZero(map[], f);
      CountAdd(map[], Boot(0), 0, f);
      CountAdd(own1, Dir(Ram(0)), 1, f);
    }
  }
}

/** The bookkeeping of physical frames and two-level tables in kern/memory_manager.c, on values:
    who uses which frame, which frames are free, and what each table entry holds. */
module FrameTable {
  import opened Seqs
  import opened Mmu

  /** An environment has two address spaces: its pages in RAM (env_page_directory)
      and its pages in the page file (disk_env_pgdir). */
  datatype Space = Ram(e: nat) | Swap(e: nat)

  /** A use of a frame. */
  datatype Owner =
    | Boot(f: Frame)              // set aside by initialize_paging
    | Dir(sp: Space)              // the directory of a space
    | Table(sp: Space, d: nat)    // the table behind directory entry d
    | Page(e: nat, v: Vpn)        // a nonzero page table entry

  datatype Mem = Mem(
    refs: seq<nat>,                      // frames_info[f].references
    free: seq<Frame>,                    // free_frame_list, head first
    own: map<Owner, Frame>,              // every use of a frame
    leaf: map<(Space, Vpn), Word>,       // the nonzero second-level entries
    limbo: set<Frame>)                   // allocated but not yet used

  // ---------- counting the uses of a frame ----------

  function Users(own: map<Owner, Frame>, f: Frame): set<Owner> {
    set o | o in own && own[o] == f
  }

  function Count(own: map<Owner, Frame>, f: Frame): nat {
    |Users(own, f)|
  }

  lemma CountAdd(own: map<Owner, Frame>, o: Owner, f: Frame, g: Frame)
    requires o !in own
    ensures Count(own[o := f], g) == Count(own, g) + if g == f then 1 else 0
  {
    var own' := own[o := f];
    if g == f {
      assert Users(own', g) == Users(own, g) + {o};
    } else {
      assert Users(own', g) == Users(own, g);
    }
  }

  lemma CountRemove(own: map<Owner, Frame>, o: Owner, g: Frame)
    requires o in own
    ensures Count(own, g) == Count(own - {o}, g) + if g == own[o] then 1 else 0
  {
    var own' := own - {o};
    if g == own[o] {
      assert Users(own, g) == Users(own', g) + {o};
    } else {
      assert Users(own, g) == Users(own', g);
    }
  }

  lemma CountZero(own: map<Owner, Frame>, f: Frame)
    ensures Count(own, f) == 0 <==> forall o :: o in own ==> own[o] != f
  {
    if Count(own, f) == 0 {
      assert Users(own, f) == {};
      forall o | o in own ensures own[o] != f {
        assert o !in Users(own, f);
      }
    } else {
      var o :| o in Users(own, f);
    }
  }

  // ---------- the invariant ----------

  /** Reference counts are exact. */
  ghost predicate RefsExact(m: Mem) {
    forall f :: 0 <= f < |m.refs| ==> m.refs[f] == Count(m.own, f)
  }

  /** Every frame is free-listed with count 0, freshly handed out with count 0, or in use. */
  ghost predicate Partition(m: Mem) {
    && Distinct(m.free)
    && (forall f :: f in m.free ==> f < |m.refs| && m.refs[f] == 0 && f !in m.limbo)
    && (forall f :: f in m.limbo ==> f < |m.refs| && m.refs[f] == 0)
    && (forall o :: o in m.own ==> m.own[o] < |m.refs|)
    && (forall f :: 0 <= f < |m.refs| ==> f in m.free || f in m.limbo || m.refs[f] > 0)
  }

  /** Only data frames may be mapped more than once: directories, tables and boot frames
      have a single use.  In particular no two directory entries share a table. */
  ghost predicate Exclusive(own: map<Owner, Frame>) {
    forall o, o' :: o in own && o' in own && own[o] == own[o'] && !o.Page? ==> o == o'
  }

  ghost predicate KeysOk(m: Mem) {
    && Boot(0) in m.own && m.own[Boot(0)] == 0
    && (forall sp, d: nat :: Table(sp, d) in m.own ==> Dir(sp) in m.own && d < USER_PDX)
    && (forall k :: k in m.leaf ==> Table(k.0, k.1.d) in m.own && k.1.t < NPTENTRIES && m.leaf[k] != ZERO)
    && (forall e, v :: Page(e, v) in m.own <==> (Ram(e), v) in m.leaf)
    && (forall e, v :: Page(e, v) in m.own ==> m.own[Page(e, v)] == m.leaf[(Ram(e), v)].frame)
  }

  ghost predicate MemOk(m: Mem) {
    RefsExact(m) && Partition(m) && Exclusive(m.own) && KeysOk(m)
  }

  // ---------- the operations ----------
  // allocate_frame panics when no frame is free.  The functions below then leave the state as it
  // is; every claim about them asks for a free frame.

  function Ref(m: Mem, f: Frame): nat {
    if f < |m.refs| then m.refs[f] else 0
  }

  function SetRef(m: Mem, f: Frame, n: nat): seq<nat> {
    if f < |m.refs| then m.refs[f := n] else m.refs
  }

  predicate InUse(m: Mem, o: Owner) {
    o in m.own && Ref(m, m.own[o]) > 0
  }

  /** The frame allocate_frame hands out. */
  function FirstFree(m: Mem): Frame {
    if m.free == [] then 0 else m.free[0]
  }

  /** allocate_frame. */
  function Alloc(m: Mem): Mem {
    if m.free == [] then m else m.(free := m.free[1..], limbo := m.limbo + {m.free[0]})
  }

  /** A handed-out frame becomes a directory or a table: references = 1. */
  function Use(m: Mem, o: Owner, f: Frame): Mem {
    m.(refs := SetRef(m, f, 1), own := m.own[o := f], limbo := m.limbo - {f})
  }

  /** decrement_references: the use o of a frame ends, and the frame is freed if it was the last. */
  function Release(m: Mem, o: Owner): Mem {
    if !InUse(m, o) then m
    else
      var f := m.own[o];
      var n := m.refs[f] - 1;
      m.(refs := m.refs[f := n], own := m.own - {o}, free := if n == 0 then [f] + m.free else m.free)
  }

  /** Creates the table behind directory entry d of sp unless it exists. */
  function EnsureTable(m: Mem, sp: Space, d: nat): Mem {
    if Table(sp, d) in m.own || m.free == [] then m else Use(Alloc(m), Table(sp, d), m.free[0])
  }

  /** unmap_frame. */
  function Unmapped(m: Mem, e: nat, v: Vpn): Mem {
    if (Ram(e), v) in m.leaf then Release(m, Page(e, v)).(leaf := m.leaf - {(Ram(e), v)}) else m
  }

  /** The step common to map_frame and loadtime_map_frame: count the frame and write its entry. */
  function Enter(m: Mem, e: nat, v: Vpn, f: Frame): Mem {
    m.(refs := SetRef(m, f, Ref(m, f) + 1), own := m.own[Page(e, v) := f],
       leaf := m.leaf[(Ram(e), v) := Construct(f)], limbo := m.limbo - {f})
  }

  predicate CanHaveTable(m: Mem, sp: Space, d: nat) {
    Table(sp, d) in m.own || m.free != []
  }

  /** A frame that may be mapped: just allocated, or already mapped somewhere. */
  ghost predicate Mappable(m: Mem, f: Frame) {
    f < |m.refs| && (f in m.limbo || exists e, v :: Page(e, v) in m.own && m.own[Page(e, v)] == f)
  }

  /** The entry of a page, 0 if there is none. */
  function Entry(m: Mem, sp: Space, v: Vpn): Word {
    if (sp, v) in m.leaf then m.leaf[(sp, v)] else ZERO
  }

  /** map_frame, with PERM_WRITEABLE | PERM_USER. */
  function Mapped(m: Mem, e: nat, v: Vpn, f: Frame): Mem {
    var m1 := EnsureTable(m, Ram(e), v.d);
    var w := Entry(m1, Ram(e), v);
    if w.present && w.frame == f then m1
    else Enter(if w.present then Unmapped(m1, e, v) else m1, e, v, f)
  }

  /** pt_set_page_permissions. */
  function SetPerms(m: Mem, e: nat, v: Vpn, s: Mask, c: Mask): Mem {
    if (Ram(e), v) in m.leaf then
      m.(leaf := m.leaf[(Ram(e), v) := Update(m.leaf[(Ram(e), v)], s, c)])
    else m
  }

  // ---------- each operation keeps the invariant ----------

  lemma AllocOk(m: Mem)
    requires MemOk(m) && m.free != []
    ensures MemOk(Alloc(m)) && m.free[0] !in m.own.Values && m.free[0] in Alloc(m).limbo
  {
    var f := m.free[0];
    assert f in m.free;
    CountZero(m.own, f);
    var m' := Alloc(m);
    forall g | g in m'.free ensures g in m.free && g != f {
      var i :| 0 <= i < |m'.free| && m'.free[i] == g;
      assert m.free[i + 1] == g;
    }
    forall g | 0 <= g < |m.refs| && g in m.free ensures g == f || g in m'.free {
      var i :| 0 <= i < |m.free| && m.free[i] == g;
      if i > 0 { assert m'.free[i - 1] == g; }
    }
  }

  lemma UseOk(m: Mem, o: Owner, f: Frame)
    requires MemOk(m) && o !in m.own && f in m.limbo
    requires o.Dir? || (o.Table? && Dir(o.sp) in m.own && o.d < USER_PDX)
    ensures MemOk(Use(m, o, f))
  {
    CountZero(m.own, f);
    forall g ensures Count(m.own[o := f], g) == Count(m.own, g) + if g == f then 1 else 0 {
      CountAdd(m.own, o, f, g);
    }
  }

  lemma EnsureTableOk(m: Mem, sp: Space, d: nat)
    requires MemOk(m) && Dir(sp) in m.own && d < USER_PDX && CanHaveTable(m, sp, d)
    ensures var m' := EnsureTable(m, sp, d);
            && MemOk(m') && m'.leaf == m.leaf && Table(sp, d) in m'.own
            && m'.own - {Table(sp, d)} == m.own - {Table(sp, d)}
  {
    if Table(sp, d) !in m.own {
      assert m.free[0] in m.free;
      AllocOk(m);
      UseOk(Alloc(m), Table(sp, d), m.free[0]);
    }
  }

  lemma ReleaseOk(m: Mem, o: Owner)
    requires RefsExact(m) && Partition(m) && Exclusive(m.own) && o in m.own
    ensures InUse(m, o)
    ensures RefsExact(Release(m, o)) && Partition(Release(m, o)) && Exclusive(Release(m, o).own)
  {
    var f := m.own[o];
    CountZero(m.own, f);
    var m' := Release(m, o);
    forall g ensures Count(m.own, g) == Count(m'.own, g) + if g == f then 1 else 0 {
      CountRemove(m.own, o, g);
    }
    assert f !in m.free && f !in m.limbo;
    if m'.refs[f] == 0 {
      assert m'.free == [f] + m.free;
      forall g | g in m'.free ensures g == f || g in m.free {
      }
      assert m'.free[0] == f;
      forall g | g in m.free ensures g in m'.free {
        var i :| 0 <= i < |m.free| && m.free[i] == g;
        assert m'.free[i + 1] == g;
      }
    }
  }

  lemma UnmapOk(m: Mem, e: nat, v: Vpn)
    requires MemOk(m)
    ensures MemOk(Unmapped(m, e, v)) && (Ram(e), v) !in Unmapped(m, e, v).leaf
  {
    if (Ram(e), v) in m.leaf {
      ReleaseOk(m, Page(e, v));
    }
  }

  lemma SetPermsOk(m: Mem, e: nat, v: Vpn, s: Mask, c: Mask)
    requires MemOk(m)
    ensures MemOk(SetPerms(m, e, v, s, c))
  {
    if (Ram(e), v) in m.leaf {
      assert Page(e, v) in m.own && Boot(0) in m.own;
      assert forall o :: o in m.own && m.own[Boot(0)] == m.own[o] ==> Boot(0) == o;
    }
  }

  lemma EnterOk(m: Mem, e: nat, v: Vpn, f: Frame)
    requires MemOk(m) && UserPage(v) && Table(Ram(e), v.d) in m.own && Mappable(m, f) && (Ram(e), v) !in m.leaf
    ensures MemOk(Enter(m, e, v, f))
  {
    NotTable(m, f);
    assert Page(e, v) !in m.own;
    EnterCounts(m, e, v, f);
    EnterParts(m, e, v, f);
    hide RefsExact, Mappable, Partition, Exclusive, KeysOk, Enter;
  }

  /** Writing an entry over one that is not 0 keeps everything but the counts: the frame of the old entry keeps
      a reference that nothing stands for. */
  lemma EnterIff(m: Mem, e: nat, v: Vpn, f: Frame)
    requires MemOk(m) && UserPage(v) && Table(Ram(e), v.d) in m.own && Mappable(m, f)
    ensures var m' := Enter(m, e, v, f);
            && Partition(m') && Exclusive(m'.own) && KeysOk(m') && (MemOk(m') <==> (Ram(e), v) !in m.leaf)
  {
    hide Partition, Exclusive, KeysOk, RefsExact, Mappable, Enter;
    if (Ram(e), v) !in m.leaf {
      EnterOk(m, e, v, f);
    } else {
      NotTable(m, f);
      EnterCountsOver(m, e, v, f);
      EnterParts(m, e, v, f);
    }
  }

  lemma EnterParts(m: Mem, e: nat, v: Vpn, f: Frame)
    requires MemOk(m) && UserPage(v) && Table(Ram(e), v.d) in m.own
    requires f < |m.refs| && f !in m.free && forall o :: o in m.own && m.own[o] == f ==> o.Page?
    ensures var m' := Enter(m, e, v, f); Partition(m') && Exclusive(m'.own) && KeysOk(m')
  {
    hide RefsExact, Partition, Exclusive, KeysOk, Enter;
    EnterPartition(m, e, v, f);
    EnterExclusive(m, e, v, f);
    EnterKeys(m, e, v, f);
  }

  lemma EnterPartition(m: Mem, e: nat, v: Vpn, f: Frame)
    requires Partition(m) && f < |m.refs| && f !in m.free
    ensures Partition(Enter(m, e, v, f))
  {
    hide Construct;
  }

  lemma EnterExclusive(m: Mem, e: nat, v: Vpn, f: Frame)
    requires Exclusive(m.own) && forall o :: o in m.own && m.own[o] == f ==> o.Page?
    ensures Exclusive(Enter(m, e, v, f).own)
  {
    hide Construct, SetRef, Ref;
  }

  lemma EnterKeys(m: Mem, e: nat, v: Vpn, f: Frame)
    requires KeysOk(m) && UserPage(v) && Table(Ram(e), v.d) in m.own
    ensures KeysOk(Enter(m, e, v, f))
  {
    hide SetRef, Ref;
  }

  lemma EnterCountsOver(m: Mem, e: nat, v: Vpn, f: Frame)
    requires MemOk(m) && f < |m.refs| && (Ram(e), v) in m.leaf
    ensures !RefsExact(Enter(m, e, v, f))
  {
    var o, g, m' := Page(e, v), m.own[Page(e, v)], Enter(m, e, v, f);
    CountRemove(m.own, o, f);
    CountRemove(m.own, o, g);
    assert m'.own == (m.own - {o})[o := f];
    CountAdd(m.own - {o}, o, f, f);
    CountAdd(m.own - {o}, o, f, g);
  }

  /** A frame that may be mapped is not free, and no directory, table or boot frame. */
  lemma NotTable(m: Mem, f: Frame)
    requires MemOk(m) && Mappable(m, f)
    ensures f < |m.refs| && f !in m.free && forall o :: o in m.own && m.own[o] == f ==> o.Page?
  {
    CountZero(m.own, f);
    if f !in m.limbo {
      var e, v :| Page(e, v) in m.own && m.own[Page(e, v)] == f;
      assert m.refs[f] > 0;
    }
  }

  lemma EnterCounts(m: Mem, e: nat, v: Vpn, f: Frame)
    requires RefsExact(m) && f < |m.refs| && Page(e, v) !in m.own
    ensures RefsExact(Enter(m, e, v, f))
  {
    forall g ensures Count(m.own[Page(e, v) := f], g) == Count(m.own, g) + if g == f then 1 else 0 {
      CountAdd(m.own, Page(e, v), f, g);
    }
  }

  /** map_frame keeps everything, provided the target entry is 0 or PRESENT. */
  lemma MapFrameOk(m: Mem, e: nat, v: Vpn, f: Frame)
    requires MemOk(m) && UserPage(v) && Dir(Ram(e)) in m.own && CanHaveTable(m, Ram(e), v.d) && Mappable(m, f)
    requires Entry(m, Ram(e), v) == ZERO || Entry(m, Ram(e), v).present
    ensures MemOk(Mapped(m, e, v, f))
  {
    EnsureTableOk(m, Ram(e), v.d);
    var m1 := EnsureTable(m, Ram(e), v.d);
    MappableKept(m, Ram(e), v.d, f);
    var w := Entry(m1, Ram(e), v);
    if w.present && w.frame != f {
      UnmapOk(m1, e, v);
      MappableUnmapped(m1, e, v, f);
      EnterOk(Unmapped(m1, e, v), e, v, f);
    } else if !w.present {
      EnterOk(m1, e, v, f);
    }
  }

  lemma MappableKept(m: Mem, sp: Space, d: nat, f: Frame)
    requires MemOk(m) && Dir(sp) in m.own && d < USER_PDX && CanHaveTable(m, sp, d) && Mappable(m, f)
    ensures Mappable(EnsureTable(m, sp, d), f)
  {
    EnsureTableOk(m, sp, d);
    var m' := EnsureTable(m, sp, d);
    if f in m.limbo {
      if m != m' { assert m.free[0] in m.free; }
    } else {
      var e, v :| Page(e, v) in m.own && m.own[Page(e, v)] == f;
      assert Page(e, v) in m'.own && m'.own[Page(e, v)] == f;
    }
  }

  lemma MappableUnmapped(m: Mem, e: nat, v: Vpn, f: Frame)
    requires MemOk(m) && Mappable(m, f) && (Ram(e), v) in m.leaf && m.leaf[(Ram(e), v)].frame != f
    ensures Mappable(Unmapped(m, e, v), f)
  {
    var m' := Unmapped(m, e, v);
    if f !in m.limbo {
      var e0, v0 :| Page(e0, v0) in m.own && m.own[Page(e0, v0)] == f;
      assert Page(e0, v0) in m'.own && m'.own[Page(e0, v0)] == f;
    }
  }

  /** A directory, table or boot frame has exactly one reference. */
  lemma SingleUse(m: Mem, o: Owner)
    requires MemOk(m) && o in m.own && !o.Page?
    ensures m.refs[m.own[o]] == 1 && m.own[o] !in m.free
    ensures o != Boot(0) ==> m.own[o] != 0
  {
    var f := m.own[o];
    assert Boot(0) in m.own;
    assert Users(m.own, f) == {o};
  }

  // ---------- freeing the tables of a space ----------

  function LeavesExcept(leaf: map<(Space, Vpn), Word>, sp: Space, d: nat): map<(Space, Vpn), Word> {
    map k | k in leaf && !(k.0 == sp && k.1.d == d) :: leaf[k]
  }

  /** The table behind entry d goes, with the entries in it. */
  function DropTable(m: Mem, sp: Space, d: nat): Mem {
    if Table(sp, d) in m.own then
      Release(m, Table(sp, d)).(leaf := LeavesExcept(m.leaf, sp, d))
    else m
  }

  /** The table behind directory entry d exists and has no entries. */
  predicate EmptyTable(m: Mem, e: nat, d: nat) {
    Table(Ram(e), d) in m.own && forall k :: k in m.leaf ==> !(k.0 == Ram(e) && k.1.d == d)
  }

  /** The tables behind entries 0..n-1 of sp are freed, in order. */
  function DropTables(m: Mem, sp: Space, n: nat): Mem {
    if n == 0 then m else DropTable(DropTables(m, sp, n - 1), sp, n - 1)
  }

  /** ... and then the directory. */
  function DropSpace(m: Mem, sp: Space): Mem {
    Release(DropTables(m, sp, USER_PDX), Dir(sp))
  }

  /** r is m without the tables behind entries below n of sp, and without their entries. */
  ghost predicate LostTables(m: Mem, r: Mem, sp: Space, n: nat) {
    && MemOk(r)
    && (forall o :: o in r.own <==> o in m.own && !(o.Table? && o.sp == sp && o.d < n))
    && (forall o :: o in r.own ==> r.own[o] == m.own[o])
    && (forall k :: k in r.leaf <==> k in m.leaf && !(k.0 == sp && k.1.d < n))
    && (forall k :: k in r.leaf ==> r.leaf[k] == m.leaf[k])
    && |r.refs| == |m.refs| && r.limbo == m.limbo
  }

  /** A page directory may lose its tables only when no page is mapped any more. */
  ghost predicate Droppable(m: Mem, sp: Space) {
    MemOk(m) && Dir(sp) in m.own && (sp.Ram? ==> forall k :: k in m.leaf ==> k.0 != sp)
  }

  lemma DropTableOk(m: Mem, sp: Space, d: nat)
    requires MemOk(m) && Table(sp, d) in m.own
    requires sp.Ram? ==> forall k :: k in m.leaf ==> !(k.0 == sp && k.1.d == d)
    ensures MemOk(DropTable(m, sp, d)) && InUse(m, Table(sp, d))
    ensures DropTable(m, sp, d).own == m.own - {Table(sp, d)}
  {
    SingleUse(m, Table(sp, d));
    ReleaseOk(m, Table(sp, d));
    var m' := DropTable(m, sp, d);
    forall e, v ensures Page(e, v) in m'.own <==> (Ram(e), v) in m'.leaf {
    }
  }

  lemma DropEmptyMem(m: Mem, e: nat, d: nat)
    requires MemOk(m) && EmptyTable(m, e, d)
    ensures var m' := Release(m, Table(Ram(e), d));
            && MemOk(m') && m'.leaf == m.leaf && m'.own == m.own - {Table(Ram(e), d)} && m'.limbo == m.limbo
            && |m'.refs| == |m.refs|
  {
    DropTableOk(m, Ram(e), d);
    assert LeavesExcept(m.leaf, Ram(e), d) == m.leaf;
  }

  lemma {:induction false} DropTablesOk(m: Mem, sp: Space, n: nat)
    requires Droppable(m, sp)
    ensures LostTables(m, DropTables(m, sp, n), sp, n)
  {
    if n == 0 {
      LostNone(m, sp);
    } else {
      DropTablesOk(m, sp, n - 1);
      LoseOne(m, DropTables(m, sp, n - 1), sp, n);
    }
  }

  lemma LostNone(m: Mem, sp: Space)
    requires MemOk(m)
    ensures LostTables(m, m, sp, 0)
  {
  }

  lemma LoseOne(m: Mem, m1: Mem, sp: Space, n: nat)
    requires n > 0 && Droppable(m, sp) && LostTables(m, m1, sp, n - 1)
    ensures LostTables(m, DropTable(m1, sp, n - 1), sp, n)
  {
    if Table(sp, n - 1) in m1.own {
      DropTableOk(m1, sp, n - 1);
      LoseTable(m, m1, sp, n);
    } else {
      LoseNothing(m, m1, sp, n);
    }
  }

  lemma LoseTable(m: Mem, m1: Mem, sp: Space, n: nat)
    requires n > 0 && LostTables(m, m1, sp, n - 1) && InUse(m1, Table(sp, n - 1)) && MemOk(DropTable(m1, sp, n - 1))
    ensures LostTables(m, DropTable(m1, sp, n - 1), sp, n)
  {
    hide MemOk;
    var r := DropTable(m1, sp, n - 1);
    assert r.own == m1.own - {Table(sp, n - 1)};
    assert r.leaf == LeavesExcept(m1.leaf, sp, n - 1);
    hide DropTable, Release, InUse;
    LoseOwners(m.own, m1.own, r.own, sp, n);
  }

  lemma LoseOwners(own: map<Owner, Frame>, own1: map<Owner, Frame>, own2: map<Owner, Frame>, sp: Space, n: nat)
    requires n > 0 && own2 == own1 - {Table(sp, n - 1)}
    requires forall o :: o in own1 <==> o in own && !(o.Table? && o.sp == sp && o.d < n - 1)
    requires forall o :: o in own1 ==> own1[o] == own[o]
    ensures forall o :: o in own2 <==> o in own && !(o.Table? && o.sp == sp && o.d < n)
    ensures forall o :: o in own2 ==> own2[o] == own[o]
  {
    assert forall o: Owner :: o.Table? && o.sp == sp && o.d == n - 1 ==> o == Table(sp, n - 1);
  }

  lemma LoseNothing(m: Mem, m1: Mem, sp: Space, n: nat)
    requires n > 0 && LostTables(m, m1, sp, n - 1) && Table(sp, n - 1) !in m1.own
    ensures LostTables(m, m1, sp, n)
  {
    assert forall k :: k in m1.leaf ==> Table(k.0, k.1.d) in m1.own;
  }

  /** Nothing of the space is left, and nothing else changed hands. */
  lemma DropSpaceOk(m: Mem, sp: Space)
    requires Droppable(m, sp)
    ensures var r := DropSpace(m, sp);
            && MemOk(r)
            && (forall o :: o in r.own <==> o in m.own && !((o.Table? || o.Dir?) && o.sp == sp))
            && (forall o :: o in r.own ==> r.own[o] == m.own[o])
            && (forall k :: k in r.leaf <==> k in m.leaf && k.0 != sp)
            && (forall k :: k in r.leaf ==> r.leaf[k] == m.leaf[k])
            && |r.refs| == |m.refs| && r.limbo == m.limbo
  {
    DropTablesOk(m, sp, USER_PDX);
    var m1 := DropTables(m, sp, USER_PDX);
    SingleUse(m1, Dir(sp));
    ReleaseOk(m1, Dir(sp));
    assert forall k :: k in m.leaf ==> Table(k.0, k.1.d) in m.own && k.1.d < USER_PDX;
    assert forall o :: o in m.own && o.Table? ==> Table(o.sp, o.d) in m.own;
  }

  // ---------- main results ----------

  /** map_frame keeps reference counts exact if and only if the entry it overwrites is 0 or PRESENT:
      a nonzero entry whose PRESENT bit was cleared is overwritten without its frame being released. */
  lemma MapFrameExactIff(m: Mem, e: nat, v: Vpn, f: Frame)
    requires MemOk(m) && UserPage(v) && Dir(Ram(e)) in m.own && CanHaveTable(m, Ram(e), v.d) && Mappable(m, f)
    ensures RefsExact(Mapped(m, e, v, f)) <==>
            (Entry(m, Ram(e), v) == ZERO || Entry(m, Ram(e), v).present)
  {
    EnsureTableOk(m, Ram(e), v.d);
    var m1 := EnsureTable(m, Ram(e), v.d);
    var w := Entry(m, Ram(e), v);
    if w == ZERO || w.present {
      MapFrameOk(m, e, v, f);
    } else {
      var o, g := Page(e, v), w.frame;
      var m' := Mapped(m, e, v, f);
      assert m1.own[o] == g;
      CountRemove(m1.own, o, g);
      assert m'.own == (m1.own - {o})[o := f];
      CountAdd(m1.own - {o}, o, f, g);
    }
  }

  /** A state of five frames that keeps the invariant.  Page (0, 0) of environment 0 has frame 3, with PRESENT
      cleared, and frame 4 has just been allocated. */
  function HiddenPage(): Mem {
    var v := Vpn(0, 0);
    Mem([1, 1, 1, 1, 0], [],
        map[Boot(0) := 0, Dir(Ram(0)) := 1, Table(Ram(0), 0) := 2, Page(0, v) := 3],
        map[(Ram(0), v) := Construct(3).(present := false)], {4})
  }

  /** Mapping frame 4 there leaves frame 3 with a reference that no entry has: it is never freed. */
  lemma MapFrameLeaks()
    ensures var m, v := HiddenPage(), Vpn(0, 0);
            && MemOk(m) && UserPage(v) && Dir(Ram(0)) in m.own && CanHaveTable(m, Ram(0), v.d) && Mappable(m, 4)
            && !RefsExact(Mapped(m, 0, v, 4))
            && Mapped(m, 0, v, 4).refs[3] == 1 && Count(Mapped(m, 0, v, 4).own, 3) == 0
  {
    var m, v := HiddenPage(), Vpn(0, 0);
    HiddenPageOk();
    hide MemOk, RefsExact, Count, Mapped;
    MapFrameExactIff(m, 0, v, 4);
    HiddenPageMapped();
  }

  lemma HiddenPageMapped()
    ensures Mapped(HiddenPage(), 0, Vpn(0, 0), 4).refs[3] == 1
    ensures Count(Mapped(HiddenPage(), 0, Vpn(0, 0), 4).own, 3) == 0
  {
    hide Count;
    CountZero(Mapped(HiddenPage(), 0, Vpn(0, 0), 4).own, 3);
  }

  lemma HiddenPageOk()
    ensures MemOk(HiddenPage()) && Mappable(HiddenPage(), 4)
  {
    HiddenPageCounts();
    HiddenPageParts();
    HiddenPageKeys();
    hide Count, Partition, Exclusive, KeysOk;
  }

  lemma HiddenPageParts()
    ensures Partition(HiddenPage()) && Exclusive(HiddenPage().own)
  {
  }

  lemma HiddenPageKeys()
    ensures KeysOk(HiddenPage())
  {
  }

  lemma HiddenPageCounts()
    ensures forall f :: Count(HiddenPage().own, f) == if f < 4 then 1 else 0
  {
    var m, v := HiddenPage(), Vpn(0, 0);
    var own1: map<Owner, Frame> := map[Boot(0) := 0];
    var own2 := own1[Dir(Ram(0)) := 1];
    var own3 := own2[Table(Ram(0), 0) := 2];
    assert m.own == own3[Page(0, v) := 3];
    forall f ensures Count(m.own, f) == if f < 4 then 1 else 0 {
      CountZero(map[], f);
      CountAdd(map[], Boot(0), 0, f);
      assert map[][Boot(0) := 0] == own1;
      CountAdd(own1, Dir(Ram(0)), 1, f);
      CountAdd(own2, Table(Ram(0), 0), 2, f);
      CountAdd(own3, Page(0, v), 3, f);
    }
  }

  /** map_frame changes exactly one point of the map from pages to entries. */
  lemma MapFramePoint(m: Mem, e: nat, v: Vpn, f: Frame, sp: Space, u: Vpn)
    requires MemOk(m) && UserPage(v) && Dir(Ram(e)) in m.own && CanHaveTable(m, Ram(e), v.d) && Mappable(m, f)
    ensures (sp, u) != (Ram(e), v) ==> Entry(Mapped(m, e, v, f), sp, u) == Entry(m, sp, u)
    ensures var w := Entry(Mapped(m, e, v, f), Ram(e), v); w.present && w.frame == f
  {
    EnsureTableOk(m, Ram(e), v.d);
  }

  /** unmap_frame changes exactly one point of the map from pages to entries. */
  lemma UnmapPoint(m: Mem, e: nat, v: Vpn, sp: Space, u: Vpn)
    requires MemOk(m)
    ensures Entry(Unmapped(m, e, v), sp, u) == if (sp, u) == (Ram(e), v) then ZERO else Entry(m, sp, u)
  {
  }

  /** Mapping a fresh frame at an empty page and unmapping it again gives back the frame and the entries;
      only a table created on the way stays. */
  lemma MapThenUnmap(m: Mem, e: nat, v: Vpn, f: Frame)
    requires MemOk(m) && UserPage(v) && Table(Ram(e), v.d) in m.own && f in m.limbo && Entry(m, Ram(e), v) == ZERO
    requires Dir(Ram(e)) in m.own
    ensures MemOk(Mapped(m, e, v, f))
    ensures Unmapped(Mapped(m, e, v, f), e, v) == m.(free := [f] + m.free, limbo := m.limbo - {f})
  {
    MapFrameOk(m, e, v, f);
    var m1 := Mapped(m, e, v, f);
    var m2 := Unmapped(m1, e, v);
    assert (Ram(e), v) !in m.leaf && Page(e, v) !in m.own;
    assert m2.leaf == m.leaf;
    assert m2.own == m.own;
    assert m2.refs == m.refs;
  }
}

/** Loading an environment (env_create) and freeing it (env_free), kern/user_environment.c. */
module LifeCycle {
  import opened Seqs
  import opened Mmu
  import opened FrameTable
  import opened Machine
  import opened Paging
  import opened FlatMemory
  import Lru
  import WS = WorkingSet

  // ---------- env_free ----------

  /** Steps 1 and 2 of env_free: the pages of the two lists are unmapped in order. */
  function UnmapPages(s: State, e: nat, pages: seq<Vpn>): State
    decreases |pages|
  {
    if pages == [] then s
    else UnmapPages(s.(m := Unmapped(s.m, e, pages[0]), data := s.data - {(e, pages[0])}), e, pages[1..])
  }

  /** pf_free_env on entries 0..t-1 of disk table d: each disk frame goes to the head of the free list. */
  function FreeRow(leaf: map<(Space, Vpn), Word>, e: nat, d: nat, t: nat, dfree: seq<Word>): seq<Word> {
    if t == 0 then dfree
    else
      var r := FreeRow(leaf, e, d, t - 1, dfree);
      var k := (Swap(e), Vpn(d, t - 1));
      if k in leaf then [leaf[k]] + r else r
  }

  /** pf_free_env on disk tables 0..d-1. */
  function FreeRows(leaf: map<(Space, Vpn), Word>, e: nat, d: nat, dfree: seq<Word>): seq<Word> {
    if d == 0 then dfree else FreeRow(leaf, e, d - 1, NPTENTRIES, FreeRows(leaf, e, d - 1, dfree))
  }

  /** env_free. */
  function Destroy(s: State, e: nat): State {
    if e !in s.envs then s
    else
      var s1 := UnmapPages(s, e, WS.Pages(s.envs[e]));
      var m2 := DropSpace(s1.m, Ram(e));
      State(DropSpace(m2, Swap(e)), s1.data, s1.disk, FreeRows(m2.leaf, e, USER_PDX, s1.dfree), s1.envs - {e})
  }

  /** The state inside env_free: some pages of e are already unmapped. */
  ghost predicate Unmapping(s: State, s1: State, e: nat, pages: seq<Vpn>) {
    && Base(s1) && OthersKept(s, s1, e) && s1.envs == s.envs && s1.disk == s.disk && s1.dfree == s.dfree
    && (forall v :: (Ram(e), v) in s1.m.leaf <==> v in pages)
    && (forall v :: (e, v) in s1.data <==> v in pages)
    && (forall k: (Space, Vpn) :: k.0 == Swap(e) ==> (k in s1.m.leaf <==> k in s.m.leaf))
    && (forall k: (Space, Vpn) :: k.0 == Swap(e) && k in s.m.leaf ==> s1.m.leaf[k] == s.m.leaf[k])
    && (forall o: Owner :: !o.Page? ==> (o in s1.m.own <==> o in s.m.own))
  }

  lemma {:induction false} UnmapPagesOk(s: State, s1: State, e: nat, pages: seq<Vpn>)
    requires Unmapping(s, s1, e, pages) && Distinct(pages) && e in s.envs
    ensures Unmapping(s, UnmapPages(s1, e, pages), e, [])
    decreases |pages|
  {
    hide Base, OthersKept, Unmapping;
    if pages != [] {
      UnmapOne(s, s1, e, pages);
      DistinctTail(pages);
      UnmapPagesOk(s, s1.(m := Unmapped(s1.m, e, pages[0]), data := s1.data - {(e, pages[0])}), e, pages[1..]);
    }
  }

  lemma DistinctTail(q: seq<Vpn>)
    requires Distinct(q) && q != []
    ensures Distinct(q[1..]) && forall v :: v in q[1..] <==> v in q && v != q[0]
  {
    var r := q[1..];
    assert forall i :: 0 <= i < |r| ==> r[i] == q[i + 1];
    assert q == [q[0]] + r;
  }

  lemma UnmapOne(s: State, s1: State, e: nat, pages: seq<Vpn>)
    requires Unmapping(s, s1, e, pages) && Distinct(pages) && e in s.envs && pages != []
    ensures var v := pages[0];
            Unmapping(s, s1.(m := Unmapped(s1.m, e, v), data := s1.data - {(e, v)}), e, pages[1..])
  {
    hide Base, OthersKept, Unmapped;
    var v := pages[0];
    assert v in pages;
    UnmapBase(s1, e, v);
    OthersTrans(s, s1, s1.(m := Unmapped(s1.m, e, v), data := s1.data - {(e, v)}), e);
    DistinctTail(pages);
  }

  // The disk frames that come back.

  ghost predicate RowsBefore(v: Vpn, d: nat, t: nat) {
    v.t < NPTENTRIES && (v.d < d || (v.d == d && v.t < t))
  }

  /** r is the free list with the disk frames of all pages of e before (d, t) in front. */
  ghost predicate RowsFreed(leaf: map<(Space, Vpn), Word>, e: nat, d: nat, t: nat, dfree: seq<Word>, r: seq<Word>) {
    && Distinct(r)
    && (forall w :: w in r <==>
          w in dfree || exists v :: RowsBefore(v, d, t) && (Swap(e), v) in leaf && leaf[(Swap(e), v)] == w)
  }

  lemma FreeEntry(leaf: map<(Space, Vpn), Word>, e: nat, d: nat, t: nat, dfree: seq<Word>, r: seq<Word>,
                 disk: map<Word, Block>)
    requires DiskOk(leaf, dfree, disk) && RowsFreed(leaf, e, d, t, dfree, r) && t < NPTENTRIES
    ensures var k := (Swap(e), Vpn(d, t));
            RowsFreed(leaf, e, d, t + 1, dfree, if k in leaf then [leaf[k]] + r else r)
  {
    var u := Vpn(d, t);
    var k := (Swap(e), u);
    RowsNext(d, t, t + 1);
    hide RowsBefore;
    if k in leaf {
      var r' := [leaf[k]] + r;
      assert leaf[k] !in r;
      assert forall w :: w in r' <==> w == leaf[k] || w in r;
      assert RowsBefore(u, d, t + 1);
      FreshDistinct(leaf[k], r);
    }
  }

  lemma RowsNext(d: nat, t: nat, t': nat)
    requires t < NPTENTRIES && t' == t + 1
    ensures forall v: Vpn :: RowsBefore(v, d, t') <==> RowsBefore(v, d, t) || v == Vpn(d, t)
  {
    forall v: Vpn ensures RowsBefore(v, d, t') <==> RowsBefore(v, d, t) || v == Vpn(d, t) {
      assert v == Vpn(v.d, v.t);
    }
  }

  lemma FreshDistinct(w: Word, r: seq<Word>)
    requires Distinct(r) && w !in r
    ensures Distinct([w] + r)
  {
  }

  lemma {:induction false} FreeRowOk(leaf: map<(Space, Vpn), Word>, e: nat, d: nat, t: nat, dfree: seq<Word>,
                                     r: seq<Word>, disk: map<Word, Block>)
    requires DiskOk(leaf, dfree, disk) && RowsFreed(leaf, e, d, 0, dfree, r) && t <= NPTENTRIES
    ensures RowsFreed(leaf, e, d, t, dfree, FreeRow(leaf, e, d, t, r))
  {
    hide DiskOk, RowsFreed;
    if t > 0 {
      FreeRowOk(leaf, e, d, t - 1, dfree, r, disk);
      FreeEntry(leaf, e, d, t - 1, dfree, FreeRow(leaf, e, d, t - 1, r), disk);
    }
  }

  lemma {:induction false} FreeRowsOk(leaf: map<(Space, Vpn), Word>, e: nat, d: nat, dfree: seq<Word>,
                                      disk: map<Word, Block>)
    requires DiskOk(leaf, dfree, disk)
    ensures RowsFreed(leaf, e, d, 0, dfree, FreeRows(leaf, e, d, dfree))
  {
    if d > 0 {
      FreeRowsOk(leaf, e, d - 1, dfree, disk);
      FreeRowOk(leaf, e, d - 1, NPTENTRIES, dfree, FreeRows(leaf, e, d - 1, dfree), disk);
      assert forall v: Vpn :: RowsBefore(v, d, 0) <==> RowsBefore(v, d - 1, NPTENTRIES);
    }
  }

  /** Nothing of e is left. */
  ghost predicate Gone(s: State, e: nat) {
    && e !in s.envs
    && (forall o :: o in s.m.own ==> !OwnedBy(o, e))
    && (forall k: (Space, Vpn) :: k in s.m.leaf ==> k.0.e != e)
    && (forall v :: (e, v) !in s.data)
  }

  /** Both spaces dropped: what is left of the frames and the entries. */
  lemma DropBoth(s1: State, e: nat)
    requires Base(s1) && Dir(Ram(e)) in s1.m.own && Dir(Swap(e)) in s1.m.own
    requires forall v :: (Ram(e), v) !in s1.m.leaf
    ensures var m2 := DropSpace(s1.m, Ram(e)); var m3 := DropSpace(m2, Swap(e));
            && m2.leaf == s1.m.leaf && MemOk(m3) && Injective(m3.own) && m3.limbo == {} && |m3.refs| == |s1.m.refs|
            && (forall o :: o in m3.own <==> o in s1.m.own && !OwnedBy(o, e))
            && (forall o :: o in m3.own ==> m3.own[o] == s1.m.own[o])
            && (forall k: (Space, Vpn) :: k in m3.leaf <==> k in s1.m.leaf && k.0.e != e)
            && (forall k :: k in m3.leaf ==> m3.leaf[k] == s1.m.leaf[k])
  {
    hide MemOk, Injective, DropSpace, DiskOk;
    var m2 := DropSpace(s1.m, Ram(e));
    assert forall k: (Space, Vpn) :: k.0 == Ram(e) ==> k == (Ram(e), k.1);
    DropSpaceOk(s1.m, Ram(e));
    assert m2.leaf == s1.m.leaf;
    DropSpaceOk(m2, Swap(e));
    NoPages(s1.m, e);
    SpacesOf(s1.m.own, e);
    SubInjective(s1.m.own, DropSpace(m2, Swap(e)).own);
  }

  lemma SubInjective(own: map<Owner, Frame>, own': map<Owner, Frame>)
    requires Injective(own) && forall o :: o in own' ==> o in own && own'[o] == own[o]
    ensures Injective(own')
  {
  }

  lemma NoPages(m: Mem, e: nat)
    requires MemOk(m) && forall v :: (Ram(e), v) !in m.leaf
    ensures forall v :: Page(e, v) !in m.own
  {
  }

  lemma SpacesOf(own: map<Owner, Frame>, e: nat)
    requires forall v :: Page(e, v) !in own
    ensures forall o :: o in own && OwnedBy(o, e) ==> (o.Table? || o.Dir?) && (o.sp == Ram(e) || o.sp == Swap(e))
    ensures forall o: Owner :: (o.Table? || o.Dir?) && (o.sp == Ram(e) || o.sp == Swap(e)) ==> OwnedBy(o, e)
  {
    assert forall o: Owner :: o.Page? ==> o == Page(o.e, o.v);
    assert forall sp: Space :: sp == Ram(sp.e) || sp == Swap(sp.e);
  }

  /** The page file after all disk frames of e came back. */
  lemma DiskFreed(leaf: map<(Space, Vpn), Word>, leaf': map<(Space, Vpn), Word>, e: nat, dfree: seq<Word>,
                  disk: map<Word, Block>)
    requires DiskOk(leaf, dfree, disk)
    requires forall k: (Space, Vpn) :: k in leaf' <==> k in leaf && k.0.e != e
    requires forall k :: k in leaf' ==> leaf'[k] == leaf[k]
    requires forall k :: k in leaf ==> k.1.d < USER_PDX && k.1.t < NPTENTRIES
    ensures DiskOk(leaf', FreeRows(leaf, e, USER_PDX, dfree), disk)
    ensures forall w :: w in FreeRows(leaf, e, USER_PDX, dfree) <==>
              w in dfree || exists v :: (Swap(e), v) in leaf && leaf[(Swap(e), v)] == w
  {
    FreeRowsOk(leaf, e, USER_PDX, dfree, disk);
    var r := FreeRows(leaf, e, USER_PDX, dfree);
    assert forall k: (Space, Vpn) :: k.0.Swap? && k.0.e == e ==> k == (Swap(e), k.1);
    assert forall v :: (Swap(e), v) in leaf ==> RowsBefore(v, USER_PDX, 0);
    forall d | d in disk && d !in r ensures d != ZERO && exists k :: k in leaf' && k.0.Swap? && leaf'[k] == d {
      var k :| k in leaf && k.0.Swap? && leaf[k] == d;
      assert leaf'[k] == d;
    }
    forall w | w in r ensures w in disk && forall k :: k in leaf' && k.0.Swap? ==> leaf'[k] != w {
      if w !in dfree {
        var v :| RowsBefore(v, USER_PDX, 0) && (Swap(e), v) in leaf && leaf[(Swap(e), v)] == w;
      }
    }
  }

  /** env_free keeps the invariant, leaves nothing of the environment and touches no other. */
  lemma DestroyInv(s: State, e: nat)
    requires Inv(s) && e in s.envs
    ensures Inv(Destroy(s, e)) && OthersKept(s, Destroy(s, e), e) && Gone(Destroy(s, e), e)
  {
    hide Base, OthersKept, WS.EnvOk, DropSpace, FreeRows;
    assert EnvInv(s, e);
    WS.EnvFacts(s.envs[e]);
    StartUnmapping(s, e);
    UnmapPagesOk(s, s, e, WS.Pages(s.envs[e]));
    DestroyBase(s, UnmapPages(s, e, WS.Pages(s.envs[e])), e);
    var s' := Destroy(s, e);
    forall e1 | e1 in s'.envs ensures EnvInv(s', e1) {
      OtherEnvs(s, s', e, e1);
    }
  }

  lemma StartUnmapping(s: State, e: nat)
    requires Base(s) && EnvInv(s, e)
    ensures Unmapping(s, s, e, WS.Pages(s.envs[e]))
  {
  }

  lemma DestroyBase(s: State, s1: State, e: nat)
    requires Unmapping(s, s1, e, []) && EnvInv(s, e) && s1 == UnmapPages(s, e, WS.Pages(s.envs[e]))
    ensures Base(Destroy(s, e)) && OthersKept(s, Destroy(s, e), e) && Gone(Destroy(s, e), e)
  {
    hide DropSpace, FreeRows, UnmapPages, MemOk, DiskOk, Linked, WS.EnvOk, Injective, OthersKept;
    DropBoth(s1, e);
    var m3 := DropSpace(DropSpace(s1.m, Ram(e)), Swap(e));
    LeafRange(s1.m);
    DiskFreed(s1.m.leaf, m3.leaf, e, s1.dfree, s1.disk);
    DestroyOthers(s, s1, Destroy(s, e), e);
  }

  lemma DestroyOthers(s: State, s1: State, s': State, e: nat)
    requires OthersKept(s, s1, e) && s1.envs == s.envs && s'.envs == s1.envs - {e} && s'.data == s1.data
    requires s'.disk == s1.disk
    requires |s'.m.refs| == |s1.m.refs|
    requires forall o :: o in s'.m.own <==> o in s1.m.own && !OwnedBy(o, e)
    requires forall o :: o in s'.m.own ==> s'.m.own[o] == s1.m.own[o]
    requires forall k: (Space, Vpn) :: k in s'.m.leaf <==> k in s1.m.leaf && k.0.e != e
    requires forall k :: k in s'.m.leaf ==> s'.m.leaf[k] == s1.m.leaf[k]
    ensures OthersKept(s, s', e)
  {
  }

  lemma LeafRange(m: Mem)
    requires MemOk(m)
    ensures forall k :: k in m.leaf ==> k.1.d < USER_PDX && k.1.t < NPTENTRIES
  {
    forall k | k in m.leaf ensures k.1.d < USER_PDX && k.1.t < NPTENTRIES {
      assert Table(k.0, k.1.d) in m.own;
    }
  }

  // ---------- env_create ----------

  /** A program segment as the loader sees it: the pages it may put in memory, the pages it writes to
      the page file, and whether it is the one at 0x200000, of which at most 6 pages are loaded. */
  datatype Segment = Segment(mem: seq<(Vpn, Block)>, file: seq<(Vpn, Block)>, low: bool)

  /** A page put in memory, or a page written to the page file. */
  datatype Step = InMemory(v: Vpn, b: Block) | InFile(v: Vpn, b: Block)

  /** USTACKTOP - PAGE_SIZE. */
  const STACK_PAGE := Vpn(954, 1021)

  /** How many pages of a segment go to memory when the working set has room for that many more. */
  function LoadCount(seg: Segment, remaining: nat): nat {
    var r := if seg.low && remaining > 6 then 6 else remaining;
    if |seg.mem| < r then |seg.mem| else r
  }

  function InMemorySteps(ps: seq<(Vpn, Block)>): seq<Step> {
    seq(|ps|, i requires 0 <= i < |ps| => InMemory(ps[i].0, ps[i].1))
  }

  function InFileSteps(ps: seq<(Vpn, Block)>): seq<Step> {
    seq(|ps|, i requires 0 <= i < |ps| => InFile(ps[i].0, ps[i].1))
  }

  function SegmentSteps(seg: Segment, remaining: nat): seq<Step> {
    InMemorySteps(seg.mem[..LoadCount(seg, remaining)]) + InFileSteps(seg.file)
  }

  /** What loading the segments does, with room for that many pages in the working set. */
  function Steps(segs: seq<Segment>, remaining: nat): seq<Step> {
    if segs == [] then []
    else SegmentSteps(segs[0], remaining) + Steps(segs[1..], remaining - LoadCount(segs[0], remaining))
  }

  /** The working set cannot overflow: loading takes at most that many pages to memory. */
  lemma {:induction false} StepsFit(segs: seq<Segment>, remaining: nat)
    ensures Frames(Steps(segs, remaining)) <= remaining
  {
    if segs != [] {
      var k := LoadCount(segs[0], remaining);
      StepsFit(segs[1..], remaining - k);
      var a, b := InMemorySteps(segs[0].mem[..k]), InFileSteps(segs[0].file);
      FramesConcat(a, b);
      FramesConcat(a + b, Steps(segs[1..], remaining - k));
      FramesBound(a);
      NoFrames(b);
    }
  }

  /** The number of pages put in memory. */
  function Frames(ops: seq<Step>): nat {
    if ops == [] then 0 else Frames(Lru.Front(ops)) + (if Lru.Last(ops).InMemory? then 1 else 0)
  }

  lemma {:induction false} FramesConcat(a: seq<Step>, b: seq<Step>)
    ensures Frames(a + b) == Frames(a) + Frames(b)
  {
    if b == [] {
      assert a + b == a;
    } else {
      assert Lru.Front(a + b) == a + Lru.Front(b) && Lru.Last(a + b) == Lru.Last(b);
      FramesConcat(a, Lru.Front(b));
    }
  }

  lemma {:induction false} FramesBound(a: seq<Step>)
    ensures Frames(a) <= |a|
  {
    if a != [] {
      FramesBound(Lru.Front(a));
    }
  }

  lemma {:induction false} NoFrames(a: seq<Step>)
    requires forall i :: 0 <= i < |a| ==> a[i].InFile?
    ensures Frames(a) == 0
  {
    if a != [] {
      NoFrames(Lru.Front(a));
    }
  }

  /** The pages put in memory, in order. */
  function LoadedOrder(ops: seq<Step>): seq<Vpn> {
    if ops == [] then []
    else LoadedOrder(Lru.Front(ops)) + (if Lru.Last(ops).InMemory? then [Lru.Last(ops).v] else [])
  }

  /** The pages in memory after some steps. */
  function Image(ops: seq<Step>): map<Vpn, Block> {
    if ops == [] then map[]
    else
      var m := Image(Lru.Front(ops));
      if Lru.Last(ops).InMemory? then m[Lru.Last(ops).v := Lru.Last(ops).b] else m
  }

  /** The pages in the page file after some steps. */
  function FileImage(ops: seq<Step>): map<Vpn, Block> {
    if ops == [] then map[]
    else
      var m := FileImage(Lru.Front(ops));
      if Lru.Last(ops).InFile? then m[Lru.Last(ops).v := Lru.Last(ops).b] else m
  }

  function InitEnv(s: State, e: nat, A: nat, S: nat): State {
    var f := FirstFree(s.m);
    s.(m := Use(Alloc(s.m), Dir(Ram(e)), f), envs := s.envs[e := WS.NewEnv(f, A, S)])
  }

  /** One page of program_segment_alloc_map_copy_workingset: allocated, mapped, listed, and written
      through its mapping, which sets its MODIFIED bit. */
  function LoadPage(s: State, e: nat, v: Vpn, b: Block, cap: nat): State {
    if e !in s.envs || s.envs[e].work == [] then s
    else
      var m1 := SetPerms(Mapped(Alloc(s.m), e, v, FirstFree(s.m)), e, v, MODIFIED, NONE);
      s.(m := m1, data := s.data[(e, v) := b], envs := s.envs[e := WS.LoadInsert(s.envs[e], v, cap)])
  }

  /** pf_add_env_page. */
  function PfPut(s: State, e: nat, v: Vpn, b: Block): State {
    PfWrite(PfAdd(s, e, v), e, v, b)
  }

  function LoadStep(s: State, e: nat, op: Step, cap: nat): State {
    if op.InMemory? then LoadPage(s, e, op.v, op.b, cap) else PfPut(s, e, op.v, op.b)
  }

  function LoadAll(s: State, e: nat, ops: seq<Step>, cap: nat): State {
    if ops == [] then s else LoadStep(LoadAll(s, e, Lru.Front(ops), cap), e, Lru.Last(ops), cap)
  }

  function Perms(s: State, e: nat, pages: seq<Vpn>, c: Mask): State {
    if pages == [] then s
    else
      var s1 := Perms(s, e, Lru.Front(pages), c);
      s1.(m := SetPerms(s1.m, e, Lru.Last(pages), NONE, c))
  }

  /** The pages of the elements that have been used so far. */
  function LoadedPages(env: Env): seq<Vpn> {
    if |env.va| < |env.work| then [] else env.va[..|env.va| - |env.work|]
  }

  /** MODIFIED is cleared for every page in the working set. */
  function CleanAll(s: State, e: nat): State {
    if e in s.envs then Perms(s, e, LoadedPages(s.envs[e]), MODIFIED) else s
  }

  /** The stack page: mapped, zeroed, listed and added to the page file, where it gets the contents of
      the kernel's zero page. */
  function AddStack(s: State, e: nat, zeroPage: Block): State {
    if e in s.envs then PfPut(LoadPage(s, e, STACK_PAGE, ZeroBlock(), s.envs[e].A), e, STACK_PAGE, zeroPage) else s
  }

  /** PRESENT is cleared for every page of SecondList. */
  function HideSecond(s: State, e: nat): State {
    if e in s.envs then Perms(s, e, WS.PagesOf(s.envs[e], s.envs[e].second), PRESENT) else s
  }

  /** env_create. */
  function Create(s: State, e: nat, A: nat, S: nat, segs: seq<Segment>, zeroPage: Block): State
    requires A >= 1
  {
    var s1 := CleanAll(LoadAll(InitEnv(s, e, A, S), e, Steps(segs, A + S - 1), A - 1), e);
    HideSecond(AddStack(s1, e, zeroPage), e)
  }
}

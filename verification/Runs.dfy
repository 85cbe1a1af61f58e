/** Whole runs of several environments: what they load, what their lists become, and what they give back. */
module Runs {
  import opened Seqs
  import opened Mmu
  import opened FrameTable
  import opened Machine
  import opened Paging
  import opened FlatMemory
  import opened Freeing
  import opened LifeCycle
  import opened ProgramLoading
  import Lru
  import WS = WorkingSet

  /** One event.  junk is what a frame happens to hold when it is handed out. */
  datatype Op =
    | Read(e: nat, v: Vpn, i: nat, junk: Block)
    | Write(e: nat, v: Vpn, i: nat, w: Word, junk: Block)
    | Grow(e: nat, v: Vpn)                                   // pf_add_empty_env_page
    | Start(e: nat, A: nat, S: nat, segs: seq<Segment>, zeroPage: Block)    // env_create
    | Free(e: nat, p: nat, n: nat, k: nat)                   // freeMem
    | Exit(e: nat)                                           // env_free

  function Apply(s: State, op: Op): State {
    match op
    case Read(e, v, i, junk) => Touch(s, e, v, junk)
    case Write(e, v, i, w, junk) => Store(s, e, v, i, w, junk)
    case Grow(e, v) => PfAdd(s, e, v)
    case Start(e, A, S, segs, zeroPage) => if A >= 1 then Create(s, e, A, S, segs, zeroPage) else s
    case Free(e, p, n, k) => FreeMem(s, e, p, n, k)
    case Exit(e) => Destroy(s, e)
  }

  /** USTACKBOTTOM <= address < USTACKTOP, by page number. */
  predicate StackPage(v: Vpn) {
    0xA00EC <= Number(v) < 0xEEBFE
  }

  /** The stack by address: from USTACKBOTTOM, whose definition multiplies by the 16 bytes of a working-set element in
      32 bits, to USTACKTOP; env_create makes its last page. */
  lemma StackRange(va: nat)
    requires va < 0x1_0000_0000
    ensures StackPage(PageOf(va)) <==> 0xA000_0000 + 16 * 0xEEC0_0000 % 0x1_0000_0000 / 4096 <= va < 0xEEBF_E000
    ensures PageOf(va) == STACK_PAGE <==> 0xEEBF_D000 <= va < 0xEEBF_E000
  {
    hide PageOf, Number;
    PageNumber(va);
    NumberIs(PageOf(va), 954, 1021);
  }

  /** An access that neither fault_handler nor Placement refuses: below USTACKTOP, and in the page
      file or on the stack. */
  predicate Legal(s: State, e: nat, v: Vpn) {
    UserPage(v) && Number(v) < 0xEEBFE && ((Swap(e), v) in s.m.leaf || StackPage(v))
  }

  /** The event meets no panic: the page is legal, and frames and disk frames do not run out. */
  ghost predicate Allowed(s: State, op: Op) {
    match op
    case Read(e, v, i, junk) =>
      e in s.envs && Legal(s, e, v) && i < NPTENTRIES && |junk| == NPTENTRIES && RoomToTouch(s, e, v)
    case Write(e, v, i, w, junk) =>
      e in s.envs && Legal(s, e, v) && i < NPTENTRIES && |junk| == NPTENTRIES && RoomToTouch(s, e, v)
    case Grow(e, v) =>
      e in s.envs && UserPage(v) && CanHaveTable(s.m, Swap(e), v.d)
    case Start(e, A, S, segs, zeroPage) =>
      && e !in s.envs && A >= 1 && |zeroPage| == NPTENTRIES
      && ProgramOk(Steps(segs, A + S - 1)) && Covered(Steps(segs, A + S - 1))
      && RoomToCreate(s, e, A, S, Steps(segs, A + S - 1))
    case Free(e, p, n, k) => e in s.envs
    case Exit(e) => e in s.envs
  }

  /** The same event on the flat memory. */
  ghost function FlatApply(flat: Flat, op: Op): Flat {
    match op
    case Read(e, v, i, junk) => flat
    case Write(e, v, i, w, junk) => flat[(e, v, i) := w]
    case Grow(e, v) => flat
    case Start(e, A, S, segs, zeroPage) =>
      if A >= 1 then WithoutEnv(flat, e) + ProgramMemory(e, Steps(segs, A + S - 1)) else flat
    case Free(e, p, n, k) => WithoutPages(flat, e, p, n)
    case Exit(e) => WithoutEnv(flat, e)
  }

  function RunAll(s: State, ops: seq<Op>): State {
    if ops == [] then s else Apply(RunAll(s, Lru.Front(ops)), Lru.Last(ops))
  }

  ghost predicate AllAllowed(s: State, ops: seq<Op>) {
    ops != [] ==> AllAllowed(s, Lru.Front(ops)) && Allowed(RunAll(s, Lru.Front(ops)), Lru.Last(ops))
  }

  ghost function FlatRun(flat: Flat, ops: seq<Op>): Flat {
    if ops == [] then flat else FlatApply(FlatRun(flat, Lru.Front(ops)), Lru.Last(ops))
  }

  // ---------- one event ----------

  lemma AccessInv(s: State, op: Op, flat: Flat)
    requires Inv(s) && Allowed(s, op) && Agrees(s, flat) && (op.Read? || op.Write?)
    ensures Inv(Apply(s, op)) && OthersKept(s, Apply(s, op), op.e) && Agrees(Apply(s, op), FlatApply(flat, op))
  {
    hide Inv, OthersKept, Agrees, RoomToTouch, Touch, Store, Touched;
    if op.Read? {
      TouchInv(s, op.e, op.v, op.junk);
      TouchedOthers(s, Touch(s, op.e, op.v, op.junk), op.e, op.v);
      TouchAgrees(s, op.e, op.v, op.junk, flat);
    } else {
      StoreInv(s, op.e, op.v, op.i, op.w, op.junk, flat);
    }
  }

  lemma TouchedOthers(s: State, s': State, e: nat, v: Vpn)
    requires Touched(s, s', e, v)
    ensures OthersKept(s, s', e)
  {
  }

  lemma ExitAgrees(s: State, e: nat, flat: Flat)
    requires Inv(s) && e in s.envs && Agrees(s, flat)
    ensures Agrees(Destroy(s, e), WithoutEnv(flat, e))
  {
    hide Inv, Destroy, OthersKept, Gone;
    DestroyInv(s, e);
    DestroyDisk(s, e);
    var s' := Destroy(s, e);
    forall k | k in WithoutEnv(flat, e) ensures WordAgrees(s', k.0, k.1, k.2, flat[k]) {
      SameDisk(s, s', e);
      OldWord(s, s', e, k.0, k.1, k.2, flat[k]);
    }
  }

  lemma SameDisk(s: State, s': State, e: nat)
    requires OthersKept(s, s', e) && s'.disk == s.disk
    ensures DiskKept(s, s', e)
  {
    assert forall k: (Space, Vpn) :: k.0.e != e && k in s.m.leaf ==> k in s'.m.leaf && s'.m.leaf[k] == s.m.leaf[k];
  }

  lemma DestroyDisk(s: State, e: nat)
    ensures Destroy(s, e).disk == s.disk
  {
    if e in s.envs {
      UnmapDisk(s, e, WS.Pages(s.envs[e]));
    }
  }

  lemma {:induction false} UnmapDisk(s: State, e: nat, pages: seq<Vpn>)
    ensures UnmapPages(s, e, pages).disk == s.disk
    decreases |pages|
  {
    if pages != [] {
      UnmapDisk(s.(m := Unmapped(s.m, e, pages[0]), data := s.data - {(e, pages[0])}), e, pages[1..]);
    }
  }

  lemma FreeAgrees(s: State, e: nat, p: nat, n: nat, k: nat, flat: Flat)
    requires Inv(s) && e in s.envs && Agrees(s, flat)
    ensures var s' := FreeMem(s, e, p, n, k);
            Inv(s') && OthersKept(s, s', e) && Agrees(s', WithoutPages(flat, e, p, n))
  {
    hide Inv, Agrees, OthersKept, FreeMem, WithoutPages, RangeFreed;
    FreeMemInv(s, e, p, n, k, flat);
    RangeEnv(s, FreeMem(s, e, p, n, k), e, p, n);
  }

  /** Every event keeps the invariant, touches its own environment only, and agrees with the flat memory. */
  lemma StepOk(s: State, op: Op, flat: Flat)
    requires Inv(s) && Allowed(s, op) && Agrees(s, flat)
    ensures Inv(Apply(s, op)) && OthersKept(s, Apply(s, op), op.e) && Agrees(Apply(s, op), FlatApply(flat, op))
  {
    hide Inv, OthersKept, Agrees, Destroy, Create, PfAdd, Gone, RoomToCreate, ProgramOk, Covered, NewWorkingSet,
         WithoutEnv, ProgramMemory, FreeMem, WithoutPages;
    match op
    case Read(e, v, i, junk) => AccessInv(s, op, flat);
    case Write(e, v, i, w, junk) => AccessInv(s, op, flat);
    case Grow(e, v) => AddInv(s, e, v, flat);
    case Start(e, A, S, segs, zeroPage) => CreateInv(s, e, A, S, segs, zeroPage, flat);
    case Free(e, p, n, k) => FreeAgrees(s, e, p, n, k, flat);
    case Exit(e) =>
      DestroyInv(s, e);
      ExitAgrees(s, e, flat);
  }

  // ---------- safety and refinement over runs ----------

  /** After any run of any environments the invariant holds and memory is the flat memory. */
  lemma {:induction false} RunInv(s: State, ops: seq<Op>, flat: Flat)
    requires Inv(s) && AllAllowed(s, ops) && Agrees(s, flat)
    ensures Inv(RunAll(s, ops)) && Agrees(RunAll(s, ops), FlatRun(flat, ops))
  {
    if ops != [] {
      hide Inv, Agrees, Apply, FlatApply, Allowed;
      RunInv(s, Lru.Front(ops), flat);
      StepOk(RunAll(s, Lru.Front(ops)), Lru.Last(ops), FlatRun(flat, Lru.Front(ops)));
    }
  }

  /** What a read returns at the end of a run is the last value written there, by whatever way the
      page went in between. */
  lemma LoadsAreFlat(s: State, ops: seq<Op>, flat: Flat, e: nat, v: Vpn, i: nat, junk: Block)
    requires Inv(s) && AllAllowed(s, ops) && Agrees(s, flat) && Allowed(RunAll(s, ops), Read(e, v, i, junk))
    ensures (e, v, i) in FlatRun(flat, ops) ==>
              Load(RunAll(s, ops), e, v, i, junk) == FlatRun(flat, ops)[(e, v, i)]
  {
    hide Inv, Agrees, RoomToTouch;
    RunInv(s, ops, flat);
    LoadFlat(RunAll(s, ops), e, v, i, junk, FlatRun(flat, ops));
  }

  // ---------- returning everything ----------

  /** Nothing changed except for the environments in E. */
  ghost predicate KeptOutside(s: State, s': State, E: set<nat>) {
    && (forall e :: e !in E ==> (e in s.envs <==> e in s'.envs) && (e in s.envs ==> s'.envs[e] == s.envs[e]))
    && (forall k: (Space, Vpn) :: k.0.e !in E ==>
          (k in s.m.leaf <==> k in s'.m.leaf) && (k in s.m.leaf ==> s'.m.leaf[k] == s.m.leaf[k]))
    && (forall k: (nat, Vpn) :: k.0 !in E ==>
          (k in s.data <==> k in s'.data) && (k in s.data ==> s'.data[k] == s.data[k]))
    && (forall o: Owner :: o.Boot? || OwnerEnv(o) !in E ==>
          (o in s.m.own <==> o in s'.m.own) && (o in s.m.own ==> s'.m.own[o] == s.m.own[o]))
    && |s'.m.refs| == |s.m.refs| && s'.disk.Keys == s.disk.Keys
  }

  lemma KeptRefl(s: State, E: set<nat>)
    ensures KeptOutside(s, s, E)
  {
  }

  lemma KeptStep(s: State, s1: State, s2: State, e: nat, E: set<nat>)
    requires KeptOutside(s, s1, E) && OthersKept(s1, s2, e) && e in E
    ensures KeptOutside(s, s2, E)
  {
    forall k: (nat, Vpn) | k.0 !in E
      ensures (k in s.data <==> k in s2.data) && (k in s.data ==> s2.data[k] == s.data[k])
    {
      assert k == (k.0, k.1);
    }
    forall o: Owner | o.Boot? || OwnerEnv(o) !in E
      ensures (o in s.m.own <==> o in s2.m.own) && (o in s.m.own ==> s2.m.own[o] == s.m.own[o])
    {
      assert !OwnedBy(o, e);
    }
  }

  lemma {:induction false} RunKept(s: State, ops: seq<Op>, E: set<nat>, flat: Flat)
    requires Inv(s) && AllAllowed(s, ops) && Agrees(s, flat) && forall i :: 0 <= i < |ops| ==> ops[i].e in E
    ensures KeptOutside(s, RunAll(s, ops), E)
  {
    hide Inv, Agrees, Apply, FlatApply, Allowed, KeptOutside;
    if ops == [] {
      KeptRefl(s, E);
    } else {
      RunKept(s, Lru.Front(ops), E, flat);
      RunInv(s, Lru.Front(ops), flat);
      StepOk(RunAll(s, Lru.Front(ops)), Lru.Last(ops), FlatRun(flat, Lru.Front(ops)));
      KeptStep(s, RunAll(s, Lru.Front(ops)), RunAll(s, ops), Lru.Last(ops).e, E);
    }
  }

  /** The free frames are the frames nobody uses; the free disk frames are the ones no table entry names. */
  lemma FreeFrames(s: State)
    requires Base(s)
    ensures forall f: Frame :: f in s.m.free <==> f < |s.m.refs| && f !in s.m.own.Values
    ensures forall d :: d in s.dfree <==> d in s.disk && forall k :: k in s.m.leaf && k.0.Swap? ==> s.m.leaf[k] != d
  {
    hide DiskOk;
    FreeRam(s.m);
    FreeDisk(s.m.leaf, s.dfree, s.disk);
  }

  lemma FreeRam(m: Mem)
    requires MemOk(m) && m.limbo == {}
    ensures forall f: Frame :: f in m.free <==> f < |m.refs| && f !in m.own.Values
  {
    forall f: nat ensures f in m.free <==> f < |m.refs| && f !in m.own.Values {
      CountZero(m.own, f);
      if f in m.own.Values {
        var o :| o in m.own && m.own[o] == f;
        assert m.refs[f] > 0;
      } else {
        assert forall o :: o in m.own ==> m.own[o] in m.own.Values;
      }
    }
  }

  lemma FreeDisk(leaf: map<(Space, Vpn), Word>, dfree: seq<Word>, disk: map<Word, Block>)
    requires DiskOk(leaf, dfree, disk)
    ensures forall d :: d in dfree <==> d in disk && forall k :: k in leaf && k.0.Swap? ==> leaf[k] != d
  {
  }

  /** Whatever a group of environments did from their creation to their exit, interleaved in any way,
      exactly the same RAM frames and disk frames are free again, and nobody else noticed. */
  lemma ReturnAll(s: State, ops: seq<Op>, E: set<nat>, flat: Flat)
    requires Inv(s) && AllAllowed(s, ops) && Agrees(s, flat) && forall i :: 0 <= i < |ops| ==> ops[i].e in E
    requires forall e :: e in E ==> e !in s.envs && e !in RunAll(s, ops).envs
    ensures var s' := RunAll(s, ops);
            && Inv(s') && (forall f :: f in s'.m.free <==> f in s.m.free)
            && (forall d :: d in s'.dfree <==> d in s.dfree)
            && Distinct(s'.m.free) && Distinct(s'.dfree)
            && s'.m.refs == s.m.refs && s'.m.own == s.m.own && s'.m.leaf == s.m.leaf
            && s'.data == s.data && s'.envs == s.envs
  {
    hide KeptOutside, MemOk, Linked, WS.EnvOk, RunAll, Agrees, AllAllowed;
    RunKept(s, ops, E, flat);
    RunInv(s, ops, flat);
    SameUses(s, RunAll(s, ops), E);
  }

  lemma SameUses(s: State, s': State, E: set<nat>)
    requires Base(s) && Base(s') && KeptOutside(s, s', E) && forall e :: e in E ==> e !in s.envs && e !in s'.envs
    ensures (forall f :: f in s'.m.free <==> f in s.m.free) && (forall d :: d in s'.dfree <==> d in s.dfree)
    ensures s'.m.refs == s.m.refs && s'.m.own == s.m.own && s'.m.leaf == s.m.leaf
    ensures s'.data == s.data && s'.envs == s.envs
    ensures Distinct(s'.m.free) && Distinct(s'.dfree)
  {
    hide MemOk, DiskOk;
    SameOwn(s, s', E);
    SameLeaf(s, s', E);
    SameLists(s, s', E);
    FreeFrames(s);
    FreeFrames(s');
    SameRefs(s.m, s'.m);
    FreeDistinct(s'.m.leaf, s'.dfree, s'.disk);
  }

  lemma FreeDistinct(leaf: map<(Space, Vpn), Word>, dfree: seq<Word>, disk: map<Word, Block>)
    requires DiskOk(leaf, dfree, disk)
    ensures Distinct(dfree)
  {
  }

  lemma SameRefs(m: Mem, m': Mem)
    requires MemOk(m) && MemOk(m') && m'.own == m.own && |m'.refs| == |m.refs|
    ensures m'.refs == m.refs && Distinct(m'.free)
  {
  }

  lemma SameOwn(s: State, s': State, E: set<nat>)
    requires Base(s) && Base(s') && KeptOutside(s, s', E) && forall e :: e in E ==> e !in s.envs && e !in s'.envs
    ensures s'.m.own == s.m.own
  {
    hide MemOk, DiskOk;
    forall o: Owner | !(o.Boot? || OwnerEnv(o) !in E) ensures o !in s.m.own && o !in s'.m.own {
    }
  }

  lemma SameLeaf(s: State, s': State, E: set<nat>)
    requires Base(s) && Base(s') && KeptOutside(s, s', E) && forall e :: e in E ==> e !in s.envs && e !in s'.envs
    ensures s'.m.leaf == s.m.leaf
  {
    hide DiskOk;
    forall k: (Space, Vpn) | k.0.e in E ensures k !in s.m.leaf && k !in s'.m.leaf {
      NothingOf(s, k.0.e);
      NothingOf(s', k.0.e);
    }
  }

  lemma SameLists(s: State, s': State, E: set<nat>)
    requires Base(s) && Base(s') && KeptOutside(s, s', E) && forall e :: e in E ==> e !in s.envs && e !in s'.envs
    ensures s'.data == s.data && s'.envs == s.envs
  {
    hide MemOk, DiskOk;
    forall e: nat ensures (e in s.envs <==> e in s'.envs) && (e in s.envs ==> s'.envs[e] == s.envs[e]) {
      if e in E {
        assert e !in s.envs && e !in s'.envs;
      }
    }
  }

  // ---------- the lists over a run ----------

  /** The pages environment e refers to. */
  function References(ops: seq<Op>, e: nat): seq<Vpn> {
    if ops == [] then []
    else
      var op := Lru.Last(ops);
      References(Lru.Front(ops), e) + (if (op.Read? || op.Write?) && op.e == e then [op.v] else [])
  }

  /** The events neither end the environment nor free pages of it. */
  ghost predicate Stays(ops: seq<Op>, e: nat) {
    forall i :: 0 <= i < |ops| ==> !((ops[i].Exit? || ops[i].Free?) && ops[i].e == e)
  }

  /** Between its creation and its exit, the lists of an environment depend on its own references
      only, and are what Lru.Run makes of them for the sizes in effect. */
  lemma {:induction false} RunLists(s: State, ops: seq<Op>, e: nat, flat: Flat)
    requires Inv(s) && AllAllowed(s, ops) && Agrees(s, flat) && e in s.envs
    requires Stays(ops, e)
    ensures Lru.Ok(WS.ListsOf(s.envs[e]), WS.EffA(s.envs[e]), WS.EffS(s.envs[e]))
    ensures var s', env := RunAll(s, ops), s.envs[e];
            && e in s'.envs && s'.envs[e].A == env.A && s'.envs[e].S == env.S
            && WS.Capacity(s'.envs[e]) == WS.Capacity(env)
            && WS.ListsOf(s'.envs[e]) == Lru.Run(WS.ListsOf(env), WS.EffA(env), WS.EffS(env), References(ops, e))
  {
    hide Inv, Agrees, Apply, Allowed, FlatApply, WS.ListsOf, Lru.Ok;
    EnvOfInv(s, e);
    if ops != [] {
      var op, s1 := Lru.Last(ops), RunAll(s, Lru.Front(ops));
      RunLists(s, Lru.Front(ops), e, flat);
      RunInv(s, Lru.Front(ops), flat);
      assert ops[|ops| - 1] == op;
      ListsStep(s1, op, e, FlatRun(flat, Lru.Front(ops)));
      if (op.Read? || op.Write?) && op.e == e {
        assert References(ops, e) == References(Lru.Front(ops), e) + [op.v];
        RunPush(WS.ListsOf(s.envs[e]), WS.EffA(s.envs[e]), WS.EffS(s.envs[e]), References(Lru.Front(ops), e), op.v);
      } else {
        assert References(ops, e) == References(Lru.Front(ops), e);
      }
    }
  }

  lemma EnvOfInv(s: State, e: nat)
    requires Inv(s) && e in s.envs
    ensures Lru.Ok(WS.ListsOf(s.envs[e]), WS.EffA(s.envs[e]), WS.EffS(s.envs[e]))
  {
    assert EnvInv(s, e);
    WS.EffOk(s.envs[e]);
  }

  lemma RunPush(l: Lru.Lists<Vpn>, A: nat, S: nat, refs: seq<Vpn>, v: Vpn)
    requires Lru.Ok(l, A, S)
    ensures Lru.Run(l, A, S, refs + [v]) == Lru.Access(Lru.Run(l, A, S, refs), A, S, v)
  {
    assert Lru.Front(refs + [v]) == refs;
  }

  lemma ListsStep(s: State, op: Op, e: nat, flat: Flat)
    requires Inv(s) && Allowed(s, op) && Agrees(s, flat) && e in s.envs && !((op.Exit? || op.Free?) && op.e == e)
    ensures Lru.Ok(WS.ListsOf(s.envs[e]), WS.EffA(s.envs[e]), WS.EffS(s.envs[e]))
    ensures var s', l := Apply(s, op), WS.ListsOf(s.envs[e]);
            && e in s'.envs && s'.envs[e].A == s.envs[e].A && s'.envs[e].S == s.envs[e].S
            && WS.Capacity(s'.envs[e]) == WS.Capacity(s.envs[e])
            && WS.ListsOf(s'.envs[e]) ==
                 if (op.Read? || op.Write?) && op.e == e
                 then Lru.Access(l, WS.EffA(s.envs[e]), WS.EffS(s.envs[e]), op.v) else l
  {
    hide Inv, Agrees, FlatApply, RoomToTouch, Touch, PfAdd, Create, Destroy, WS.ListsOf, Lru.Ok;
    EnvOfInv(s, e);
    StepOk(s, op, flat);
    if op.e == e {
      if op.Read? || op.Write? {
        TouchInv(s, e, op.v, op.junk);
        if op.Write? {
          StoreInv(s, e, op.v, op.i, op.w, op.junk, flat);
        }
      } else {
        AddInv(s, e, op.v, flat);
      }
    }
  }

  /** env' is what env, with lists l and c elements, has become after these references: its lists are those of an
      environment of that size, and when no element is free it has a victim exactly if c is large enough. */
  ghost predicate GoesOn(l: Lru.Lists<Vpn>, c: int, env: Env, refs: seq<Vpn>, env': Env) {
    && c >= 0 && Lru.Ok(l, WS.ActiveRoom(c, env.A), WS.SecondRoom(c, env.A))
    && WS.ListsOf(env') == Lru.Run(l, WS.ActiveRoom(c, env.A), WS.SecondRoom(c, env.A), refs)
    && (env'.work == [] ==> (WS.HasVictim(env') <==> c > if env.S > 0 then env.A else 0))
  }

  /** After a freeMem that finds so many pages in ActiveList, an environment goes on exactly as one whose SecondList is
      smaller by that many, or, when nothing is left of that, whose ActiveList is; but it can do so only while it has a
      victim when it needs one.  With a SecondList it has none any more once no element is left beyond
      ActiveListSize: the handler still looks for the victim in SecondList, which stays empty. */
  lemma RunsAfterFree(s: State, e: nat, p: nat, n: nat, k: nat, ops: seq<Op>, flat: Flat)
    requires Inv(s) && Agrees(s, flat) && e in s.envs
    requires AllAllowed(FreeMem(s, e, p, n, k), ops) && Stays(ops, e)
    ensures var l, t := WS.ListsOf(s.envs[e]), RunAll(FreeMem(s, e, p, n, k), ops);
            && e in t.envs
            && GoesOn(Lru.ForgetAll(l, PagesFrom(p, n)), WS.Capacity(s.envs[e]) - Lost(l, PagesFrom(p, n)), s.envs[e],
                      References(ops, e), t.envs[e])
  {
    hide Inv, Agrees, AllAllowed, RunAll, References, FreeMem, WithoutPages, Lru.Ok, Lru.Run, WS.ListsOf, RangeFreed,
         WS.HasVictim, WS.EffA, WS.EffS;
    FreeMemInv(s, e, p, n, k, flat);
    var s1 := FreeMem(s, e, p, n, k);
    SmallerAfterFree(s, s1, e, p, n);
    FreedLists(s, s1, e, p, n);
    RunLists(s1, ops, e, WithoutPages(flat, e, p, n));
    RunInv(s1, ops, WithoutPages(flat, e, p, n));
    if RunAll(s1, ops).envs[e].work == [] {
      VictimThere(RunAll(s1, ops), e);
    }
  }

  lemma FreedLists(s: State, s': State, e: nat, p: nat, n: nat)
    requires RangeFreed(s, s', e, p, n)
    ensures e in s'.envs && WS.ListsOf(s'.envs[e]) == Lru.ForgetAll(WS.ListsOf(s.envs[e]), PagesFrom(p, n))
    ensures s'.envs[e].A == s.envs[e].A && s'.envs[e].S == s.envs[e].S
  {
  }

  /** The references of e that fault. */
  ghost function FaultsOf(s: State, ops: seq<Op>, e: nat): seq<Vpn>
    requires e in s.envs && Lru.Ok(WS.ListsOf(s.envs[e]), WS.EffA(s.envs[e]), WS.EffS(s.envs[e]))
  {
    Lru.Faults(WS.ListsOf(s.envs[e]), WS.EffA(s.envs[e]), WS.EffS(s.envs[e]), References(ops, e))
  }

  /** At every moment of every run the resident pages of an environment are in order of last fault, newest first,
      those that have not faulted since the start last and in the order they had then; and all pages that are
      not resident faulted earlier. */
  lemma ResidentInRuns(s: State, ops: seq<Op>, e: nat, flat: Flat)
    requires Inv(s) && AllAllowed(s, ops) && Agrees(s, flat) && e in s.envs
    requires Stays(ops, e)
    ensures Lru.Ok(WS.ListsOf(s.envs[e]), WS.EffA(s.envs[e]), WS.EffS(s.envs[e])) && e in RunAll(s, ops).envs
    ensures Lru.NewestFirst(WS.Pages(RunAll(s, ops).envs[e]), Lru.Times(WS.Pages(s.envs[e]), FaultsOf(s, ops, e)))
  {
    hide Inv, Agrees, AllAllowed, RunAll, References, Lru.Ok, WS.PagesOf, Lru.NewestFirst;
    RunLists(s, ops, e, flat);
    Lru.ResidentByLastFault(WS.ListsOf(s.envs[e]), WS.EffA(s.envs[e]), WS.EffS(s.envs[e]), References(ops, e));
  }

  /** Whenever the handler has to evict there is a victim, unless freeMem took too many elements away before, and it
      is the page whose last fault is the oldest. */
  lemma VictimInRuns(s: State, ops: seq<Op>, e: nat, flat: Flat)
    requires Inv(s) && AllAllowed(s, ops) && Agrees(s, flat) && e in s.envs
    requires Stays(ops, e)
    requires e in RunAll(s, ops).envs && RunAll(s, ops).envs[e].work == []
    requires WS.Capacity(s.envs[e]) > (if s.envs[e].S > 0 then s.envs[e].A else 0)
    ensures Lru.Ok(WS.ListsOf(s.envs[e]), WS.EffA(s.envs[e]), WS.EffS(s.envs[e]))
    ensures WS.HasVictim(RunAll(s, ops).envs[e])
    ensures var env, t := RunAll(s, ops).envs[e], Lru.Times(WS.Pages(s.envs[e]), FaultsOf(s, ops, e));
            var v := WS.PageAt(env, WS.Victim(env));
            && v in WS.Pages(env) && Evicted(RunAll(s, ops), EvictPage(RunAll(s, ops), e), e)
            && forall u :: u in WS.Pages(env) && u != v ==> t(v) < t(u)
  {
    hide Inv, Agrees, AllAllowed, RunAll, References, Lru.Ok, WS.PagesOf, Evicted, EvictPage, Lru.Times;
    ResidentInRuns(s, ops, e, flat);
    RunLists(s, ops, e, flat);
    RunInv(s, ops, flat);
    VictimThere(RunAll(s, ops), e);
    EvictInv(RunAll(s, ops), e);
    var env := RunAll(s, ops).envs[e];
    VictimLast(RunAll(s, ops), e);
    OldestLast(WS.Pages(env), WS.PageAt(env, WS.Victim(env)), Lru.Times(WS.Pages(s.envs[e]), FaultsOf(s, ops, e)));
  }

  /** The three lists of an environment hold every one of its elements exactly once. */
  ghost predicate Partitioned(s: State, e: nat) {
    e in s.envs && WS.Elements(s.envs[e]) == WS.UpTo(s.envs[e].A + s.envs[e].S)
  }

  lemma FullPartitioned(s: State, e: nat)
    requires Inv(s) && e in s.envs && WS.Capacity(s.envs[e]) == s.envs[e].A + s.envs[e].S
    ensures Partitioned(s, e)
  {
    hide *;
    EnvElements(s, e);
    WS.FullElements(s.envs[e]);
    PartitionedIs(s, e);
  }

  lemma PartitionedIs(s: State, e: nat)
    requires e in s.envs && WS.Elements(s.envs[e]) == WS.UpTo(s.envs[e].A + s.envs[e].S)
    ensures Partitioned(s, e)
  {
  }

  lemma EnvElements(s: State, e: nat)
    requires Inv(s) && e in s.envs
    ensures WS.Elements(s.envs[e]) <= WS.UpTo(s.envs[e].A + s.envs[e].S)
  {
    assert EnvInv(s, e);
  }

  /** At every moment from env_create on the three lists partition the working-set elements, as long as no pages of
      the environment are freed. */
  lemma PartitionedInRuns(s: State, e: nat, A: nat, S: nat, segs: seq<Segment>, zeroPage: Block, ops: seq<Op>,
                          flat: Flat)
    requires Inv(s) && Agrees(s, flat) && Allowed(s, Start(e, A, S, segs, zeroPage))
    requires AllAllowed(Create(s, e, A, S, segs, zeroPage), ops) && Stays(ops, e)
    ensures Partitioned(RunAll(Create(s, e, A, S, segs, zeroPage), ops), e)
  {
    hide Inv, Agrees, AllAllowed, RunAll, References, Create, OthersKept, NewWorkingSet, WithoutEnv, ProgramMemory,
         Steps, ProgramOk, Covered, RoomToCreate, Partitioned;
    CreateInv(s, e, A, S, segs, zeroPage, flat);
    var t, ops0 := Create(s, e, A, S, segs, zeroPage), Steps(segs, A + S - 1);
    SizesOf(t.envs[e], A, S, ops0);
    RunLists(t, ops, e, WithoutEnv(flat, e) + ProgramMemory(e, ops0));
    RunInv(t, ops, WithoutEnv(flat, e) + ProgramMemory(e, ops0));
    FullPartitioned(RunAll(t, ops), e);
  }

  lemma VictimThere(s: State, e: nat)
    requires Inv(s) && e in s.envs && s.envs[e].work == []
    ensures WS.HasVictim(s.envs[e]) <==> WS.Capacity(s.envs[e]) > (if s.envs[e].S > 0 then s.envs[e].A else 0)
  {
    assert EnvInv(s, e);
    WS.VictimIff(s.envs[e]);
  }

  lemma VictimLast(s: State, e: nat)
    requires Inv(s) && e in s.envs && s.envs[e].work == [] && WS.HasVictim(s.envs[e])
    ensures WS.Pages(s.envs[e]) != []
    ensures Lru.Last(WS.Pages(s.envs[e])) == WS.PageAt(s.envs[e], WS.Victim(s.envs[e])) && Distinct(WS.Pages(s.envs[e]))
  {
    assert EnvInv(s, e);
    WS.EnvFacts(s.envs[e]);
    WS.EvictOk(s.envs[e]);
  }

  lemma OldestLast(q: seq<Vpn>, v: Vpn, t: Vpn -> int)
    requires q != [] && Lru.Last(q) == v && Lru.NewestFirst(q, t)
    ensures v in q && forall u :: u in q && u != v ==> t(v) < t(u)
  {
    assert q[|q| - 1] == v;
  }

  /** Belady's anomaly does not occur on the machine: two environments, in one system or in two, that make the
      same references with the same ActiveListSize from nested lists.  The one with the larger SecondList
      keeps every page the other keeps, and has placed no more pages. */
  lemma NoBeladyRuns(s1: State, ops1: seq<Op>, e1: nat, flat1: Flat, s2: State, ops2: seq<Op>, e2: nat, flat2: Flat)
    requires Inv(s1) && AllAllowed(s1, ops1) && Agrees(s1, flat1) && e1 in s1.envs
    requires Inv(s2) && AllAllowed(s2, ops2) && Agrees(s2, flat2) && e2 in s2.envs
    requires Stays(ops1, e1) && Stays(ops2, e2)
    requires References(ops1, e1) == References(ops2, e2)
    requires WS.EffA(s1.envs[e1]) == WS.EffA(s2.envs[e2]) && WS.EffS(s1.envs[e1]) <= WS.EffS(s2.envs[e2])
    requires Lru.Nested(WS.ListsOf(s1.envs[e1]), WS.ListsOf(s2.envs[e2]), WS.EffA(s1.envs[e1]) + WS.EffS(s1.envs[e1]))
    ensures Larger(RunAll(s1, ops1), e1, RunAll(s2, ops2), e2)
    ensures Lru.Nested(WS.ListsOf(RunAll(s1, ops1).envs[e1]), WS.ListsOf(RunAll(s2, ops2).envs[e2]),
                       WS.EffA(s1.envs[e1]) + WS.EffS(s1.envs[e1]))
  {
    hide Inv, Agrees, AllAllowed, RunAll, References, WS.ListsOf, Lru.Ok, Lru.Nested, Lru.Run, Larger;
    RunLists(s1, ops1, e1, flat1);
    RunLists(s2, ops2, e2, flat2);
    NestedEnds(WS.ListsOf(s1.envs[e1]), WS.ListsOf(s2.envs[e2]), WS.EffA(s1.envs[e1]), WS.EffS(s1.envs[e1]),
               WS.EffS(s2.envs[e2]), References(ops1, e1), RunAll(s1, ops1), e1, RunAll(s2, ops2), e2);
  }

  lemma NestedEnds(l1: Lru.Lists<Vpn>, l2: Lru.Lists<Vpn>, A: nat, S1: nat, S2: nat, refs: seq<Vpn>,
                   t1: State, e1: nat, t2: State, e2: nat)
    requires Lru.Ok(l1, A, S1) && Lru.Ok(l2, A, S2) && S1 <= S2 && Lru.Nested(l1, l2, A + S1)
    requires e1 in t1.envs && WS.ListsOf(t1.envs[e1]) == Lru.Run(l1, A, S1, refs)
    requires e2 in t2.envs && WS.ListsOf(t2.envs[e2]) == Lru.Run(l2, A, S2, refs)
    ensures Larger(t1, e1, t2, e2) && Lru.Nested(WS.ListsOf(t1.envs[e1]), WS.ListsOf(t2.envs[e2]), A + S1)
  {
    hide WS.ListsOf, Lru.Ok, Lru.Nested, Lru.Run, Larger;
    Lru.NestedRun(l1, l2, A, S1, S2, refs);
    LargerFrom(t1, e1, t2, e2, A + S1);
  }

  lemma LargerFrom(s1: State, e1: nat, s2: State, e2: nat, n: nat)
    requires e1 in s1.envs && e2 in s2.envs && Lru.Nested(WS.ListsOf(s1.envs[e1]), WS.ListsOf(s2.envs[e2]), n)
    ensures Larger(s1, e1, s2, e2)
  {
    hide Lru.Nested, WS.PagesOf;
    Lru.NestedContained(WS.ListsOf(s1.envs[e1]), WS.ListsOf(s2.envs[e2]), n);
  }

  /** e2 has the same ActiveList as e1, keeps all pages that e1 keeps, and has placed no more pages. */
  ghost predicate Larger(s1: State, e1: nat, s2: State, e2: nat) {
    && e1 in s1.envs && e2 in s2.envs && s2.envs[e2].nIn <= s1.envs[e1].nIn
    && WS.ListsOf(s1.envs[e1]).active == WS.ListsOf(s2.envs[e2]).active
    && forall v :: v in WS.Pages(s1.envs[e1]) ==> v in WS.Pages(s2.envs[e2])
  }

  /** From env_create on: the same program, created with the same ActiveListSize and two SecondListSizes, makes
      the same references.  Counted from its creation, the larger SecondList never places more pages. */
  lemma NoBeladyPrograms(s1: State, e1: nat, S1: nat, segs1: seq<Segment>, zeroPage1: Block, ops1: seq<Op>, flat1: Flat,
                         s2: State, e2: nat, S2: nat, segs2: seq<Segment>, zeroPage2: Block, ops2: seq<Op>, flat2: Flat,
                         A: nat)
    requires S1 <= S2 && SamePages(segs1, segs2)
    requires Inv(s1) && Agrees(s1, flat1) && Allowed(s1, Start(e1, A, S1, segs1, zeroPage1))
    requires Inv(s2) && Agrees(s2, flat2) && Allowed(s2, Start(e2, A, S2, segs2, zeroPage2))
    requires AllAllowed(Create(s1, e1, A, S1, segs1, zeroPage1), ops1)
    requires AllAllowed(Create(s2, e2, A, S2, segs2, zeroPage2), ops2)
    requires Stays(ops1, e1) && Stays(ops2, e2)
    requires References(ops1, e1) == References(ops2, e2)
    ensures Larger(RunAll(Create(s1, e1, A, S1, segs1, zeroPage1), ops1), e1,
                   RunAll(Create(s2, e2, A, S2, segs2, zeroPage2), ops2), e2)
  {
    hide Inv, Agrees, AllAllowed, RunAll, References, Create, OthersKept, NewWorkingSet, Lru.Nested, WithoutEnv,
         ProgramMemory, Steps, ProgramOk, Covered, RoomToCreate, Larger, SamePages;
    CreateInv(s1, e1, A, S1, segs1, zeroPage1, flat1);
    CreateInv(s2, e2, A, S2, segs2, zeroPage2, flat2);
    var t1, t2 := Create(s1, e1, A, S1, segs1, zeroPage1), Create(s2, e2, A, S2, segs2, zeroPage2);
    SizesOf(t1.envs[e1], A, S1, Steps(segs1, A + S1 - 1));
    SizesOf(t2.envs[e2], A, S2, Steps(segs2, A + S2 - 1));
    CreateNested(t1.envs[e1], t2.envs[e2], A, S1, S2, segs1, segs2);
    NoBeladyRuns(t1, ops1, e1, WithoutEnv(flat1, e1) + ProgramMemory(e1, Steps(segs1, A + S1 - 1)),
                 t2, ops2, e2, WithoutEnv(flat2, e2) + ProgramMemory(e2, Steps(segs2, A + S2 - 1)));
  }

  lemma SizesOf(env: WS.Env, A: nat, S: nat, ops: seq<Step>)
    requires A >= 1 && NewWorkingSet(env, A, S, ops)
    ensures env.A == A && env.S == S && WS.Capacity(env) == A + S && WS.EffA(env) == A && WS.EffS(env) == S
  {
  }

  /** At every moment of every run a resident page that is not MODIFIED holds what its disk frame holds,
      in every word whose value is determined. */
  lemma CleanIsCopy(s: State, ops: seq<Op>, flat: Flat, e: nat, v: Vpn, i: nat)
    requires Inv(s) && AllAllowed(s, ops) && Agrees(s, flat) && (e, v, i) in FlatRun(flat, ops)
    requires var t := RunAll(s, ops); Resident(t, e, v) && !Entry(t.m, Ram(e), v).modified
    ensures var t := RunAll(s, ops);
            && i < |t.data[(e, v)]| && i < |OnDisk(t, e, v)| && t.data[(e, v)][i] == OnDisk(t, e, v)[i]
  {
    hide Inv, AllAllowed, RunAll, FlatRun;
    RunInv(s, ops, flat);
    assert WordAgrees(RunAll(s, ops), e, v, i, FlatRun(flat, ops)[(e, v, i)]);
  }
}

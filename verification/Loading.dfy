/** env_create leaves a state in which the invariant holds, and in which the new environment's flat
    memory is the image of its program and a zeroed stack page. */
module ProgramLoading {
  import opened Seqs
  import opened Mmu
  import opened FrameTable
  import opened Machine
  import opened Paging
  import opened FlatMemory
  import opened LifeCycle
  import Lru
  import WS = WorkingSet

  /** Directories while loading: the disk directory appears with the first page written to the page file. */
  ghost predicate DirsLoading(m: Mem, e: nat, env: Env) {
    && Dir(Ram(e)) in m.own && m.own[Dir(Ram(e))] == env.dir
    && (if env.ddir == 0 then Dir(Swap(e)) !in m.own
        else Dir(Swap(e)) in m.own && m.own[Dir(Swap(e))] == env.ddir)
  }

  /** ram is what has been loaded into memory. */
  ghost predicate InRam(s: State, e: nat, ram: map<Vpn, Block>) {
    && (forall v :: (Ram(e), v) in s.m.leaf <==> v in ram)
    && (forall v :: v in ram ==> UserPage(v) && PuwSet(Entry(s.m, Ram(e), v)))
    && (forall v :: (e, v) in s.data <==> v in ram)
    && (forall v :: v in ram ==> s.data[(e, v)] == ram[v])
  }

  /** pf is what has been written to the page file. */
  ghost predicate InPf(s: State, e: nat, pf: map<Vpn, Block>) {
    && (forall v :: (Swap(e), v) in s.m.leaf <==> v in pf)
    && (forall v :: v in pf ==> OnDisk(s, e, v) == pf[v])
  }

  /** The page file contents of the other environments are untouched. */
  ghost predicate DiskKept(s0: State, s: State, e: nat) {
    forall e1: nat, v :: e1 != e && (Swap(e1), v) in s0.m.leaf ==> OnDisk(s, e1, v) == OnDisk(s0, e1, v)
  }

  /** The state during env_create, apart from the lists. */
  ghost predicate Loading(s0: State, s: State, e: nat, ram: map<Vpn, Block>, pf: map<Vpn, Block>) {
    && Base(s) && OthersKept(s0, s, e) && DiskKept(s0, s, e)
    && e in s.envs && DirsLoading(s.m, e, s.envs[e]) && InRam(s, e, ram) && InPf(s, e, pf)
  }

  /** The lists hold exactly the pages loaded so far. */
  ghost predicate Listed(env: Env, ram: map<Vpn, Block>) {
    forall v :: v in WS.Pages(env) <==> v in ram
  }

  // ---------- the start ----------

  lemma NothingOf(s: State, e: nat)
    requires Base(s) && e !in s.envs
    ensures forall o :: o in s.m.own ==> !OwnedBy(o, e)
    ensures forall k: (Space, Vpn) :: k in s.m.leaf ==> k.0.e != e
    ensures forall v :: (e, v) !in s.data
  {
    forall k: (Space, Vpn) | k in s.m.leaf ensures k.0.e != e {
      assert Table(k.0, k.1.d) in s.m.own;
    }
    forall v ensures (e, v) !in s.data {
    }
  }

  lemma InitLoading(s: State, e: nat, A: nat, S: nat)
    requires Base(s) && e !in s.envs && s.m.free != [] && A >= 1
    ensures var s' := InitEnv(s, e, A, S);
            && Loading(s, s', e, map[], map[]) && s'.envs[e] == WS.NewEnv(s.m.free[0], A, S)
  {
    hide Base, OthersKept, WS.NewEnv;
    NothingOf(s, e);
    InitBase(s, e, A, S);
    NewEnvFields(s.m.free[0], A, S);
  }

  lemma NewEnvFields(dir: Frame, A: nat, S: nat)
    ensures var env := WS.NewEnv(dir, A, S); env.dir == dir && env.ddir == 0
  {
  }

  lemma InitBase(s: State, e: nat, A: nat, S: nat)
    requires Base(s) && e !in s.envs && s.m.free != [] && Dir(Ram(e)) !in s.m.own
    ensures var s' := InitEnv(s, e, A, S);
            && Base(s') && OthersKept(s, s', e) && s'.m.leaf == s.m.leaf
            && s'.m.own == s.m.own[Dir(Ram(e)) := s.m.free[0]]
  {
    hide MemOk, DiskOk, WS.NewEnv;
    DirectoryMem(s.m, Ram(e));
    FreshInjective(s.m.own, Dir(Ram(e)), s.m.free[0]);
    assert OwnedBy(Dir(Ram(e)), e) && OwnerEnv(Dir(Ram(e))) == e;
  }

  /** A fresh frame becomes a directory. */
  lemma DirectoryMem(m: Mem, sp: Space)
    requires MemOk(m) && m.free != [] && Dir(sp) !in m.own && m.limbo == {}
    ensures var f, m' := m.free[0], Use(Alloc(m), Dir(sp), m.free[0]);
            && MemOk(m') && m'.limbo == {} && m'.leaf == m.leaf && m'.own == m.own[Dir(sp) := f]
            && f !in m.own.Values && f != 0 && |m'.refs| == |m.refs| && m'.free == m.free[1..]
  {
    AllocOk(m);
    UseOk(Alloc(m), Dir(sp), m.free[0]);
    assert m.own[Boot(0)] in m.own.Values;
  }

  // ---------- a page for memory ----------

  predicate RoomForFrame(s: State, e: nat, v: Vpn) {
    s.m.free != [] && CanHaveTable(Alloc(s.m), Ram(e), v.d)
  }

  /** A fresh frame is mapped; its table is created if it is missing. */
  lemma LoadMapMem(m: Mem, e: nat, v: Vpn)
    requires MemOk(m) && Injective(m.own) && m.limbo == {} && Dir(Ram(e)) in m.own && UserPage(v)
    requires (Ram(e), v) !in m.leaf
    requires m.free != [] && CanHaveTable(Alloc(m), Ram(e), v.d)
    ensures var f, m' := m.free[0], Mapped(Alloc(m), e, v, m.free[0]);
            && MemOk(m') && Injective(m'.own) && m'.limbo == {} && |m'.refs| == |m.refs|
            && m'.leaf == m.leaf[(Ram(e), v) := Construct(f)]
            && (forall o :: o in m'.own <==> o in m.own || o == Page(e, v) || o == Table(Ram(e), v.d))
            && (forall o :: o in m.own ==> m'.own[o] == m.own[o])
  {
    hide MemOk, Injective;
    var f, m1 := m.free[0], Alloc(m);
    var m2 := EnsureTable(m1, Ram(e), v.d);
    FreshFrame(m, e, v);
    LoadTable(m1, e, v, f);
    EnterOk(m2, e, v, f);
    assert Mapped(m1, e, v, f) == Enter(m2, e, v, f);
    LoadOwn(m, m1, m2, e, v, f);
  }

  lemma FreshFrame(m: Mem, e: nat, v: Vpn)
    requires MemOk(m) && m.free != [] && (Ram(e), v) !in m.leaf
    ensures MemOk(Alloc(m)) && m.free[0] !in m.own.Values && m.free[0] < |m.refs| && Page(e, v) !in m.own
  {
    AllocOk(m);
  }

  lemma LoadTable(m1: Mem, e: nat, v: Vpn, f: Frame)
    requires MemOk(m1) && Dir(Ram(e)) in m1.own && UserPage(v) && (Ram(e), v) !in m1.leaf
    requires m1.limbo == {f} && CanHaveTable(m1, Ram(e), v.d)
    ensures var m2 := EnsureTable(m1, Ram(e), v.d);
            && MemOk(m2) && Mappable(m2, f) && Table(Ram(e), v.d) in m2.own && m2.leaf == m1.leaf
            && |m2.refs| == |m1.refs|
            && (forall o :: o in m2.own <==> o in m1.own || o == Table(Ram(e), v.d))
            && (forall o :: o in m1.own ==> m2.own[o] == m1.own[o])
  {
    EnsureTableOk(m1, Ram(e), v.d);
    assert Mappable(m1, f);
    MappableKept(m1, Ram(e), v.d, f);
  }

  lemma LoadOwn(m: Mem, m1: Mem, m2: Mem, e: nat, v: Vpn, f: Frame)
    requires MemOk(m1) && m1.own == m.own && Injective(m.own) && m1.limbo == {f} && f !in m.own.Values
    requires m2 == EnsureTable(m1, Ram(e), v.d) && CanHaveTable(m1, Ram(e), v.d) && Page(e, v) !in m.own
    ensures m2.limbo == {f} && Injective(m2.own[Page(e, v) := f])
  {
    if Table(Ram(e), v.d) !in m.own {
      AllocOk(m1);
      assert m1.free[0] in m1.free;
      FreshInjective(m1.own, Table(Ram(e), v.d), m1.free[0]);
    }
    assert f !in m2.own.Values;
    FreshInjective(m2.own, Page(e, v), f);
  }

  lemma LoadPageLoading(s0: State, s: State, e: nat, v: Vpn, b: Block, cap: nat, ram: map<Vpn, Block>,
                        pf: map<Vpn, Block>)
    requires Loading(s0, s, e, ram, pf) && v !in ram && UserPage(v) && |b| == NPTENTRIES
    requires s.envs[e].work != [] && RoomForFrame(s, e, v)
    ensures var s' := LoadPage(s, e, v, b, cap);
            && Loading(s0, s', e, ram[v := b], pf)
            && s'.envs[e] == WS.LoadInsert(s.envs[e], v, cap)
  {
    hide Base, OthersKept, InRam, InPf, WS.LoadInsert, Mapped, SetPerms, DirsLoading, DiskKept;
    LoadPageBase(s, e, v, b, cap, ram);
    var s' := LoadPage(s, e, v, b, cap);
    OthersTrans(s0, s, s', e);
    WS.LoadFields(s.envs[e], v, cap);
    LoadPageRam(s, s', e, v, b, ram);
    LoadPagePf(s0, s, s', e, pf);
    LoadPageDirs(s, s', e, v);
  }

  /** s' is s with page v in memory. */
  ghost predicate PageLoaded(s: State, s': State, e: nat, v: Vpn, b: Block) {
    && OneEntry(s.m, s'.m, (Ram(e), v), Construct(FirstFree(s.m)).(modified := true))
    && s'.data == s.data[(e, v) := b] && s'.disk == s.disk && s'.dfree == s.dfree
    && (forall o :: o in s'.m.own <==> o in s.m.own || o == Page(e, v) || o == Table(Ram(e), v.d))
    && (forall o :: o in s.m.own ==> s'.m.own[o] == s.m.own[o])
  }

  lemma LoadPageBase(s: State, e: nat, v: Vpn, b: Block, cap: nat, ram: map<Vpn, Block>)
    requires Base(s) && e in s.envs && DirsLoading(s.m, e, s.envs[e]) && InRam(s, e, ram) && v !in ram
    requires UserPage(v) && |b| == NPTENTRIES && s.envs[e].work != [] && RoomForFrame(s, e, v)
    ensures var s' := LoadPage(s, e, v, b, cap);
            && Base(s') && OthersKept(s, s', e) && PageLoaded(s, s', e, v, b)
            && s'.envs == s.envs[e := WS.LoadInsert(s.envs[e], v, cap)]
  {
    hide MemOk, DiskOk, Injective, WS.LoadInsert, Mapped, OthersKept, SetPerms;
    var s1 := s.(m := Mapped(Alloc(s.m), e, v, FirstFree(s.m)), data := s.data[(e, v) := b]);
    LoadMapBase(s, s1, e, v, b);
    PermsBase(s1, e, v, MODIFIED, NONE);
    var s2 := s1.(m := SetPerms(s1.m, e, v, MODIFIED, NONE));
    OthersTrans(s, s1, s2, e);
    EnvBase(s2, e, WS.LoadInsert(s.envs[e], v, cap));
    OthersTrans(s, s2, SetEnv(s2, e, WS.LoadInsert(s.envs[e], v, cap)), e);
    assert LoadPage(s, e, v, b, cap) == SetEnv(s2, e, WS.LoadInsert(s.envs[e], v, cap));
  }

  lemma LoadMapBase(s: State, s1: State, e: nat, v: Vpn, b: Block)
    requires Base(s) && e in s.envs && Dir(Ram(e)) in s.m.own && (Ram(e), v) !in s.m.leaf
    requires UserPage(v) && |b| == NPTENTRIES && RoomForFrame(s, e, v)
    requires s1 == s.(m := Mapped(Alloc(s.m), e, v, FirstFree(s.m)), data := s.data[(e, v) := b])
    ensures Base(s1) && OthersKept(s, s1, e) && (Ram(e), v) in s1.m.leaf
    ensures OneEntry(s.m, s1.m, (Ram(e), v), Construct(FirstFree(s.m)))
    ensures forall o :: o in s1.m.own <==> o in s.m.own || o == Page(e, v) || o == Table(Ram(e), v.d)
    ensures forall o :: o in s.m.own ==> s1.m.own[o] == s.m.own[o]
  {
    hide MemOk, DiskOk, Injective, Mapped, OthersKept;
    LoadMapMem(s.m, e, v);
    SwapSame(s.m.leaf, s1.m.leaf, s.dfree, s.disk);
    OneEntryOthers(s, s.(m := s1.m), e, (Ram(e), v), Construct(FirstFree(s.m)));
    DataOthers(s, s.(m := s1.m), e, v, b);
  }

  lemma LoadPageRam(s: State, s': State, e: nat, v: Vpn, b: Block, ram: map<Vpn, Block>)
    requires InRam(s, e, ram) && PageLoaded(s, s', e, v, b) && UserPage(v)
    ensures InRam(s', e, ram[v := b])
  {
    assert forall u :: u != v && u in ram ==> (Ram(e), u) != (Ram(e), v);
  }

  lemma LoadPagePf(s0: State, s: State, s': State, e: nat, pf: map<Vpn, Block>)
    requires InPf(s, e, pf) && DiskKept(s0, s, e) && s'.disk == s.disk
    requires forall k: (Space, Vpn) :: k.0.Swap? ==>
        (k in s.m.leaf <==> k in s'.m.leaf) && (k in s.m.leaf ==> s'.m.leaf[k] == s.m.leaf[k])
    ensures InPf(s', e, pf) && DiskKept(s0, s', e)
  {
  }

  lemma LoadPageDirs(s: State, s': State, e: nat, v: Vpn)
    requires e in s.envs && DirsLoading(s.m, e, s.envs[e])
    requires forall o :: o in s'.m.own <==> o in s.m.own || o == Page(e, v) || o == Table(Ram(e), v.d)
    requires forall o :: o in s.m.own ==> s'.m.own[o] == s.m.own[o]
    requires e in s'.envs && s'.envs[e].dir == s.envs[e].dir && s'.envs[e].ddir == s.envs[e].ddir
    ensures DirsLoading(s'.m, e, s'.envs[e])
  {
  }

  // ---------- a page for the page file ----------

  predicate RoomForFile(s: State, e: nat, v: Vpn) {
    && e in s.envs && (s.envs[e].ddir != 0 || s.m.free != [])
    && CanHaveTable(DiskDir(s, e).m, Swap(e), v.d)
    && ((Swap(e), v) in s.m.leaf || s.dfree != [])
  }

  lemma DiskDirLoading(s0: State, s: State, e: nat, ram: map<Vpn, Block>, pf: map<Vpn, Block>)
    requires Loading(s0, s, e, ram, pf) && (s.envs[e].ddir != 0 || s.m.free != [])
    ensures var s' := DiskDir(s, e);
            && Loading(s0, s', e, ram, pf) && s'.envs[e].ddir != 0 && s'.m.leaf == s.m.leaf && s'.dfree == s.dfree
            && s'.envs[e] == s.envs[e].(ddir := s'.envs[e].ddir)
  {
    hide Base, OthersKept, InRam, InPf, DiskKept;
    if s.envs[e].ddir == 0 {
      DiskDirBase(s, e);
      var s' := DiskDir(s, e);
      OthersTrans(s0, s, s', e);
      RamSame(s, s', e, ram);
      LoadPagePf(s0, s, s', e, pf);
    }
  }

  lemma DiskDirBase(s: State, e: nat)
    requires Base(s) && e in s.envs && s.envs[e].ddir == 0 && s.m.free != [] && Dir(Swap(e)) !in s.m.own
    ensures var s' := DiskDir(s, e);
            && Base(s') && OthersKept(s, s', e) && s'.m.leaf == s.m.leaf && s.m.free[0] != 0
            && s'.m.own == s.m.own[Dir(Swap(e)) := s.m.free[0]]
  {
    hide MemOk, DiskOk;
    DirectoryMem(s.m, Swap(e));
    FreshInjective(s.m.own, Dir(Swap(e)), s.m.free[0]);
    assert OwnedBy(Dir(Swap(e)), e) && OwnerEnv(Dir(Swap(e))) == e;
  }

  lemma PfPutLoading(s0: State, s: State, e: nat, v: Vpn, b: Block, ram: map<Vpn, Block>, pf: map<Vpn, Block>)
    requires Loading(s0, s, e, ram, pf) && UserPage(v) && |b| == NPTENTRIES && RoomForFile(s, e, v)
    ensures var s' := PfPut(s, e, v, b);
            && Loading(s0, s', e, ram, pf[v := b]) && s'.envs[e].ddir != 0
            && s'.envs[e] == s.envs[e].(ddir := s'.envs[e].ddir)
  {
    hide Base, OthersKept, InRam, InPf, DirsLoading, DiskKept;
    var s1 := DiskDir(s, e);
    DiskDirLoading(s0, s, e, ram, pf);
    PutTable(s0, s1, e, v, ram, pf);
    var s2 := SwapTable(s1, e, v.d);
    PutFrame(s0, s2, e, v, b, ram, pf);
  }

  /** The rest of pf_add_env_page once the disk table exists. */
  lemma PutFrame(s0: State, s: State, e: nat, v: Vpn, b: Block, ram: map<Vpn, Block>, pf: map<Vpn, Block>)
    requires Loading(s0, s, e, ram, pf) && |b| == NPTENTRIES && Table(Swap(e), v.d) in s.m.own && v.t < NPTENTRIES
    requires (Swap(e), v) in s.m.leaf || s.dfree != []
    ensures var s' := PfWrite(NewDfn(s, e, v), e, v, b);
            Loading(s0, s', e, ram, pf[v := b]) && s'.envs == s.envs
  {
    hide Base, OthersKept, InRam, DirsLoading, InPf, DiskKept;
    var s1, s' := NewDfn(s, e, v), PfWrite(NewDfn(s, e, v), e, v, b);
    NewDfnBase(s, e, v);
    OthersTrans(s0, s, s1, e);
    PfWriteBase(s1, e, v, b);
    OthersTrans(s0, s1, s', e);
    LeafDistinct(s1);
    OthersDisk(s0, s, e);
    PutContents(s0, s, s1, s', e, v, b, pf);
    assert s'.m == s1.m && s'.data == s.data && s'.envs == s.envs;
    assert DirsLoading(s'.m, e, s'.envs[e]) by { PutDirs(s.m, s'.m, e, s.envs[e]); }
    RamSame(s, s', e, ram);
  }

  lemma PutDirs(m: Mem, m': Mem, e: nat, env: Env)
    requires DirsLoading(m, e, env) && m'.own == m.own
    ensures DirsLoading(m', e, env)
  {
  }

  lemma OthersDisk(s0: State, s: State, e: nat)
    requires OthersKept(s0, s, e)
    ensures forall e1: nat, v1 :: e1 != e && (Swap(e1), v1) in s0.m.leaf ==> (Swap(e1), v1) in s.m.leaf
  {
  }

  lemma LeafDistinct(s: State)
    requires Base(s)
    ensures forall k, k' ::
              k in s.m.leaf && k' in s.m.leaf && k.0.Swap? && k'.0.Swap? && s.m.leaf[k] == s.m.leaf[k'] ==> k == k'
    ensures forall k :: k in s.m.leaf && k.0.Swap? ==> s.m.leaf[k] in s.disk
  {
  }

  lemma PutContents(s0: State, s: State, s1: State, s': State, e: nat, v: Vpn, b: Block, pf: map<Vpn, Block>)
    requires InPf(s, e, pf) && DiskKept(s0, s, e) && s1.disk == s.disk && (Swap(e), v) in s1.m.leaf
    requires OneEntry(s.m, s1.m, (Swap(e), v), s1.m.leaf[(Swap(e), v)])
    requires (Swap(e), v) in s.m.leaf ==> s1 == s
    requires s' == PfWrite(s1, e, v, b)
    requires forall e1: nat, v1 :: e1 != e && (Swap(e1), v1) in s0.m.leaf ==> (Swap(e1), v1) in s.m.leaf
    requires forall k, k' ::
               k in s1.m.leaf && k' in s1.m.leaf && k.0.Swap? && k'.0.Swap? && s1.m.leaf[k] == s1.m.leaf[k'] ==> k == k'
    ensures InPf(s', e, pf[v := b]) && DiskKept(s0, s', e)
  {
    forall e1: nat, v1 | (Swap(e1), v1) in s.m.leaf && (e1, v1) != (e, v)
      ensures OnDisk(s', e1, v1) == OnDisk(s, e1, v1)
    {
      PutElsewhere(s, s1, s', e, v, b, e1, v1);
    }
    PutHere(s1, s', e, v, b);
    hide OnDisk, PfWrite;
  }

  lemma PutElsewhere(s: State, s1: State, s': State, e: nat, v: Vpn, b: Block, e1: nat, v1: Vpn)
    requires s1.disk == s.disk && (Swap(e), v) in s1.m.leaf && s' == PfWrite(s1, e, v, b)
    requires OneEntry(s.m, s1.m, (Swap(e), v), s1.m.leaf[(Swap(e), v)])
    requires (Swap(e1), v1) in s.m.leaf && (e1, v1) != (e, v)
    requires forall k, k' ::
               k in s1.m.leaf && k' in s1.m.leaf && k.0.Swap? && k'.0.Swap? && s1.m.leaf[k] == s1.m.leaf[k'] ==> k == k'
    ensures OnDisk(s', e1, v1) == OnDisk(s, e1, v1)
  {
    assert (Swap(e1), v1) != (Swap(e), v);
    assert s1.m.leaf[(Swap(e1), v1)] != s1.m.leaf[(Swap(e), v)];
  }

  lemma PutHere(s1: State, s': State, e: nat, v: Vpn, b: Block)
    requires (Swap(e), v) in s1.m.leaf && s' == PfWrite(s1, e, v, b)
    ensures s'.m == s1.m && OnDisk(s', e, v) == b
  {
  }

  lemma RamSame(s: State, s': State, e: nat, ram: map<Vpn, Block>)
    requires InRam(s, e, ram) && s'.data == s.data
    requires forall k: (Space, Vpn) :: k.0.Ram? ==>
        (k in s.m.leaf <==> k in s'.m.leaf) && (k in s.m.leaf ==> s'.m.leaf[k] == s.m.leaf[k])
    ensures InRam(s', e, ram)
  {
  }

  lemma PutTable(s0: State, s: State, e: nat, v: Vpn, ram: map<Vpn, Block>, pf: map<Vpn, Block>)
    requires Loading(s0, s, e, ram, pf) && s.envs[e].ddir != 0 && UserPage(v) && CanHaveTable(s.m, Swap(e), v.d)
    ensures var s' := SwapTable(s, e, v.d);
            && Loading(s0, s', e, ram, pf) && Table(Swap(e), v.d) in s'.m.own
            && s'.envs == s.envs && s'.m.leaf == s.m.leaf && s'.dfree == s.dfree
  {
    hide Base, OthersKept, InRam, InPf, EnsureTable, DiskKept;
    TableBase(s, Swap(e), v.d);
    var s' := SwapTable(s, e, v.d);
    OthersTrans(s0, s, s', e);
    RamSame(s, s', e, ram);
    LoadPagePf(s0, s, s', e, pf);
  }

  // ---------- all the steps ----------

  /** The steps load distinct user pages, none of them the stack page. */
  ghost predicate ProgramOk(ops: seq<Step>) {
    ops != [] ==>
      var op := Lru.Last(ops);
      && ProgramOk(Lru.Front(ops)) && UserPage(op.v) && |op.b| == NPTENTRIES
      && (op.InMemory? ==> op.v !in Image(Lru.Front(ops)) && op.v != STACK_PAGE)
  }

  /** A free frame, and a free disk frame, whenever one is needed. */
  ghost predicate RoomToLoad(s: State, e: nat, ops: seq<Step>, cap: nat) {
    ops != [] ==>
      && RoomToLoad(s, e, Lru.Front(ops), cap)
      && var s1, op := LoadAll(s, e, Lru.Front(ops), cap), Lru.Last(ops);
         if op.InMemory? then RoomForFrame(s1, e, op.v) else RoomForFile(s1, e, op.v)
  }

  /** The lists while loading: cap pages at most in ActiveList, and room for the pages still to come. */
  ghost predicate ListsLoading(env: Env, env0: Env, cap: nat, ops: seq<Step>) {
    && WS.LoadOk(env, cap) && Listed(env, Image(ops)) && |env.work| + Frames(ops) == |env0.work|
    && env.A == env0.A && env.S == env0.S
    && WS.ListsOf(env) == Lru.Loaded(LoadedOrder(ops), cap)
  }

  lemma {:induction false} LoadAllOk(s0: State, s: State, e: nat, ops: seq<Step>, cap: nat)
    requires Loading(s0, s, e, map[], map[]) && WS.LoadOk(s.envs[e], cap) && Listed(s.envs[e], map[])
    requires WS.ListsOf(s.envs[e]) == Lru.Empty()
    requires ProgramOk(ops) && RoomToLoad(s, e, ops, cap) && Frames(ops) <= |s.envs[e].work|
    ensures var s' := LoadAll(s, e, ops, cap);
            && Loading(s0, s', e, Image(ops), FileImage(ops))
            && ListsLoading(s'.envs[e], s.envs[e], cap, ops)
  {
    hide Loading, WS.LoadOk, Listed, WS.ListsOf, ListsLoading, LoadStep, Image, FileImage, RoomForFrame, RoomForFile;
    LoadingEnv(s0, s, e, map[], map[]);
    if ops == [] {
      NothingLoaded(s.envs[e], cap);
    } else {
      var op, s1 := Lru.Last(ops), LoadAll(s, e, Lru.Front(ops), cap);
      LoadAllOk(s0, s, e, Lru.Front(ops), cap);
      LoadingEnv(s0, s1, e, Image(Lru.Front(ops)), FileImage(Lru.Front(ops)));
      if op.InMemory? {
        LoadMemoryStep(s0, s1, e, ops, cap, s.envs[e]);
      } else {
        LoadFileStep(s0, s1, e, ops, cap, s.envs[e]);
      }
    }
  }

  lemma NothingLoaded(env: Env, cap: nat)
    requires WS.LoadOk(env, cap) && Listed(env, map[]) && WS.ListsOf(env) == Lru.Empty()
    ensures ListsLoading(env, env, cap, []) && Image([]) == map[] && FileImage([]) == map[]
  {
    hide WS.LoadOk, WS.ListsOf, Listed;
  }

  /** The last step, into memory. */
  lemma LoadMemoryStep(s0: State, s1: State, e: nat, ops: seq<Step>, cap: nat, env0: Env)
    requires ops != [] && Lru.Last(ops).InMemory?
    requires Loading(s0, s1, e, Image(Lru.Front(ops)), FileImage(Lru.Front(ops))) && e in s1.envs
    requires ListsLoading(s1.envs[e], env0, cap, Lru.Front(ops)) && Frames(ops) <= |env0.work|
    requires ProgramOk(ops) && RoomForFrame(s1, e, Lru.Last(ops).v)
    ensures var s' := LoadStep(s1, e, Lru.Last(ops), cap);
            Loading(s0, s', e, Image(ops), FileImage(ops)) && ListsLoading(s'.envs[e], env0, cap, ops)
  {
    hide Loading, WS.LoadOk, Listed, WS.ListsOf, RoomForFrame;
    var op := Lru.Last(ops);
    LoadPageLoading(s0, s1, e, op.v, op.b, cap, Image(Lru.Front(ops)), FileImage(Lru.Front(ops)));
    LoadingEnv(s0, LoadPage(s1, e, op.v, op.b, cap), e, Image(ops), FileImage(ops));
    LoadInsertListed(s1.envs[e], op.v, op.b, cap, Image(Lru.Front(ops)));
    LoadShapes(s1.envs[e], op.v, cap);
    LoadedPush(LoadedOrder(Lru.Front(ops)), op.v, cap);
  }

  /** The last step, into the page file. */
  lemma LoadFileStep(s0: State, s1: State, e: nat, ops: seq<Step>, cap: nat, env0: Env)
    requires ops != [] && Lru.Last(ops).InFile?
    requires Loading(s0, s1, e, Image(Lru.Front(ops)), FileImage(Lru.Front(ops))) && e in s1.envs
    requires ListsLoading(s1.envs[e], env0, cap, Lru.Front(ops))
    requires ProgramOk(ops) && RoomForFile(s1, e, Lru.Last(ops).v)
    ensures var s' := LoadStep(s1, e, Lru.Last(ops), cap);
            Loading(s0, s', e, Image(ops), FileImage(ops)) && ListsLoading(s'.envs[e], env0, cap, ops)
  {
    hide Loading, WS.LoadOk, Listed, WS.ListsOf, RoomForFile;
    var op := Lru.Last(ops);
    PfPutLoading(s0, s1, e, op.v, op.b, Image(Lru.Front(ops)), FileImage(Lru.Front(ops)));
    LoadingEnv(s0, PfPut(s1, e, op.v, op.b), e, Image(ops), FileImage(ops));
    DdirLists(s1.envs[e], PfPut(s1, e, op.v, op.b).envs[e].ddir, cap, Image(ops));
    assert LoadedOrder(ops) == LoadedOrder(Lru.Front(ops));
  }

  lemma LoadShapes(env: Env, v: Vpn, cap: nat)
    requires WS.LoadOk(env, cap) && env.work != []
    ensures WS.ListsOf(WS.LoadInsert(env, v, cap)) == Lru.Load(WS.ListsOf(env), cap, v)
  {
    WS.LoadInsertLists(env, v, cap);
  }

  lemma LoadedPush(ps: seq<Vpn>, v: Vpn, cap: nat)
    ensures Lru.Loaded(ps + [v], cap) == Lru.Load(Lru.Loaded(ps, cap), cap, v)
  {
    assert Lru.Front(ps + [v]) == ps;
  }

  lemma LoadingEnv(s0: State, s: State, e: nat, ram: map<Vpn, Block>, pf: map<Vpn, Block>)
    requires Loading(s0, s, e, ram, pf)
    ensures e in s.envs
  {
  }

  lemma LoadInsertListed(env: Env, v: Vpn, b: Block, cap: nat, ram: map<Vpn, Block>)
    requires WS.LoadOk(env, cap) && env.work != [] && v !in ram && Listed(env, ram)
    ensures var env' := WS.LoadInsert(env, v, cap);
            && WS.LoadOk(env', cap) && Listed(env', ram[v := b])
            && |env'.work| == |env.work| - 1 && env'.A == env.A && env'.S == env.S
  {
    hide WS.LoadOk, WS.Pages, WS.LoadInsert;
    WS.LoadInsertOk(env, v, cap);
  }

  lemma DdirLists(env: Env, f: Frame, cap: nat, ram: map<Vpn, Block>)
    requires Listed(env, ram)
    ensures Listed(env.(ddir := f), ram) && (WS.LoadOk(env, cap) ==> WS.LoadOk(env.(ddir := f), cap))
    ensures WS.ListsOf(env.(ddir := f)) == WS.ListsOf(env)
    ensures WS.EnvOk(env) ==> WS.EnvOk(env.(ddir := f))
  {
    hide WS.Elements, Lru.Ok, WS.WorkInOrder;
    var env' := env.(ddir := f);
    DdirFields(env, f);
    assert WS.ListsOf(env') == WS.ListsOf(env);
    if WS.EnvOk(env) {
      WS.EnvOkFrom(env, env', WS.ListsOf(env));
    }
  }

  lemma DdirFields(env: Env, f: Frame)
    ensures var env' := env.(ddir := f);
            && WS.ListsOf(env') == WS.ListsOf(env) && WS.Elements(env') == WS.Elements(env)
            && (WS.WorkInOrder(env) <==> WS.WorkInOrder(env'))
  {
    var env' := env.(ddir := f);
    WS.PagesSame(env, env', env.active);
    WS.PagesSame(env, env', env.second);
  }

  // ---------- the last part of env_create ----------

  /** Clearing bits is done once and for all. */
  lemma ClearTwice(w: Word, c: Mask)
    ensures Update(Update(w, NONE, c), NONE, c) == Update(w, NONE, c)
  {
  }

  /** m' is m with the bits c cleared in the entries of the given pages of e. */
  ghost predicate Cleared(m: Mem, m': Mem, e: nat, pages: seq<Vpn>, c: Mask) {
    && m'.own == m.own && (forall k :: k in m'.leaf <==> k in m.leaf)
    && (forall k :: k in m.leaf && !(k.0 == Ram(e) && k.1 in pages) ==> m'.leaf[k] == m.leaf[k])
    && (forall v :: v in pages && (Ram(e), v) in m.leaf ==>
          m'.leaf[(Ram(e), v)] == Update(m.leaf[(Ram(e), v)], NONE, c))
  }

  lemma {:induction false} PermsCleared(s: State, e: nat, pages: seq<Vpn>, c: Mask)
    requires Base(s) && e in s.envs
    ensures var s' := Perms(s, e, pages, c);
            && Base(s') && OthersKept(s, s', e) && Cleared(s.m, s'.m, e, pages, c)
            && s' == s.(m := s'.m)
  {
    hide Base, OthersKept, Cleared;
    if pages == [] {
      NoneCleared(s, e, pages, c);
    } else {
      var s1, v := Perms(s, e, Lru.Front(pages), c), Lru.Last(pages);
      PermsCleared(s, e, Lru.Front(pages), c);
      if (Ram(e), v) in s1.m.leaf {
        PermsBase(s1, e, v, NONE, c);
        OthersTrans(s, s1, Perms(s, e, pages, c), e);
      }
      OneMoreCleared(s.m, s1.m, e, pages, c);
    }
  }

  lemma NoneCleared(s: State, e: nat, pages: seq<Vpn>, c: Mask)
    requires pages == []
    ensures OthersKept(s, s, e) && Cleared(s.m, s.m, e, pages, c)
  {
  }

  lemma OneMoreCleared(m: Mem, m1: Mem, e: nat, pages: seq<Vpn>, c: Mask)
    requires pages != [] && Cleared(m, m1, e, Lru.Front(pages), c)
    ensures Cleared(m, SetPerms(m1, e, Lru.Last(pages), NONE, c), e, pages, c)
  {
    var v := Lru.Last(pages);
    assert pages == Lru.Front(pages) + [v];
    assert forall u :: u in pages <==> u in Lru.Front(pages) || u == v;
    if (Ram(e), v) in m.leaf {
      ClearTwice(m.leaf[(Ram(e), v)], c);
    }
  }

  /** Every page in the working set is clean after CleanAll. */
  ghost predicate AllClean(m: Mem, e: nat, ram: map<Vpn, Block>) {
    forall v :: v in ram ==> !Entry(m, Ram(e), v).modified
  }

  lemma CleanAllLoading(s0: State, s: State, e: nat, cap: nat, ram: map<Vpn, Block>, pf: map<Vpn, Block>)
    requires Loading(s0, s, e, ram, pf) && WS.LoadOk(s.envs[e], cap) && Listed(s.envs[e], ram)
    ensures var s' := CleanAll(s, e);
            Loading(s0, s', e, ram, pf) && s'.envs == s.envs && AllClean(s'.m, e, ram)
  {
    hide Base, OthersKept, InRam, InPf, DiskKept, WS.LoadOk, Cleared, AllClean;
    var s', pages := CleanAll(s, e), LoadedPages(s.envs[e]);
    PermsCleared(s, e, pages, MODIFIED);
    OthersTrans(s0, s, s', e);
    CleanRam(s, s', e, ram, pages);
    ClearedPf(s0, s, s', e, pf, pages, MODIFIED);
    ListedLoaded(s.envs[e], cap);
    CleanPages(s.m, s'.m, e, ram, pages);
  }

  lemma CleanRam(s: State, s': State, e: nat, ram: map<Vpn, Block>, pages: seq<Vpn>)
    requires InRam(s, e, ram) && Cleared(s.m, s'.m, e, pages, MODIFIED) && s'.data == s.data
    ensures InRam(s', e, ram)
  {
    forall v | v in ram ensures PuwSet(Entry(s'.m, Ram(e), v)) {
      assert (Ram(e), v) in s.m.leaf;
    }
  }

  lemma ClearedPf(s0: State, s: State, s': State, e: nat, pf: map<Vpn, Block>, pages: seq<Vpn>, c: Mask)
    requires InPf(s, e, pf) && DiskKept(s0, s, e) && s'.disk == s.disk && s'.envs == s.envs && e in s.envs
    requires Cleared(s.m, s'.m, e, pages, c) && DirsLoading(s.m, e, s.envs[e])
    ensures InPf(s', e, pf) && DiskKept(s0, s', e) && DirsLoading(s'.m, e, s'.envs[e])
  {
    LoadPagePf(s0, s, s', e, pf);
  }

  lemma CleanPages(m: Mem, m': Mem, e: nat, ram: map<Vpn, Block>, pages: seq<Vpn>)
    requires Cleared(m, m', e, pages, MODIFIED) && forall v :: v in ram ==> v in pages
    ensures AllClean(m', e, ram)
  {
  }

  lemma ListedLoaded(env: Env, cap: nat)
    requires WS.LoadOk(env, cap)
    ensures forall v :: v in WS.Pages(env) ==> v in LoadedPages(env)
  {
    WS.ElementCount(env);
    forall v | v in WS.Pages(env) ensures v in LoadedPages(env) {
      WS.PageElement(env, v);
      var x :| (x in env.active || x in env.second) && WS.PageAt(env, x) == v;
      WS.UsedElements(env, cap, x);
      assert LoadedPages(env)[x] == v;
    }
  }

  lemma StackLoading(s0: State, s: State, e: nat, ram: map<Vpn, Block>, pf: map<Vpn, Block>, zeroPage: Block)
    requires Loading(s0, s, e, ram, pf) && STACK_PAGE !in ram && s.envs[e].work != []
    requires RoomForFrame(s, e, STACK_PAGE) && |zeroPage| == NPTENTRIES
    requires RoomForFile(LoadPage(s, e, STACK_PAGE, ZeroBlock(), s.envs[e].A), e, STACK_PAGE)
    requires s.envs[e].A >= 1 && WS.LoadOk(s.envs[e], s.envs[e].A - 1) && Listed(s.envs[e], ram)
    ensures var s', env := AddStack(s, e, zeroPage), s.envs[e];
            && Loading(s0, s', e, ram[STACK_PAGE := ZeroBlock()], pf[STACK_PAGE := zeroPage])
            && s'.envs[e].ddir != 0 && WS.EnvOk(s'.envs[e]) && Listed(s'.envs[e], ram[STACK_PAGE := ZeroBlock()])
            && s'.envs[e].A == env.A && s'.envs[e].S == env.S && WS.Capacity(s'.envs[e]) == env.A + env.S
            && WS.ListsOf(s'.envs[e]) == Lru.Load(WS.ListsOf(env), env.A, STACK_PAGE)
            && Entry(s'.m, Ram(e), STACK_PAGE).modified
            && forall v :: v != STACK_PAGE ==> Entry(s'.m, Ram(e), v) == Entry(s.m, Ram(e), v)
  {
    hide Loading, Listed, WS.LoadOk, WS.EnvOk, WS.LoadInsert, WS.ListsOf, LoadPage, PfPut;
    LoadingEnv(s0, s, e, ram, pf);
    var env, v, b := s.envs[e], STACK_PAGE, ZeroBlock();
    LoadPageLoading(s0, s, e, v, b, env.A, ram, pf);
    var s1 := LoadPage(s, e, v, b, env.A);
    PfPutLoading(s0, s1, e, v, zeroPage, ram[v := b], pf);
    LoadingEnv(s0, s1, e, ram[v := b], pf);
    LoadingEnv(s0, PfPut(s1, e, v, zeroPage), e, ram[v := b], pf[v := zeroPage]);
    StackListed(env, ram);
    DdirLists(s1.envs[e], PfPut(s1, e, v, zeroPage).envs[e].ddir, env.A, ram[v := b]);
    LoadModifies(s, e, v, b, env.A);
    PutEntries(s1, e, v, zeroPage, v);
    forall u | u != v ensures Entry(AddStack(s, e, zeroPage).m, Ram(e), u) == Entry(s.m, Ram(e), u) {
      PutEntries(s1, e, v, zeroPage, u);
      LoadOthers(s, e, v, b, env.A, u);
    }
  }

  /** A page written through its mapping is MODIFIED. */
  lemma LoadModifies(s: State, e: nat, v: Vpn, b: Block, cap: nat)
    requires e in s.envs && s.envs[e].work != []
    ensures Entry(LoadPage(s, e, v, b, cap).m, Ram(e), v).modified
  {
    hide EnsureTable, Unmapped, Alloc;
  }

  lemma LoadOthers(s: State, e: nat, v: Vpn, b: Block, cap: nat, u: Vpn)
    requires u != v
    ensures Entry(LoadPage(s, e, v, b, cap).m, Ram(e), u) == Entry(s.m, Ram(e), u)
  {
    assert EnsureTable(Alloc(s.m), Ram(e), v.d).leaf == s.m.leaf;
  }

  /** Writing to the page file changes no entry of a page table. */
  lemma PutEntries(s: State, e: nat, v: Vpn, b: Block, u: Vpn)
    ensures Entry(PfPut(s, e, v, b).m, Ram(e), u) == Entry(s.m, Ram(e), u)
  {
    assert DiskDir(s, e).m.leaf == s.m.leaf;
    assert SwapTable(DiskDir(s, e), e, v.d).m.leaf == s.m.leaf;
  }

  lemma StackListed(env: Env, ram: map<Vpn, Block>)
    requires env.A >= 1 && WS.LoadOk(env, env.A - 1) && Listed(env, ram) && env.work != [] && STACK_PAGE !in ram
    ensures var env' := WS.LoadInsert(env, STACK_PAGE, env.A);
            && WS.EnvOk(env') && Listed(env', ram[STACK_PAGE := ZeroBlock()])
            && env'.A == env.A && env'.S == env.S && WS.Capacity(env') == env.A + env.S
            && WS.ListsOf(env') == Lru.Load(WS.ListsOf(env), env.A, STACK_PAGE)
  {
    hide WS.LoadInsert, WS.PagesOf;
    WS.LoadInsertLists(env, STACK_PAGE, env.A);
    hide WS.LoadOk, WS.EnvOk;
    WS.LoadDone(env, STACK_PAGE);
    hide WS.ListsOf;
    LoadedMembers(WS.ListsOf(env), env.A, STACK_PAGE);
    hide Lru.Load;
  }

  lemma LoadedMembers(l: Lru.Lists<Vpn>, cap: nat, v: Vpn)
    ensures forall u :: u in Lru.Load(l, cap, v).All() <==> u in l.All() || u == v
  {
  }

  /** Once the pages of SecondList are no longer PRESENT, the new environment obeys the invariant. */
  lemma HideSecondInv(s0: State, s: State, e: nat, ram: map<Vpn, Block>, pf: map<Vpn, Block>)
    requires Loading(s0, s, e, ram, pf) && WS.EnvOk(s.envs[e]) && Listed(s.envs[e], ram) && s.envs[e].ddir != 0
    requires forall v :: v in ram ==> v in pf
    ensures var s' := HideSecond(s, e);
            && Base(s') && OthersKept(s0, s', e) && DiskKept(s0, s', e) && EnvInv(s', e) && s'.envs == s.envs
            && s'.data == s.data && InPf(s', e, pf)
            && (forall v :: Entry(s'.m, Ram(e), v).modified == Entry(s.m, Ram(e), v).modified)
            && (forall v :: (Ram(e), v) in s'.m.leaf <==> (Ram(e), v) in s.m.leaf)
  {
    hide Base, OthersKept, InPf, DiskKept, WS.EnvOk, Cleared, InRam, Linked;
    var env, s' := s.envs[e], HideSecond(s, e);
    var l := WS.ListsOf(env);
    PermsCleared(s, e, l.second, PRESENT);
    OthersTrans(s0, s, s', e);
    ClearedPf(s0, s, s', e, pf, l.second, PRESENT);
    WS.EnvFacts(env);
    LinkedLoaded(s, s'.m, e, l, env.A, env.S, ram, pf);
    ClearedModified(s.m, s'.m, e, l.second);
    assert EnvInv(s', e);
  }

  /** The pages env_create puts into SecondList lose PRESENT and nothing else. */
  lemma HiddenBits(s: State, e: nat, v: Vpn)
    requires Base(s) && e in s.envs
    ensures var w := Entry(s.m, Ram(e), v);
            Entry(HideSecond(s, e).m, Ram(e), v) ==
              if v in WS.ListsOf(s.envs[e]).second && (Ram(e), v) in s.m.leaf then w.(present := false) else w
  {
    hide Base;
    PermsCleared(s, e, WS.PagesOf(s.envs[e], s.envs[e].second), PRESENT);
  }

  lemma ClearedModified(m: Mem, m': Mem, e: nat, pages: seq<Vpn>)
    requires Cleared(m, m', e, pages, PRESENT)
    ensures forall v :: Entry(m', Ram(e), v).modified == Entry(m, Ram(e), v).modified
    ensures forall v :: (Ram(e), v) in m'.leaf <==> (Ram(e), v) in m.leaf
  {
  }

  lemma LinkedLoaded(s: State, m': Mem, e: nat, l: Lru.Lists<Vpn>, A: nat, S: nat, ram: map<Vpn, Block>,
                     pf: map<Vpn, Block>)
    requires InRam(s, e, ram) && InPf(s, e, pf) && Cleared(s.m, m', e, l.second, PRESENT) && Distinct(l.All())
    requires (forall v :: v in l.All() <==> v in ram) && (forall v :: v in ram ==> v in pf)
    ensures Linked(m', s.data, e, l)
  {
    hide Distinct, InRam, InPf, Cleared;
    ListMembers(l);
    LoadedEntries(s, m', e, l.second, ram, pf);
  }

  lemma ListMembers(l: Lru.Lists<Vpn>)
    requires Distinct(l.All())
    ensures forall v :: v in l.All() <==> v in l.active || v in l.second
    ensures forall v :: v in l.active ==> v !in l.second
  {
    Lru.DistinctAppend(l.active, l.second);
  }

  lemma LoadedEntries(s: State, m': Mem, e: nat, second: seq<Vpn>, ram: map<Vpn, Block>, pf: map<Vpn, Block>)
    requires InRam(s, e, ram) && InPf(s, e, pf) && Cleared(s.m, m', e, second, PRESENT)
    ensures forall v :: (e, v) in s.data <==> v in ram
    ensures forall v :: v in ram ==> UserPage(v)
    ensures forall v :: v in pf ==> (Swap(e), v) in m'.leaf
    ensures forall v :: (Ram(e), v) in m'.leaf <==> v in ram
    ensures forall v :: v in ram ==> if v in second then !Entry(m', Ram(e), v).present else PuwSet(Entry(m', Ram(e), v))
  {
  }

  // ---------- the theorem ----------

  /** A free frame whenever env_create needs one, and a free disk frame whenever the page file does. */
  ghost predicate RoomToCreate(s: State, e: nat, A: nat, S: nat, ops: seq<Step>)
    requires A >= 1
  {
    && s.m.free != [] && RoomToLoad(InitEnv(s, e, A, S), e, ops, A - 1)
    && var s1 := CleanAll(LoadAll(InitEnv(s, e, A, S), e, ops, A - 1), e);
       RoomForFrame(s1, e, STACK_PAGE) && RoomForFile(LoadPage(s1, e, STACK_PAGE, ZeroBlock(), A), e, STACK_PAGE)
  }

  /** What is loaded into memory is in the page file, too. */
  ghost predicate Covered(ops: seq<Step>) {
    forall v :: v in Image(ops) ==> v in FileImage(ops)
  }

  /** The flat memory of a program just loaded: a zeroed stack page, and of the program's pages all words in which
      memory, if the page was loaded, and page file agree. */
  ghost function ProgramMemory(e: nat, ops: seq<Step>): Flat {
    PageMemory(e, Image(ops)[STACK_PAGE := ZeroBlock()], FileImage(ops)[STACK_PAGE := ZeroBlock()])
  }

  ghost function PageMemory(e: nat, ram: map<Vpn, Block>, pf: map<Vpn, Block>): Flat {
    map v, i | v in pf && 0 <= i < |pf[v]| && (v in ram ==> i < |ram[v]| && ram[v][i] == pf[v][i]) ::
      (e, v, i) := pf[v][i]
  }

  ghost function WithoutEnv(flat: Flat, e: nat): Flat {
    map k | k in flat && k.0 != e :: flat[k]
  }

  /** The working set of a new environment: every element is in some list, and the lists hold the program's pages in
      the order they were loaded, as far as they fit, and the stack page as the most recent one; nothing has been
      placed yet. */
  ghost predicate NewWorkingSet(env: Env, A: nat, S: nat, ops: seq<Step>)
    requires A >= 1
  {
    && env.A == A && env.S == S && WS.Capacity(env) == A + S && Listed(env, Image(ops)[STACK_PAGE := ZeroBlock()])
    && WS.ListsOf(env) == Lru.Load(Lru.Loaded(LoadedOrder(ops), A - 1), A, STACK_PAGE)
  }

  /** env_create keeps the invariant, touches no other environment, and the new environment's memory
      is the program's image and a zeroed stack page, whatever the kernel's zero page holds: the stack page
      is MODIFIED. */
  lemma CreateInv(s: State, e: nat, A: nat, S: nat, segs: seq<Segment>, zeroPage: Block, flat: Flat)
    requires Inv(s) && e !in s.envs && A >= 1 && Agrees(s, flat) && |zeroPage| == NPTENTRIES
    requires ProgramOk(Steps(segs, A + S - 1)) && Covered(Steps(segs, A + S - 1))
    requires RoomToCreate(s, e, A, S, Steps(segs, A + S - 1))
    ensures var s', ops := Create(s, e, A, S, segs, zeroPage), Steps(segs, A + S - 1);
            && Inv(s') && OthersKept(s, s', e) && e in s'.envs && NewWorkingSet(s'.envs[e], A, S, ops)
            && Agrees(s', WithoutEnv(flat, e) + ProgramMemory(e, ops))
            && InPf(s', e, FileImage(ops)[STACK_PAGE := zeroPage])
            && forall v :: v != STACK_PAGE ==> !Entry(s'.m, Ram(e), v).modified
  {
    hide Base, OthersKept, InPf, DiskKept, EnvInv, InRam, Agrees, NewWorkingSet, HideSecond, CleanAll, AddStack,
         ProgramMemory, PageMemory;
    var ops := Steps(segs, A + S - 1);
    var s4 := AddStack(CleanAll(LoadAll(InitEnv(s, e, A, S), e, ops, A - 1), e), e, zeroPage);
    var ram, pf := Image(ops)[STACK_PAGE := ZeroBlock()], FileImage(ops)[STACK_PAGE := zeroPage];
    CreateSteps(s, e, A, S, segs, ops, zeroPage);
    HideSecondInv(s, s4, e, ram, pf);
    var s' := HideSecond(s4, e);
    CreatedInv(s, s', e);
    FilePageSizes(ops);
    CreatedAgrees(s, s4, s', e, ram, pf, FileImage(ops)[STACK_PAGE := ZeroBlock()], flat);
    MemoryOf(e, ops);
  }

  lemma MemoryOf(e: nat, ops: seq<Step>)
    ensures ProgramMemory(e, ops) ==
              PageMemory(e, Image(ops)[STACK_PAGE := ZeroBlock()], FileImage(ops)[STACK_PAGE := ZeroBlock()])
  {
  }

  lemma CreateSteps(s: State, e: nat, A: nat, S: nat, segs: seq<Segment>, ops: seq<Step>, zeroPage: Block)
    requires Base(s) && e !in s.envs && A >= 1 && ops == Steps(segs, A + S - 1) && |zeroPage| == NPTENTRIES
    requires ProgramOk(ops) && RoomToCreate(s, e, A, S, ops)
    ensures var s4 := AddStack(CleanAll(LoadAll(InitEnv(s, e, A, S), e, ops, A - 1), e), e, zeroPage);
            && Loading(s, s4, e, Image(ops)[STACK_PAGE := ZeroBlock()], FileImage(ops)[STACK_PAGE := zeroPage])
            && WS.EnvOk(s4.envs[e]) && s4.envs[e].ddir != 0 && NewWorkingSet(s4.envs[e], A, S, ops)
            && Listed(s4.envs[e], Image(ops)[STACK_PAGE := ZeroBlock()])
            && Entry(s4.m, Ram(e), STACK_PAGE).modified
            && forall v :: v != STACK_PAGE ==> !Entry(s4.m, Ram(e), v).modified
  {
    hide Loading, WS.EnvOk, WS.LoadOk, LoadAll, CleanAll, AddStack, InitEnv, WS.NewEnv, RoomForFrame, RoomForFile,
         LoadPage, Listed, WS.ListsOf, RoomToLoad, Base, Image, FileImage, Frames, ProgramOk, Steps, LoadedOrder;
    InitLoading(s, e, A, S);
    var s1 := InitEnv(s, e, A, S);
    LoadingEnv(s, s1, e, map[], map[]);
    NewListed(s.m.free[0], A, S);
    StepsFit(segs, A + S - 1);
    LoadAllOk(s, s1, e, ops, A - 1);
    var s2 := LoadAll(s1, e, ops, A - 1);
    LoadingEnv(s, s2, e, Image(ops), FileImage(ops));
    CleanAllLoading(s, s2, e, A - 1, Image(ops), FileImage(ops));
    var s3 := CleanAll(s2, e);
    LoadingEnv(s, s3, e, Image(ops), FileImage(ops));
    NoStackPage(ops);
    AllEntriesClean(s, s3, e, Image(ops), FileImage(ops));
    StackLoading(s, s3, e, Image(ops), FileImage(ops), zeroPage);
    LoadingEnv(s, AddStack(s3, e, zeroPage), e, Image(ops)[STACK_PAGE := ZeroBlock()],
               FileImage(ops)[STACK_PAGE := zeroPage]);
  }

  lemma AllEntriesClean(s0: State, s: State, e: nat, ram: map<Vpn, Block>, pf: map<Vpn, Block>)
    requires Loading(s0, s, e, ram, pf) && AllClean(s.m, e, ram)
    ensures forall v :: !Entry(s.m, Ram(e), v).modified
  {
  }

  lemma NewListed(dir: Frame, A: nat, S: nat)
    requires A >= 1
    ensures var env := WS.NewEnv(dir, A, S);
            && WS.LoadOk(env, A - 1) && Listed(env, map[]) && |env.work| == A + S && env.A == A && env.S == S
            && WS.ListsOf(env) == Lru.Empty()
  {
    WS.NewEnvOk(dir, A, S);
    hide WS.LoadOk;
  }

  lemma {:induction false} NoStackPage(ops: seq<Step>)
    requires ProgramOk(ops)
    ensures STACK_PAGE !in Image(ops)
  {
    if ops != [] {
      NoStackPage(Lru.Front(ops));
    }
  }

  lemma CreatedInv(s: State, s': State, e: nat)
    requires Inv(s) && OthersKept(s, s', e) && Base(s') && EnvInv(s', e)
    ensures Inv(s')
  {
    StepInv(s, s', e);
  }

  lemma {:induction false} FilePageSizes(ops: seq<Step>)
    requires ProgramOk(ops)
    ensures forall v :: v in FileImage(ops) ==> |FileImage(ops)[v]| == NPTENTRIES
  {
    if ops != [] {
      FilePageSizes(Lru.Front(ops));
    }
  }

  /** ram is in memory and pf in the page file; the flat memory is image, which differs from pf in the
      stack page only. */
  lemma CreatedAgrees(s: State, s4: State, s': State, e: nat, ram: map<Vpn, Block>, pf: map<Vpn, Block>,
                      image: map<Vpn, Block>, flat: Flat)
    requires Agrees(s, flat) && OthersKept(s, s', e) && DiskKept(s, s', e) && e in s'.envs
    requires InPf(s', e, pf) && forall v :: v in image ==> |image[v]| == NPTENTRIES
    requires forall v :: v in image <==> v in pf
    requires forall v :: v in image && v != STACK_PAGE ==> image[v] == pf[v]
    requires forall v :: v in ram ==> v in image
    requires InRam(s4, e, ram) && s'.data == s4.data
    requires forall v :: (Ram(e), v) in s'.m.leaf <==> (Ram(e), v) in s4.m.leaf
    requires STACK_PAGE in ram && Entry(s'.m, Ram(e), STACK_PAGE).modified
    ensures Agrees(s', WithoutEnv(flat, e) + PageMemory(e, ram, image))
  {
    var flat' := WithoutEnv(flat, e) + PageMemory(e, ram, image);
    forall k | k in flat' ensures WordAgrees(s', k.0, k.1, k.2, flat'[k]) {
      if k in PageMemory(e, ram, image) {
        NewWord(s', e, k.1, k.2, ram, pf, image);
      } else {
        OldWord(s, s', e, k.0, k.1, k.2, flat[k]);
      }
    }
  }

  lemma NewWord(s': State, e: nat, v: Vpn, i: nat, ram: map<Vpn, Block>, pf: map<Vpn, Block>, image: map<Vpn, Block>)
    requires v in pf && v in image && i < |image[v]| == NPTENTRIES && InPf(s', e, pf) && e in s'.envs
    requires v in ram ==> i < |ram[v]| && ram[v][i] == image[v][i]
    requires image[v] == pf[v] || (v in ram && (Ram(e), v) in s'.m.leaf && s'.m.leaf[(Ram(e), v)].modified)
    requires (e, v) in s'.data <==> v in ram
    requires v in ram ==> (e, v) in s'.data && s'.data[(e, v)] == ram[v]
    ensures WordAgrees(s', e, v, i, image[v][i])
  {
  }

  lemma OldWord(s: State, s': State, e: nat, e1: nat, v: Vpn, i: nat, w: Word)
    requires WordAgrees(s, e1, v, i, w) && OthersKept(s, s', e) && DiskKept(s, s', e) && e1 != e
    ensures WordAgrees(s', e1, v, i, w)
  {
    assert forall k: (Space, Vpn) :: k == (Ram(e1), v) || k == (Swap(e1), v) ==> k.0.e != e;
  }

  // ---------- the same program with two working-set sizes ----------

  function PageNumbers(ps: seq<(Vpn, Block)>): seq<Vpn> {
    seq(|ps|, i requires 0 <= i < |ps| => ps[i].0)
  }

  /** The pages that go to memory, in order, with room for that many. */
  function MemoryOrder(segs: seq<Segment>, remaining: nat): seq<Vpn> {
    if segs == [] then []
    else
      var k := LoadCount(segs[0], remaining);
      PageNumbers(segs[0].mem[..k]) + MemoryOrder(segs[1..], remaining - k)
  }

  lemma {:induction false} OrderConcat(a: seq<Step>, b: seq<Step>)
    ensures LoadedOrder(a + b) == LoadedOrder(a) + LoadedOrder(b)
  {
    if b == [] {
      assert a + b == a;
    } else {
      assert Lru.Front(a + b) == a + Lru.Front(b) && Lru.Last(a + b) == Lru.Last(b);
      OrderConcat(a, Lru.Front(b));
    }
  }

  lemma {:induction false} OrderInMemory(ps: seq<(Vpn, Block)>)
    ensures LoadedOrder(InMemorySteps(ps)) == PageNumbers(ps)
    decreases |ps|
  {
    if ps != [] {
      var p := ps[..|ps| - 1];
      assert Lru.Front(InMemorySteps(ps)) == InMemorySteps(p);
      OrderInMemory(p);
      assert PageNumbers(ps) == PageNumbers(p) + [ps[|ps| - 1].0];
    }
  }

  lemma {:induction false} OrderInFile(a: seq<Step>)
    requires forall i :: 0 <= i < |a| ==> a[i].InFile?
    ensures LoadedOrder(a) == []
  {
    if a != [] {
      OrderInFile(Lru.Front(a));
    }
  }

  lemma {:induction false} OrderOfSteps(segs: seq<Segment>, remaining: nat)
    ensures LoadedOrder(Steps(segs, remaining)) == MemoryOrder(segs, remaining)
  {
    if segs != [] {
      var k := LoadCount(segs[0], remaining);
      OrderOfSteps(segs[1..], remaining - k);
      var a, b := InMemorySteps(segs[0].mem[..k]), InFileSteps(segs[0].file);
      OrderInMemory(segs[0].mem[..k]);
      OrderInFile(b);
      hide LoadedOrder, InMemorySteps, InFileSteps, LoadCount, PageNumbers;
      OrderConcat(a, b);
      OrderConcat(a + b, Steps(segs[1..], remaining - k));
      assert PageNumbers(segs[0].mem[..k]) + [] == PageNumbers(segs[0].mem[..k]);
    }
  }

  lemma {:induction false} NoRoom(segs: seq<Segment>)
    ensures MemoryOrder(segs, 0) == []
  {
    if segs != [] {
      NoRoom(segs[1..]);
    }
  }

  /** With less room a prefix of the same pages is loaded, and less than all of them only if the room is used up. */
  lemma {:induction false} OrderPrefix(segs: seq<Segment>, r1: nat, r2: nat)
    requires r1 <= r2
    ensures var p1, p2 := MemoryOrder(segs, r1), MemoryOrder(segs, r2);
            && |p1| <= |p2| && p1 == p2[..|p1|] && (|p1| < |p2| ==> |p1| == r1)
  {
    if segs != [] {
      var k1, k2 := LoadCount(segs[0], r1), LoadCount(segs[0], r2);
      var q1, q2 := PageNumbers(segs[0].mem[..k1]), PageNumbers(segs[0].mem[..k2]);
      assert q1 == q2[..k1];
      if k1 < k2 {
        assert k1 == r1;
        NoRoom(segs[1..]);
      } else {
        OrderPrefix(segs[1..], r1 - k1, r2 - k2);
      }
    }
  }

  /** The same pages go to memory, with contents that may differ. */
  ghost predicate SamePages(a: seq<Segment>, b: seq<Segment>) {
    |a| == |b| && forall i :: 0 <= i < |a| ==> PageNumbers(a[i].mem) == PageNumbers(b[i].mem) && a[i].low == b[i].low
  }

  lemma {:induction false} SameOrder(a: seq<Segment>, b: seq<Segment>, remaining: nat)
    requires SamePages(a, b)
    ensures MemoryOrder(a, remaining) == MemoryOrder(b, remaining)
  {
    if a != [] {
      var k := LoadCount(a[0], remaining);
      assert |PageNumbers(a[0].mem)| == |PageNumbers(b[0].mem)|;
      assert k == LoadCount(b[0], remaining);
      assert PageNumbers(a[0].mem[..k]) == PageNumbers(a[0].mem)[..k];
      assert PageNumbers(b[0].mem[..k]) == PageNumbers(b[0].mem)[..k];
      hide PageNumbers, LoadCount;
      SameOrder(a[1..], b[1..], remaining - k);
    }
  }

  /** The lists env_create leaves for the same program, with the same ActiveListSize and a smaller and a larger
      SecondListSize: nested, and nothing placed in either. */
  lemma CreateNested(env1: Env, env2: Env, A: nat, S1: nat, S2: nat, segs1: seq<Segment>, segs2: seq<Segment>)
    requires A >= 1 && S1 <= S2 && SamePages(segs1, segs2)
    requires NewWorkingSet(env1, A, S1, Steps(segs1, A + S1 - 1))
    requires NewWorkingSet(env2, A, S2, Steps(segs2, A + S2 - 1))
    ensures Lru.Nested(WS.ListsOf(env1), WS.ListsOf(env2), A + S1) && env1.nIn == env2.nIn == 0
  {
    hide MemoryOrder, Steps, LoadedOrder, NewWorkingSet, WS.ListsOf, Lru.Loaded, Lru.Load, Lru.Nested, SamePages;
    var p1, p2 := MemoryOrder(segs1, A + S1 - 1), MemoryOrder(segs2, A + S2 - 1);
    OrderOfSteps(segs1, A + S1 - 1);
    OrderOfSteps(segs2, A + S2 - 1);
    SameOrder(segs1, segs2, A + S1 - 1);
    OrderPrefix(segs2, A + S1 - 1, A + S2 - 1);
    SeededLists(env1, A, S1, Steps(segs1, A + S1 - 1));
    SeededLists(env2, A, S2, Steps(segs2, A + S2 - 1));
    Lru.SeededNested(p1, p2, A, A + S1, STACK_PAGE);
  }

  lemma SeededLists(env: Env, A: nat, S: nat, ops: seq<Step>)
    requires A >= 1 && NewWorkingSet(env, A, S, ops)
    ensures WS.ListsOf(env) == Lru.Load(Lru.Loaded(LoadedOrder(ops), A - 1), A, STACK_PAGE)
    ensures env.nIn == WS.ListsOf(env).nIn
  {
  }
}

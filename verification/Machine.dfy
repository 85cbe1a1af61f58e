/** The demand-paging machine on values: RAM frames, tables, the page file and the environments'
    working sets, and what each kernel operation does to them. */
module Machine {
  import opened Seqs
  import opened Mmu
  import opened FrameTable
  import Lru
  import WS = WorkingSet

  type Env = WS.Env

  datatype State = State(
    m: Mem,
    data: map<(nat, Vpn), Block>,    // the contents of the resident pages
    disk: map<Word, Block>,          // the contents of the disk frames
    dfree: seq<Word>,                // disk_free_frame_list, head first
    envs: map<nat, Env>)

  /** The environment an owner belongs to. */
  function OwnerEnv(o: Owner): nat
    requires !o.Boot?
  {
    match o
    case Dir(sp) => sp.e
    case Table(sp, _) => sp.e
    case Page(e, _) => e
  }

  predicate OwnedBy(o: Owner, e: nat) {
    !o.Boot? && OwnerEnv(o) == e
  }

  // ---------- the page file (kern/file_manager.c) ----------

  /** get_disk_page_directory: the disk directory is created the first time it is needed. */
  function DiskDir(s: State, e: nat): State {
    if e !in s.envs || s.envs[e].ddir != 0 || s.m.free == [] then s
    else
      var f := FirstFree(s.m);
      s.(m := Use(Alloc(s.m), Dir(Swap(e)), f), envs := s.envs[e := s.envs[e].(ddir := f)])
  }

  /** The disk frame of a page that has a disk table: its own, or the first free one. */
  function NewDfn(s: State, e: nat, v: Vpn): State {
    if (Swap(e), v) in s.m.leaf || s.dfree == [] then s
    else s.(m := s.m.(leaf := s.m.leaf[(Swap(e), v) := s.dfree[0]]), dfree := s.dfree[1..])
  }

  function SwapTable(s: State, e: nat, d: nat): State {
    s.(m := EnsureTable(s.m, Swap(e), d))
  }

  /** pf_add_empty_env_page(e, v, 0): the page gets a disk frame, whose contents stay as they are. */
  function PfAdd(s: State, e: nat, v: Vpn): State {
    NewDfn(SwapTable(DiskDir(s, e), e, v.d), e, v)
  }

  /** The contents of the disk frame of a page. */
  function OnDisk(s: State, e: nat, v: Vpn): Block {
    if (Swap(e), v) in s.m.leaf && s.m.leaf[(Swap(e), v)] in s.disk then s.disk[s.m.leaf[(Swap(e), v)]] else ZeroBlock()
  }

  function PfWrite(s: State, e: nat, v: Vpn, b: Block): State {
    if (Swap(e), v) in s.m.leaf then s.(disk := s.disk[s.m.leaf[(Swap(e), v)] := b]) else s
  }

  // ---------- the page fault handler (kern/trap.c) ----------

  function SetEnv(s: State, e: nat, env: Env): State {
    s.(envs := s.envs[e := env])
  }

  /** Writing back the page if its MODIFIED bit is set. */
  function WriteBack(s: State, e: nat, v: Vpn): State {
    if Entry(s.m, Ram(e), v).modified && (e, v) in s.data then PfWrite(s, e, v, s.data[(e, v)]) else s
  }

  /** Releasing page v: it is written back if MODIFIED, and unmapped. */
  function ReleasePage(s: State, e: nat, v: Vpn): State {
    WriteBack(s, e, v).(m := Unmapped(s.m, e, v), data := s.data - {(e, v)})
  }

  /** Releasing the victim. */
  function EvictPage(s: State, e: nat): State {
    if e !in s.envs || !WS.HasVictim(s.envs[e]) then s
    else
      var env := s.envs[e];
      var v := WS.PageAt(env, WS.Victim(env));
      var out := if Entry(s.m, Ram(e), v).modified then 1 else 0;
      SetEnv(ReleasePage(s, e, v), e, WS.Evict(env).(nOut := env.nOut + out))
  }

  /** A frame is allocated and mapped; it holds whatever it held before. */
  function MapNew(s: State, e: nat, v: Vpn, junk: Block): State {
    s.(m := Mapped(Alloc(s.m), e, v, FirstFree(s.m)), data := s.data[(e, v) := junk])
  }

  /** pf_read_env_page, or pf_add_empty_env_page for a stack page seen for the first time. */
  function FillPage(s: State, e: nat, v: Vpn): State {
    if (Swap(e), v) in s.m.leaf then
      s.(data := s.data[(e, v) := OnDisk(s, e, v)], m := SetPerms(s.m, e, v, NONE, MODIFIED))
    else PfAdd(s, e, v)
  }

  /** The permission changes when the last page of a full ActiveList makes room for v. */
  function DemoteFor(s: State, e: nat, env: Env, v: Vpn): State {
    if |env.active| < env.A || env.active == [] then s
    else
      var u := WS.PageAt(env, Lru.Last(env.active));
      s.(m := SetPerms(SetPerms(s.m, e, u, NONE, PUW), e, v, PUW, NONE))
  }

  /** Placement. */
  function PlacePage(s: State, e: nat, v: Vpn, junk: Block): State {
    if e !in s.envs || s.envs[e].work == [] then s
    else
      var s1 := FillPage(MapNew(s, e, v, junk), e, v);
      if e !in s1.envs || s1.envs[e].work == [] then s1
      else SetEnv(DemoteFor(s1, e, s1.envs[e], v), e, WS.Place(s1.envs[e], v))
  }

  /** The branch of page_fault_handler for a page of SecondList. */
  function PromotePage(s: State, e: nat, v: Vpn, i: nat): State
    requires e in s.envs && i < |s.envs[e].second| && s.envs[e].active != []
  {
    var env := s.envs[e];
    var u := WS.PageAt(env, Lru.Last(env.active));
    SetEnv(s.(m := SetPerms(SetPerms(s.m, e, v, PUW, NONE), e, u, NONE, PUW)), e, WS.Promote(env, i))
  }

  /** page_fault_handler. */
  function PageFault(s: State, e: nat, v: Vpn, junk: Block): State {
    if e !in s.envs then s
    else
      var env := s.envs[e];
      var i := WS.Find(env, env.second, v);
      if i < |env.second| && env.active != [] then PromotePage(s, e, v, i)
      else if env.work != [] then PlacePage(s, e, v, junk)
      else PlacePage(EvictPage(s, e), e, v, junk)
  }

  /** table_fault_handler. */
  function TableFault(s: State, e: nat, d: nat): State {
    s.(m := EnsureTable(s.m, Ram(e), d))
  }

  /** What a user access does before it succeeds: a table fault if the directory entry is not
      PRESENT, then a page fault if the page is not. */
  function Touch(s: State, e: nat, v: Vpn, junk: Block): State {
    if Entry(s.m, Ram(e), v).present then s
    else PageFault(TableFault(s, e, v.d), e, v, junk)
  }

  /** A user store of one word. */
  function Store(s: State, e: nat, v: Vpn, i: nat, w: Word, junk: Block): State {
    var s1 := Touch(s, e, v, junk);
    if (e, v) in s1.data && i < |s1.data[(e, v)]| then
      s1.(data := s1.data[(e, v) := s1.data[(e, v)][i := w]], m := SetPerms(s1.m, e, v, MODIFIED, NONE))
    else s1
  }

  /** A user load of one word. */
  function Load(s: State, e: nat, v: Vpn, i: nat, junk: Block): Word {
    var s1 := Touch(s, e, v, junk);
    if (e, v) in s1.data && i < |s1.data[(e, v)]| then s1.data[(e, v)][i] else ZERO
  }

  // ---------- the invariant ----------

  /** In this machine no frame is shared. */
  ghost predicate Injective(own: map<Owner, Frame>) {
    forall o, o' :: o in own && o' in own && own[o] == own[o'] ==> o == o'
  }

  /** Disk frames are never shared or lost: the free list and the table entries of all environments
      partition them. */
  ghost predicate DiskOk(leaf: map<(Space, Vpn), Word>, dfree: seq<Word>, disk: map<Word, Block>) {
    && Distinct(dfree)
    && (forall d :: d in dfree ==> d in disk)
    && (forall k :: k in leaf && k.0.Swap? ==> leaf[k] in disk && leaf[k] !in dfree)
    && (forall k, k' :: k in leaf && k' in leaf && k.0.Swap? && k'.0.Swap? && leaf[k] == leaf[k'] ==> k == k')
    && (forall d :: d in disk ==> d != ZERO && (d in dfree || exists k :: k in leaf && k.0.Swap? && leaf[k] == d))
  }

  ghost predicate Blocks(s: State) {
    && (forall k :: k in s.data ==> |s.data[k]| == NPTENTRIES)
    && (forall d :: d in s.disk ==> |s.disk[d]| == NPTENTRIES)
  }

  /** What holds of memory and disk at every moment, also inside the handler. */
  ghost predicate Base(s: State) {
    && MemOk(s.m) && Injective(s.m.own) && s.m.limbo == {}
    && DiskOk(s.m.leaf, s.dfree, s.disk) && Blocks(s)
    && (forall o :: o in s.m.own && !o.Boot? ==> OwnerEnv(o) in s.envs)
    && (forall k :: k in s.data ==> k.0 in s.envs)
  }

  ghost predicate DirsOk(m: Mem, e: nat, env: Env) {
    && Dir(Ram(e)) in m.own && m.own[Dir(Ram(e))] == env.dir
    && Dir(Swap(e)) in m.own && m.own[Dir(Swap(e))] == env.ddir && env.ddir != 0
  }

  /** The entries of an environment agree with its lists: a page's entry is nonzero iff it is in
      ActiveList or SecondList, and PRESENT iff it is in ActiveList; every resident page has a disk frame. */
  ghost predicate Linked(m: Mem, data: map<(nat, Vpn), Block>, e: nat, l: Lru.Lists<Vpn>) {
    && (forall v :: (Ram(e), v) in m.leaf <==> v in l.All())
    && (forall v :: v in l.active ==> v in l.All() && PuwSet(Entry(m, Ram(e), v)))
    && (forall v :: v in l.second ==> v in l.All() && !Entry(m, Ram(e), v).present)
    && (forall v :: v in l.All() ==> (Swap(e), v) in m.leaf && UserPage(v))
    && (forall v :: (e, v) in data <==> (Ram(e), v) in m.leaf)
  }

  predicate PuwSet(w: Word) {
    w.present && w.writeable && w.user
  }

  ghost predicate EnvInv(s: State, e: nat) {
    e in s.envs && WS.EnvOk(s.envs[e]) && DirsOk(s.m, e, s.envs[e]) && Linked(s.m, s.data, e, WS.ListsOf(s.envs[e]))
  }

  ghost predicate Inv(s: State) {
    Base(s) && forall e {:trigger EnvInv(s, e)} :: e in s.envs ==> EnvInv(s, e)
  }

  /** Nothing about any other environment changed. */
  ghost predicate OthersKept(s: State, s': State, e: nat) {
    && (forall e1 :: e1 != e ==> (e1 in s.envs <==> e1 in s'.envs))
    && (forall e1 :: e1 != e && e1 in s.envs ==> s'.envs[e1] == s.envs[e1])
    && (forall k: (Space, Vpn) :: k.0.e != e ==> (k in s.m.leaf <==> k in s'.m.leaf))
    && (forall k: (Space, Vpn) :: k.0.e != e && k in s.m.leaf ==> s'.m.leaf[k] == s.m.leaf[k])
    && (forall e1, v :: e1 != e ==> ((e1, v) in s.data <==> (e1, v) in s'.data))
    && (forall e1, v :: e1 != e && (e1, v) in s.data ==> s'.data[(e1, v)] == s.data[(e1, v)])
    && (forall o :: !OwnedBy(o, e) ==> (o in s.m.own <==> o in s'.m.own))
    && (forall o :: !OwnedBy(o, e) && o in s.m.own ==> s'.m.own[o] == s.m.own[o])
    && |s'.m.refs| == |s.m.refs| && s'.disk.Keys == s.disk.Keys
  }

  lemma OtherEnvs(s: State, s': State, e: nat, e1: nat)
    requires OthersKept(s, s', e) && e1 != e && EnvInv(s, e1)
    ensures EnvInv(s', e1)
  {
    assert OwnerEnv(Dir(Ram(e1))) == e1 && OwnerEnv(Dir(Swap(e1))) == e1;
  }

  /** A step of environment e keeps the invariant if it keeps memory and disk in order, links e again
      and leaves the others alone. */
  lemma StepInv(s: State, s': State, e: nat)
    requires Inv(s) && OthersKept(s, s', e) && Base(s') && EnvInv(s', e)
    ensures Inv(s')
  {
    forall e1 | e1 in s'.envs ensures EnvInv(s', e1) {
      if e1 != e {
        OtherEnvs(s, s', e, e1);
      }
    }
  }

  // ---------- each step keeps memory and disk in order ----------

  /** The entries of one space other than v's are the same in m and m', and v has entry w. */
  ghost predicate OneEntry(m: Mem, m': Mem, k: (Space, Vpn), w: Word) {
    && k in m'.leaf && m'.leaf[k] == w
    && (forall k1 :: k1 != k ==> (k1 in m.leaf <==> k1 in m'.leaf))
    && (forall k1 :: k1 != k && k1 in m.leaf ==> m'.leaf[k1] == m.leaf[k1])
  }

  lemma TableBase(s: State, sp: Space, d: nat)
    requires Base(s) && Dir(sp) in s.m.own && d < USER_PDX && CanHaveTable(s.m, sp, d)
    ensures var s' := s.(m := EnsureTable(s.m, sp, d));
            && Base(s') && OthersKept(s, s', sp.e) && s'.m.leaf == s.m.leaf && Table(sp, d) in s'.m.own
            && (forall o :: o in s.m.own ==> o in s'.m.own && s'.m.own[o] == s.m.own[o])
            && |s'.m.free| == |s.m.free| - (if Table(sp, d) in s.m.own then 0 else 1)
  {
    hide MemOk, DiskOk, Injective, OthersKept, Blocks;
    EnsureTableOk(s.m, sp, d);
    SameBlockSizes(s, EnsureTable(s.m, sp, d));
    OthersRefl(s, sp.e);
    if Table(sp, d) !in s.m.own {
      AllocOk(s.m);
      TableShape(s.m, sp, d);
      FreshInjective(s.m.own, Table(sp, d), s.m.free[0]);
      hide EnsureTable;
      TableOthers(s, EnsureTable(s.m, sp, d), sp, d, s.m.free[0]);
    }
  }

  lemma SameBlockSizes(s: State, m': Mem)
    requires Blocks(s)
    ensures Blocks(s.(m := m'))
  {
  }

  lemma OthersRefl(s: State, e: nat)
    ensures OthersKept(s, s, e) && s.(m := s.m) == s
  {
  }

  lemma TableShape(m: Mem, sp: Space, d: nat)
    requires Table(sp, d) !in m.own && m.free != [] && m.limbo == {}
    ensures var m' := EnsureTable(m, sp, d);
            && m'.own == m.own[Table(sp, d) := m.free[0]] && m'.leaf == m.leaf && m'.limbo == {}
            && |m'.refs| == |m.refs| && m'.free == m.free[1..]
  {
  }

  lemma TableOthers(s: State, m': Mem, sp: Space, d: nat, f: Frame)
    requires m'.own == s.m.own[Table(sp, d) := f] && m'.leaf == s.m.leaf && |m'.refs| == |s.m.refs|
    requires Dir(sp) in s.m.own && forall o :: o in s.m.own && !o.Boot? ==> OwnerEnv(o) in s.envs
    ensures OthersKept(s, s.(m := m'), sp.e) && forall o :: o in m'.own && !o.Boot? ==> OwnerEnv(o) in s.envs
  {
    assert OwnerEnv(Table(sp, d)) == sp.e && OwnerEnv(Dir(sp)) == sp.e;
  }

  lemma FreshInjective(own: map<Owner, Frame>, o: Owner, f: Frame)
    requires Injective(own) && f !in own.Values && o !in own
    ensures Injective(own[o := f])
  {
    assert forall o1 :: o1 in own ==> own[o1] in own.Values;
  }

  /** A change of one entry of e concerns nobody else. */
  lemma OneEntryOthers(s: State, s': State, e: nat, k: (Space, Vpn), w: Word)
    requires k.0.e == e && OneEntry(s.m, s'.m, k, w)
    requires s'.envs == s.envs && s'.data == s.data
    requires forall o :: !OwnedBy(o, e) ==>
        (o in s.m.own <==> o in s'.m.own) && (o in s.m.own ==> s'.m.own[o] == s.m.own[o])
    requires |s'.m.refs| == |s.m.refs| && s'.disk.Keys == s.disk.Keys
    ensures OthersKept(s, s', e)
  {
    assert forall k1: (Space, Vpn) :: k1.0.e != e ==> k1 != k;
  }

  lemma NewDfnBase(s: State, e: nat, v: Vpn)
    requires Base(s) && Table(Swap(e), v.d) in s.m.own && v.t < NPTENTRIES && e in s.envs
    requires (Swap(e), v) in s.m.leaf || s.dfree != []
    ensures var s' := NewDfn(s, e, v);
            && Base(s') && OthersKept(s, s', e) && s'.envs == s.envs && s'.data == s.data && s'.disk == s.disk
            && s'.m.own == s.m.own && s'.m.free == s.m.free
            && (Swap(e), v) in s'.m.leaf
            && OneEntry(s.m, s'.m, (Swap(e), v), s'.m.leaf[(Swap(e), v)])
            && ((Swap(e), v) in s.m.leaf ==> s' == s)
            && ((Swap(e), v) !in s.m.leaf ==> s'.m.leaf[(Swap(e), v)] == s.dfree[0] && s'.dfree == s.dfree[1..])
  {
    hide MemOk, DiskOk;
    var s', k := NewDfn(s, e, v), (Swap(e), v);
    if k !in s.m.leaf {
      NewDfnDisk(s.m.leaf, s.dfree, s.disk, k);
      SwapEntryOk(s.m, e, v, s.dfree[0]);
      OneEntryOthers(s, s', e, k, s.dfree[0]);
    }
  }

  lemma SwapEntryOk(m: Mem, e: nat, v: Vpn, d: Word)
    requires MemOk(m) && Table(Swap(e), v.d) in m.own && v.t < NPTENTRIES && d != ZERO
    ensures MemOk(m.(leaf := m.leaf[(Swap(e), v) := d]))
  {
  }

  /** The first free disk frame becomes the frame of a page that had none. */
  lemma NewDfnDisk(leaf: map<(Space, Vpn), Word>, dfree: seq<Word>, disk: map<Word, Block>, k: (Space, Vpn))
    requires DiskOk(leaf, dfree, disk) && dfree != [] && k !in leaf && k.0.Swap?
    ensures DiskOk(leaf[k := dfree[0]], dfree[1..], disk) && dfree[0] != ZERO
  {
    var d, leaf' := dfree[0], leaf[k := dfree[0]];
    assert d in dfree;
    DfreeTail(dfree);
    forall d1 | d1 in disk && d1 !in dfree[1..] ensures exists k1 :: k1 in leaf' && k1.0.Swap? && leaf'[k1] == d1 {
      if d1 == d {
        assert leaf'[k] == d1;
      } else {
        var k1 :| k1 in leaf && k1.0.Swap? && leaf[k1] == d1;
        assert leaf'[k1] == d1;
      }
    }
  }

  lemma DfreeTail(q: seq<Word>)
    requires Distinct(q) && q != []
    ensures Distinct(q[1..]) && q[0] !in q[1..]
    ensures forall d :: d in q <==> d == q[0] || d in q[1..]
  {
    assert forall i :: 0 <= i < |q[1..]| ==> q[1..][i] == q[i + 1];
    assert q == [q[0]] + q[1..];
  }

  /** Mapping a fresh frame at a page that has a table but no entry. */
  lemma MapNewBase(s: State, e: nat, v: Vpn, junk: Block)
    requires Base(s) && UserPage(v) && Table(Ram(e), v.d) in s.m.own && (Ram(e), v) !in s.m.leaf && e in s.envs
    requires s.m.free != [] && |junk| == NPTENTRIES
    ensures var s' := MapNew(s, e, v, junk);
            && Base(s') && OthersKept(s, s', e) && s'.envs == s.envs && s'.disk == s.disk && s'.dfree == s.dfree
            && OneEntry(s.m, s'.m, (Ram(e), v), Construct(s.m.free[0])) && Page(e, v) !in s.m.own
            && s'.m.own == s.m.own[Page(e, v) := s.m.free[0]]
            && s'.data == s.data[(e, v) := junk] && s'.m.free == s.m.free[1..]
  {
    hide MemOk, DiskOk, Mapped, Alloc, Injective, OthersKept, OneEntry;
    var f := s.m.free[0];
    MapNewMem(s.m, e, v);
    var m' := Mapped(Alloc(s.m), e, v, f);
    FreshInjective(s.m.own, Page(e, v), f);
    SwapSame(s.m.leaf, m'.leaf, s.dfree, s.disk);
    EntryAdded(s.m, m', (Ram(e), v), Construct(f));
    OneEntryOthers(s, s.(m := m'), e, (Ram(e), v), Construct(f));
    DataOthers(s, s.(m := m'), e, v, junk);
  }

  lemma EntryAdded(m: Mem, m': Mem, k: (Space, Vpn), w: Word)
    requires m'.leaf == m.leaf[k := w]
    ensures OneEntry(m, m', k, w)
  {
  }

  /** The contents of one page of e concern nobody else. */
  lemma DataOthers(s: State, s1: State, e: nat, v: Vpn, b: Block)
    requires OthersKept(s, s1, e)
    ensures OthersKept(s, s1.(data := s1.data[(e, v) := b]), e)
  {
  }

  lemma MapNewMem(m: Mem, e: nat, v: Vpn)
    requires MemOk(m) && UserPage(v) && Table(Ram(e), v.d) in m.own && (Ram(e), v) !in m.leaf
    requires m.free != [] && m.limbo == {}
    ensures var f, m' := m.free[0], Mapped(Alloc(m), e, v, m.free[0]);
            && MemOk(m') && m'.limbo == {} && f !in m.own.Values && Page(e, v) !in m.own
            && m'.own == m.own[Page(e, v) := f] && m'.leaf == m.leaf[(Ram(e), v) := Construct(f)]
            && m'.free == m.free[1..]
            && |m'.refs| == |m.refs|
  {
    var f, m1 := m.free[0], Alloc(m);
    AllocOk(m);
    assert Mappable(m1, f);
    EnterOk(m1, e, v, f);
    assert Mapped(m1, e, v, f) == Enter(m1, e, v, f);
  }

  /** The page file does not depend on the entries of page tables. */
  lemma SwapSame(leaf: map<(Space, Vpn), Word>, leaf': map<(Space, Vpn), Word>, dfree: seq<Word>,
                 disk: map<Word, Block>)
    requires DiskOk(leaf, dfree, disk)
    requires forall k: (Space, Vpn) :: k.0.Swap? ==> (k in leaf <==> k in leaf') && (k in leaf ==> leaf'[k] == leaf[k])
    ensures DiskOk(leaf', dfree, disk)
  {
    forall d | d in disk ensures d != ZERO && (d in dfree || exists k :: k in leaf' && k.0.Swap? && leaf'[k] == d) {
      if d !in dfree {
        var k :| k in leaf && k.0.Swap? && leaf[k] == d;
        assert leaf'[k] == d;
      }
    }
  }

  lemma PermsBase(s: State, e: nat, v: Vpn, a: Mask, c: Mask)
    requires Base(s) && (Ram(e), v) in s.m.leaf && e in s.envs
    ensures var s' := s.(m := SetPerms(s.m, e, v, a, c));
            && Base(s') && OthersKept(s, s', e)
            && OneEntry(s.m, s'.m, (Ram(e), v), Update(s.m.leaf[(Ram(e), v)], a, c))
            && s'.m.own == s.m.own && s'.m.free == s.m.free
  {
    hide MemOk, DiskOk;
    var m' := SetPerms(s.m, e, v, a, c);
    SetPermsOk(s.m, e, v, a, c);
    SwapSame(s.m.leaf, m'.leaf, s.dfree, s.disk);
    OneEntryOthers(s, s.(m := m'), e, (Ram(e), v), m'.leaf[(Ram(e), v)]);
  }

  lemma DataBase(s: State, e: nat, v: Vpn, b: Block)
    requires Base(s) && |b| == NPTENTRIES && e in s.envs
    ensures Base(s.(data := s.data[(e, v) := b])) && OthersKept(s, s.(data := s.data[(e, v) := b]), e)
  {
    hide MemOk, DiskOk, Injective;
  }

  lemma PfWriteBase(s: State, e: nat, v: Vpn, b: Block)
    requires Base(s) && |b| == NPTENTRIES && (Swap(e), v) in s.m.leaf && e in s.envs
    ensures Base(PfWrite(s, e, v, b)) && OthersKept(s, PfWrite(s, e, v, b), e)
  {
    hide MemOk, DiskOk;
    var s' := PfWrite(s, e, v, b);
    SwapFrame(s.m.leaf, s.dfree, s.disk, (Swap(e), v));
    assert s'.disk.Keys == s.disk.Keys;
    DiskSame(s.m.leaf, s.dfree, s.disk, s'.disk);
    forall d | d in s'.disk ensures |s'.disk[d]| == NPTENTRIES {
      assert d in s'.disk.Keys;
    }
  }

  lemma SwapFrame(leaf: map<(Space, Vpn), Word>, dfree: seq<Word>, disk: map<Word, Block>, k: (Space, Vpn))
    requires DiskOk(leaf, dfree, disk) && k in leaf && k.0.Swap?
    ensures leaf[k] in disk
  {
  }

  /** The order of the page file does not depend on the contents of its frames. */
  lemma DiskSame(leaf: map<(Space, Vpn), Word>, dfree: seq<Word>, disk: map<Word, Block>, disk': map<Word, Block>)
    requires DiskOk(leaf, dfree, disk) && disk'.Keys == disk.Keys
    ensures DiskOk(leaf, dfree, disk')
  {
    assert forall d :: d in disk' <==> d in disk'.Keys;
    assert forall d :: d in disk <==> d in disk.Keys;
  }

  lemma EnvBase(s: State, e: nat, env: Env)
    requires Base(s) && e in s.envs
    ensures Base(SetEnv(s, e, env)) && OthersKept(s, SetEnv(s, e, env), e)
  {
  }

  lemma UnmapBase(s: State, e: nat, v: Vpn)
    requires Base(s) && (Ram(e), v) in s.m.leaf && e in s.envs
    ensures var s' := s.(m := Unmapped(s.m, e, v), data := s.data - {(e, v)});
            && Base(s') && OthersKept(s, s', e)
            && s'.m.leaf == s.m.leaf - {(Ram(e), v)}
            && s'.m.own == s.m.own - {Page(e, v)}
            && |s'.m.free| == |s.m.free| + 1
  {
    hide MemOk, DiskOk, Injective, Unmapped;
    UnmapMem(s.m, e, v);
    SwapSame(s.m.leaf, s.m.leaf - {(Ram(e), v)}, s.dfree, s.disk);
  }

  lemma UnmapMem(m: Mem, e: nat, v: Vpn)
    requires MemOk(m) && Injective(m.own) && (Ram(e), v) in m.leaf && m.limbo == {}
    ensures var m' := Unmapped(m, e, v);
            && MemOk(m') && m'.limbo == {} && Injective(m'.own)
            && m'.leaf == m.leaf - {(Ram(e), v)} && m'.own == m.own - {Page(e, v)}
            && |m'.free| == |m.free| + 1 && |m'.refs| == |m.refs|
  {
    UnmapOk(m, e, v);
    var f := m.own[Page(e, v)];
    assert Users(m.own, f) == {Page(e, v)};
  }

  lemma OthersTrans(s: State, t: State, u: State, e: nat)
    requires OthersKept(s, t, e) && OthersKept(t, u, e)
    ensures OthersKept(s, u, e)
  {
  }
}

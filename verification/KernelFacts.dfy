/** What the methods of the kernel need to know about the values they pass through: the contents of
    pages in physical memory, and the states between the steps of an operation. */
module KernelFacts {
  import opened Seqs
  import opened Mmu
  import opened FrameTable
  import opened Memory
  import opened Machine
  import opened Paging
  import opened FlatMemory
  import opened LifeCycle
  import opened Freeing
  import opened ProgramLoading
  import opened Runs
  import Lru
  import WS = WorkingSet

  /** The contents of the frames that hold user pages. */
  ghost function DataOf(mem: seq<Block>, own: map<Owner, Frame>): map<(nat, Vpn), Block> {
    map o | o in own && o.Page? && own[o] < |mem| :: (o.e, o.v) := mem[own[o]]
  }

  lemma DataAt(mem: seq<Block>, own: map<Owner, Frame>, e: nat, v: Vpn)
    ensures (e, v) in DataOf(mem, own) <==> Page(e, v) in own && own[Page(e, v)] < |mem|
    ensures (e, v) in DataOf(mem, own) ==> DataOf(mem, own)[(e, v)] == mem[own[Page(e, v)]]
  {
    if Page(e, v) in own && own[Page(e, v)] < |mem| {
      assert Page(e, v).Page?;
      assert (Page(e, v).e, Page(e, v).v) in DataOf(mem, own);
    }
  }

  ghost predicate PagesSame(own: map<Owner, Frame>, own': map<Owner, Frame>) {
    forall e, v ::
      (Page(e, v) in own <==> Page(e, v) in own') && (Page(e, v) in own ==> own'[Page(e, v)] == own[Page(e, v)])
  }

  /** Pages keep their contents while other frames are written. */
  lemma DataKept(mem: seq<Block>, own: map<Owner, Frame>, mem': seq<Block>, own': map<Owner, Frame>)
    requires PagesSame(own, own') && |mem'| == |mem|
    requires forall e, v :: Page(e, v) in own && own[Page(e, v)] < |mem| ==>
        mem'[own[Page(e, v)]] == mem[own[Page(e, v)]]
    ensures DataOf(mem', own') == DataOf(mem, own)
  {
    forall k: (nat, Vpn)
      ensures k in DataOf(mem', own') <==> k in DataOf(mem, own)
      ensures k in DataOf(mem, own) ==> DataOf(mem', own')[k] == DataOf(mem, own)[k]
    {
      DataAt(mem, own, k.0, k.1);
      DataAt(mem', own', k.0, k.1);
    }
  }

  /** Writing a directory and a table leaves the pages alone. */
  lemma TablesWritten(mem: seq<Block>, own: map<Owner, Frame>, mem': seq<Block>, own': map<Owner, Frame>, ox: Owner,
                      ot: Owner)
    requires PagesSame(own, own') && |mem'| == |mem| && Exclusive(own')
    requires !ox.Page? && ox in own' && !ot.Page? && ot in own'
    requires forall g :: 0 <= g < |mem| && g != own'[ox] && g != own'[ot] ==> mem'[g] == mem[g]
    ensures DataOf(mem', own') == DataOf(mem, own)
  {
    forall e, v | Page(e, v) in own && own[Page(e, v)] < |mem| ensures mem'[own[Page(e, v)]] == mem[own[Page(e, v)]] {
      assert own'[Page(e, v)] != own'[ox] && own'[Page(e, v)] != own'[ot];
    }
    DataKept(mem, own, mem', own');
  }

  /** n - 1, ..., 1, as disk frame numbers. */
  function DiskList(n: nat): seq<Word>
    requires n >= 1
  {
    if n == 1 then [] else [Decode(n - 1)] + DiskList(n - 1)
  }

  lemma {:induction false} DiskListAt(n: nat)
    requires n >= 1
    ensures |DiskList(n)| == n - 1 && forall i :: 0 <= i < n - 1 ==> DiskList(n)[i] == Decode(n - 1 - i)
  {
    if n > 1 {
      hide Decode;
      DiskListAt(n - 1);
    }
  }

  /** What the disk frames 1 to n - 1 hold. */
  function DiskContents(file: seq<Block>, n: nat): map<Word, Block>
    requires 1 <= n <= |file|
  {
    if n == 1 then map[] else DiskContents(file, n - 1)[Decode(n - 1) := file[n - 1]]
  }

  lemma DecodeInjective(a: nat, b: nat)
    ensures Decode(a) == Decode(b) ==> a == b
  {
    EncodeDecode(a);
    EncodeDecode(b);
  }

  /** The free list holds every disk frame but 0 once. */
  lemma {:induction false} DiskListIs(n: nat)
    requires n >= 1
    ensures Distinct(DiskList(n)) && forall w :: w in DiskList(n) ==> exists d :: 1 <= d < n && Decode(d) == w
  {
    if n > 1 {
      hide Decode;
      DiskListIs(n - 1);
      var q := DiskList(n - 1);
      forall i | 0 <= i < |q| ensures q[i] != Decode(n - 1) {
        assert q[i] in q;
        var d :| 1 <= d < n - 1 && Decode(d) == q[i];
        DecodeInjective(d, n - 1);
      }
      assert forall w :: w in DiskList(n) ==> w == Decode(n - 1) || w in q;
    }
  }

  /** Disk frame d holds what the file has there. */
  lemma {:induction false} DiskHolds(file: seq<Block>, n: nat)
    requires 1 <= n <= |file|
    ensures forall d: nat :: 1 <= d < n ==>
              Decode(d) in DiskContents(file, n) && DiskContents(file, n)[Decode(d)] == file[d]
  {
    if n > 1 {
      hide Decode;
      DiskHolds(file, n - 1);
      forall d: nat | 1 <= d < n - 1 ensures Decode(d) != Decode(n - 1) {
        DecodeInjective(d, n - 1);
      }
    }
  }

  lemma {:induction false} DiskBoot(file: seq<Block>, n: nat)
    requires 1 <= n <= |file| && forall d :: 0 <= d < |file| ==> |file[d]| == NPTENTRIES
    ensures forall w :: w in DiskContents(file, n) <==> w in DiskList(n)
    ensures forall w :: w in DiskContents(file, n) ==> |DiskContents(file, n)[w]| == NPTENTRIES && w != ZERO
  {
    if n > 1 {
      hide Decode;
      DiskBoot(file, n - 1);
      DecodeInjective(n - 1, 0);
      ZeroWord();
    }
  }

  lemma ZeroWord()
    ensures Decode(0) == ZERO
  {
    DecodeEncode(ZERO);
    assert Encode(ZERO) == 0 by { assert ZERO.hi + 32 * ZERO.frame == 0; ZeroBits(Flags(ZERO)); }
  }

  lemma {:induction false} ZeroBits(bits: seq<bool>)
    requires forall i :: 0 <= i < |bits| ==> !bits[i]
    ensures Join(bits, 0) == 0
  {
    if bits != [] {
      ZeroBits(bits[1..]);
    }
  }

  /** Memory and page file right after boot. */
  lemma BootInv(s: State, n: nat, kernelEnd: nat, file: seq<Block>)
    requires |file| >= 1 && forall d :: 0 <= d < |file| ==> |file[d]| == NPTENTRIES
    requires MemOk(s.m) && s.m.limbo == {} && s.m.leaf == map[] && s.m.own == BootOwn(n, kernelEnd)
    requires s.data == map[] && s.envs == map[]
    requires s.disk == DiskContents(file, |file|) && s.dfree == DiskList(|file|)
    ensures Inv(s)
  {
    DiskListIs(|file|);
    DiskBoot(file, |file|);
  }

  /** What the constructors leave. */
  ghost function BootState(n: nat, kernelEnd: nat, file: seq<Block>): State
    requires IO_HOLE_END <= kernelEnd <= n && |file| >= 1
  {
    State(BootMem(n, kernelEnd), map[], DiskContents(file, |file|), DiskList(|file|), map[])
  }

  lemma BootStateInv(n: nat, kernelEnd: nat, file: seq<Block>)
    requires IO_HOLE_END <= kernelEnd <= n
    requires |file| >= 1 && forall d :: 0 <= d < |file| ==> |file[d]| == NPTENTRIES
    ensures Inv(BootState(n, kernelEnd, file))
    ensures BootState(n, kernelEnd, file) ==
              State(BootMem(n, kernelEnd), map[], DiskContents(file, |file|), DiskList(|file|), map[])
  {
    hide MemOk, BootOwn, DiskList, DiskContents, Inv, Descending;
    var m := BootMem(n, kernelEnd);
    BootOk(m.refs, m.free, kernelEnd, n);
    BootInv(BootState(n, kernelEnd, file), n, kernelEnd, file);
  }

  lemma BootOwners(n: nat, kernelEnd: nat)
    requires IO_HOLE_END <= kernelEnd <= n
    ensures forall o :: o in BootMem(n, kernelEnd).own ==> o.Boot?
  {
  }

  lemma NoPagesYet(mem: seq<Block>, own: map<Owner, Frame>)
    requires forall o :: o in own ==> o.Boot?
    ensures DataOf(mem, own) == map[]
  {
  }

  /** nPageOut++ */
  function CountOut(s: State, e: nat): State {
    if e in s.envs then SetEnv(s, e, s.envs[e].(nOut := s.envs[e].nOut + 1)) else s
  }

  /** A new disk directory leaves the pages alone. */
  lemma DirectoryKeeps(s: State, e: nat, v: Vpn)
    requires (e, v) in s.data
    ensures (e, v) in DiskDir(s, e).data && DiskDir(s, e).data[(e, v)] == s.data[(e, v)]
    ensures Page(e, v) in s.m.own ==>
        Page(e, v) in DiskDir(s, e).m.own && DiskDir(s, e).m.own[Page(e, v)] == s.m.own[Page(e, v)]
  {
  }

  lemma OneTable(m: Mem)
    requires MemOk(m)
    ensures Exclusive(m.own)
  {
  }

  lemma FirstFreeUnused(m: Mem, sp: Space)
    requires MemOk(m) && m.free != []
    ensures m.free[0] != 0 && m.free[0] !in m.own.Values
  {
    AllocOk(m);
    assert m.own[Boot(0)] in m.own.Values;
  }

  /** No table is frame 0. */
  lemma EntryFrame(m: Mem, sp: Space, d: nat)
    requires MemOk(m)
    ensures Table(sp, d) in m.own ==> m.own[Table(sp, d)] != 0
  {
    if Table(sp, d) in m.own {
      SingleUse(m, Table(sp, d));
    }
  }

  lemma LeafNonzero(m: Mem)
    requires MemOk(m)
    ensures forall k :: k in m.leaf ==> m.leaf[k] != ZERO
  {
  }

  lemma LeafTable(m: Mem)
    requires MemOk(m)
    ensures forall k :: k in m.leaf ==> Table(k.0, k.1.d) in m.own && Dir(k.0) in m.own
    ensures forall e, v :: Page(e, v) in m.own <==> (Ram(e), v) in m.leaf
  {
  }

  function CountIn(s: State, e: nat): State {
    if e in s.envs then SetEnv(s, e, s.envs[e].(nIn := s.envs[e].nIn + 1)) else s
  }

  function WithPerms(s: State, e: nat, v: Vpn, a: Mask, c: Mask): State {
    s.(m := SetPerms(s.m, e, v, a, c))
  }

  /** The page is read from the page file, if it is there. */
  function ReadPage(s: State, e: nat, v: Vpn): State {
    if (Swap(e), v) in s.m.leaf then WithPerms(s.(data := s.data[(e, v) := OnDisk(s, e, v)]), e, v, NONE, MODIFIED)
    else s
  }

  lemma AllocFacts(m: Mem, e: nat, v: Vpn)
    requires MemOk(m) && m.free != [] && UserPage(v) && Table(Ram(e), v.d) in m.own && (Ram(e), v) !in m.leaf
    requires Dir(Ram(e)) in m.own
    ensures var m1 := Alloc(m);
            && m1.own == m.own && m1.leaf == m.leaf && Mappable(m1, m.free[0]) && CanHaveTable(m1, Ram(e), v.d)
            && m.free[0] < |m.refs| && m.free[0] !in m.own.Values
  {
    AllocOk(m);
  }

  lemma BlockSizes(mem: seq<Block>, own: map<Owner, Frame>, leaf: map<(Space, Vpn), Word>)
    requires WordsOk(mem, own, leaf)
    ensures forall f :: 0 <= f < |mem| ==> |mem[f]| == NPTENTRIES
    ensures forall o :: o in own ==> own[o] < |mem|
  {
  }

  /** A page more, and a directory and a table written. */
  lemma PageMapped(mem: seq<Block>, own: map<Owner, Frame>, mem': seq<Block>, own': map<Owner, Frame>,
                   e: nat, v: Vpn, f: Frame, ox: Owner, ot: Owner)
    requires |mem'| == |mem| && Exclusive(own') && f < |mem| && Page(e, v) in own' && own'[Page(e, v)] == f
    requires Page(e, v) !in own
    requires !ox.Page? && ox in own' && !ot.Page? && ot in own'
    requires PagesSame(own[Page(e, v) := f], own')
    requires forall g :: 0 <= g < |mem| && g != own'[ox] && g != own'[ot] ==> mem'[g] == mem[g]
    ensures DataOf(mem', own') == DataOf(mem, own)[(e, v) := mem[f]]
  {
    hide Exclusive;
    TablesWritten(mem, own[Page(e, v) := f], mem', own', ox, ot);
    PageAdded(mem, own, e, v, f);
  }

  lemma PageAdded(mem: seq<Block>, own: map<Owner, Frame>, e: nat, v: Vpn, f: Frame)
    requires f < |mem| && Page(e, v) !in own
    ensures DataOf(mem, own[Page(e, v) := f]) == DataOf(mem, own)[(e, v) := mem[f]]
  {
    var own' := own[Page(e, v) := f];
    forall k: (nat, Vpn)
      ensures k in DataOf(mem, own') <==> k in DataOf(mem, own)[(e, v) := mem[f]]
      ensures k in DataOf(mem, own') ==> DataOf(mem, own')[k] == DataOf(mem, own)[(e, v) := mem[f]][k]
    {
      DataAt(mem, own, k.0, k.1);
      DataAt(mem, own', k.0, k.1);
    }
  }

  /** The frame of a page belongs to that page only. */
  lemma PageFrame(m: Mem, mem: seq<Block>, e: nat, v: Vpn)
    requires MemOk(m) && |mem| == |m.refs| && (Ram(e), v) in m.leaf && Injective(m.own)
    ensures var f := m.leaf[(Ram(e), v)].frame;
            && Page(e, v) in m.own && m.own[Page(e, v)] == f && f < |mem|
            && forall o :: o in m.own && m.own[o] == f ==> o.Page?
  {
  }

  lemma PageWritten(mem: seq<Block>, own: map<Owner, Frame>, mem': seq<Block>, e: nat, v: Vpn, b: Block)
    requires Injective(own) && Page(e, v) in own && own[Page(e, v)] < |mem| && mem' == mem[own[Page(e, v)] := b]
    ensures DataOf(mem', own) == DataOf(mem, own)[(e, v) := b]
  {
    forall k: (nat, Vpn)
      ensures k in DataOf(mem', own) <==> k in DataOf(mem, own)[(e, v) := b]
      ensures k in DataOf(mem', own) ==> DataOf(mem', own)[k] == DataOf(mem, own)[(e, v) := b][k]
    {
      DataAt(mem, own, k.0, k.1);
      DataAt(mem', own, k.0, k.1);
      DataAt(mem, own, e, v);
      if Page(k.0, k.1) in own && k != (e, v) {
        assert own[Page(k.0, k.1)] != own[Page(e, v)];
      }
    }
  }

  // ---------- the values between the steps of Placement ----------

  lemma SameRoom(s: State, e: nat, v: Vpn)
    requires e in s.envs && s.envs[e].ddir != 0
    ensures DiskDir(s, e) == s && DiskDir(CountIn(s, e), e) == CountIn(s, e)
  {
  }

  lemma LastListed(env: Env)
    requires env.active != []
    ensures WS.PageAt(env, Lru.Last(env.active)) in WS.ListsOf(env).active
  {
    var l := WS.ListsOf(env);
    assert l.active[|l.active| - 1] == WS.PageAt(env, Lru.Last(env.active));
  }

  lemma PlacementStart(s: State, e: nat, v: Vpn)
    requires Inv(s) && e in s.envs && s.envs[e].work != [] && v !in WS.Pages(s.envs[e]) && RoomToPlace(s, e, v)
    ensures var env := s.envs[e]; var env1 := WS.TakeFree(env, v);
            && Lru.Last(env.work) < |env.va| && DirsLoading(s.m, e, env) && DirsLoading(s.m, e, env1) && env1.ddir != 0
            && (Ram(e), v) !in s.m.leaf && s.m.free != [] && s.m.limbo == {}
  {
    hide Base, WS.EnvOk;
    assert EnvInv(s, e);
    WS.FindIsMember(s.envs[e], v);
    NoLimbo(s);
    TakenElement(s.envs[e], v);
  }

  lemma NoLimbo(s: State)
    requires Base(s)
    ensures s.m.limbo == {} && MemOk(s.m) && Injective(s.m.own) && ZERO !in s.dfree
    ensures forall k :: k in s.m.leaf && k.0.Swap? ==> s.m.leaf[k] in s.disk && |s.disk[s.m.leaf[k]]| == NPTENTRIES
  {
    assert forall d :: d in s.dfree ==> d in s.disk;
  }

  lemma TakenElement(env: Env, v: Vpn)
    requires WS.EnvOk(env) && env.work != []
    ensures var env1, x := WS.TakeFree(env, v), Lru.Last(env.work);
            && x < |env.va| && env1.dir == env.dir && env1.ddir == env.ddir && env1.A == env.A && env1.A >= 1
            && env1.active == env.active && env1.nIn == env.nIn && x < |env1.va| && env1.va[x] == v
            && WS.PagesOf(env1, env1.active) == WS.PagesOf(env, env.active)
  {
    WS.ElementOnce(env, Lru.Last(env.work));
    WS.PagesSame(env, WS.TakeFree(env, v), env.active);
    WS.EnvFacts(env);
  }

  lemma PlacementMapped(s: State, e: nat, v: Vpn, junk: Block)
    requires Inv(s) && e in s.envs && s.envs[e].work != [] && v !in WS.Pages(s.envs[e])
    requires UserPage(v) && Table(Ram(e), v.d) in s.m.own && |junk| == NPTENTRIES && RoomToPlace(s, e, v)
    ensures var s1, env1 := MapNew(s, e, v, junk), WS.TakeFree(s.envs[e], v);
            && MapNew(SetEnv(s, e, env1), e, v, junk) == SetEnv(s1, e, env1)
            && Injective(s1.m.own) && ZERO !in s1.dfree
            && (forall k :: k in s1.m.leaf && k.0.Swap? ==>
                  s1.m.leaf[k] in s1.disk && |s1.disk[s1.m.leaf[k]]| == NPTENTRIES)
            && ((Swap(e), v) in s1.m.leaf <==> (Swap(e), v) in s.m.leaf)
            && ((Swap(e), v) !in s1.m.leaf ==> CanHaveTable(s1.m, Swap(e), v.d) && s1.dfree != [])
  {
    hide Base, WS.EnvOk, WS.TakeFree, Mapped, Alloc;
    assert EnvInv(s, e);
    WS.FindIsMember(s.envs[e], v);
    MapNewBase(s, e, v, junk);
    NoLimbo(MapNew(s, e, v, junk));
    assert |s.m.free[1..]| == |s.m.free| - 1;
  }

  /** Filling the page does not look at the lists. */
  lemma FillCommutes(s: State, e: nat, v: Vpn, env1: Env)
    requires e in s.envs && s.envs[e].ddir != 0 && env1.ddir != 0
    ensures FillPage(SetEnv(s, e, env1), e, v) == SetEnv(FillPage(s, e, v), e, env1)
    ensures FillPage(s, e, v).envs == s.envs
  {
    hide EnsureTable, SetPerms;
    assert DiskDir(s, e) == s && DiskDir(SetEnv(s, e, env1), e) == SetEnv(s, e, env1);
    var m1 := EnsureTable(s.m, Swap(e), v.d);
    assert SwapTable(SetEnv(s, e, env1), e, v.d) == SetEnv(s.(m := m1), e, env1);
  }

  lemma PlacementFilled(s: State, e: nat, v: Vpn, junk: Block)
    requires Inv(s) && e in s.envs && s.envs[e].work != [] && v !in WS.Pages(s.envs[e])
    requires UserPage(v) && Table(Ram(e), v.d) in s.m.own && |junk| == NPTENTRIES && RoomToPlace(s, e, v)
    ensures var s1, env1, x := MapNew(s, e, v, junk), WS.TakeFree(s.envs[e], v), Lru.Last(s.envs[e].work);
            var env2, s2 := env1.(nIn := env1.nIn + 1), FillPage(s1, e, v);
            && FillPage(CountIn(SetEnv(s1, e, env1), e), e, v) == SetEnv(s2, e, env2)
            && (Ram(e), v) in s2.m.leaf
            && (forall u :: u in WS.ListsOf(env2).active ==> UserPage(u) && (Ram(e), u) in s2.m.leaf)
            && env2.A >= 1 && x < |env2.va| && env2.va[x] == v
            && SetEnv(DemoteFor(SetEnv(s2, e, env2), e, env2, v), e, WS.Insert(env2, x)) == PlacePage(s, e, v, junk)
  {
    hide Base, WS.EnvOk, OthersKept, FillPage, MapNew, Linked, WS.TakeFree, WS.Insert, PlacePage, DemoteFor;
    assert EnvInv(s, e);
    var env, s1 := s.envs[e], MapNew(s, e, v, junk);
    MapAndFill(s, e, v, junk) by { NotMapped(s, e, v); }
    var env1 := WS.TakeFree(env, v);
    var env2 := env1.(nIn := env1.nIn + 1);
    TakenElement(env, v);
    MapKeepsEnvs(s, e, v, junk);
    FillCommutes(s1, e, v, env2);
    assert CountIn(SetEnv(s1, e, env1), e) == SetEnv(s1, e, env2) by { CountTwice(s1, e, env1); }
    ActiveUser(s, e);
    assert WS.PagesOf(env2, env2.active) == WS.PagesOf(env1, env1.active);
    Assembled(s, e, v, junk);
  }

  lemma NotMapped(s: State, e: nat, v: Vpn)
    requires EnvInv(s, e) && v !in WS.Pages(s.envs[e])
    ensures (Ram(e), v) !in s.m.leaf
  {
  }

  lemma MapKeepsEnvs(s: State, e: nat, v: Vpn, junk: Block)
    ensures MapNew(s, e, v, junk).envs == s.envs
  {
  }

  lemma CountTwice(s: State, e: nat, env: Env)
    ensures CountIn(SetEnv(s, e, env), e) == SetEnv(s, e, env.(nIn := env.nIn + 1))
  {
  }

  lemma ActiveUser(s: State, e: nat)
    requires EnvInv(s, e)
    ensures forall u :: u in WS.ListsOf(s.envs[e]).active ==> UserPage(u) && (Ram(e), u) in s.m.leaf
  {
  }

  lemma Assembled(s: State, e: nat, v: Vpn, junk: Block)
    requires e in s.envs && s.envs[e].work != [] && WS.EnvOk(s.envs[e]) && s.envs[e].ddir != 0
    ensures var s2, env1 := FillPage(MapNew(s, e, v, junk), e, v), WS.TakeFree(s.envs[e], v);
            var x := Lru.Last(s.envs[e].work);
            var env2 := env1.(nIn := env1.nIn + 1);
            SetEnv(DemoteFor(SetEnv(s2, e, env2), e, env2, v), e, WS.Insert(env2, x)) == PlacePage(s, e, v, junk)
  {
    hide WS.EnvOk, MapNew, FillPage, SetPerms;
    MapKeepsEnvs(s, e, v, junk);
    var s1 := MapNew(s, e, v, junk);
    FillCommutes(s1, e, v, s.envs[e]);
    TakenElement(s.envs[e], v);
    var s2, env1 := FillPage(s1, e, v), WS.TakeFree(s.envs[e], v);
    var env2 := env1.(nIn := env1.nIn + 1);
    assert WS.Insert(env2, Lru.Last(s.envs[e].work)) == WS.Place(s.envs[e], v);
    DemoteSame(s2, e, s.envs[e], env2, v);
  }

  lemma DemoteSame(s: State, e: nat, env: Env, env2: Env, v: Vpn)
    requires env2.A == env.A && env2.active == env.active
    requires WS.PagesOf(env2, env2.active) == WS.PagesOf(env, env.active)
    ensures DemoteFor(SetEnv(s, e, env2), e, env2, v) == SetEnv(DemoteFor(s, e, env, v), e, env2)
    ensures DemoteFor(s, e, env, v).envs == s.envs
  {
    if env.active != [] {
      var i := |env.active| - 1;
      assert WS.PagesOf(env2, env2.active)[i] == WS.PagesOf(env, env.active)[i];
    }
  }

  // ---------- the values between the steps of the handler ----------

  lemma UnmappedOwn(m: Mem, e: nat, v: Vpn)
    requires MemOk(m)
    ensures var m' := Unmapped(m, e, v);
            && m'.own == m.own - {Page(e, v)} && (Ram(e), v) !in m'.leaf
  {
    UnmapOk(m, e, v);
  }

  lemma PageUnmapped(mem: seq<Block>, own: map<Owner, Frame>, mem': seq<Block>, own': map<Owner, Frame>, e: nat, v: Vpn)
    requires own' == own - {Page(e, v)} && |mem'| == |mem| && Exclusive(own)
    requires forall g :: 0 <= g < |mem| && (Table(Ram(e), v.d) in own ==> g != own[Table(Ram(e), v.d)]) ==>
        mem'[g] == mem[g]
    ensures DataOf(mem', own') == DataOf(mem, own) - {(e, v)}
  {
    forall e1, v1 | Page(e1, v1) in own' && own'[Page(e1, v1)] < |mem|
      ensures mem'[own'[Page(e1, v1)]] == mem[own'[Page(e1, v1)]]
    {
      if Table(Ram(e), v.d) in own {
        assert own[Page(e1, v1)] != own[Table(Ram(e), v.d)];
      }
    }
    DataKept(mem, own', mem', own');
    PageRemoved(mem, own, e, v);
  }

  lemma PageRemoved(mem: seq<Block>, own: map<Owner, Frame>, e: nat, v: Vpn)
    ensures DataOf(mem, own - {Page(e, v)}) == DataOf(mem, own) - {(e, v)}
  {
    var own' := own - {Page(e, v)};
    forall k: (nat, Vpn)
      ensures k in DataOf(mem, own') <==> k in DataOf(mem, own) - {(e, v)}
      ensures k in DataOf(mem, own') ==> DataOf(mem, own')[k] == (DataOf(mem, own) - {(e, v)})[k]
    {
      DataAt(mem, own, k.0, k.1);
      DataAt(mem, own', k.0, k.1);
    }
  }

  lemma SameDirs(m: Mem, e: nat, env: Env, env': Env)
    requires DirsLoading(m, e, env) && env'.dir == env.dir && env'.ddir == env.ddir
    ensures DirsLoading(m, e, env')
  {
  }

  lemma BaseOf(s: State)
    requires Inv(s)
    ensures Base(s)
  {
  }

  lemma DirsOf(s: State, e: nat)
    requires Inv(s) && e in s.envs
    ensures DirsLoading(s.m, e, s.envs[e]) && s.envs[e].ddir != 0
    ensures Dir(Ram(e)) in s.m.own && s.m.own[Dir(Ram(e))] == s.envs[e].dir
  {
    assert EnvInv(s, e);
  }

  lemma VictimFacts(s: State, e: nat)
    requires Inv(s) && e in s.envs && s.envs[e].work == [] && WS.HasVictim(s.envs[e])
    ensures var v := WS.PageAt(s.envs[e], WS.Victim(s.envs[e]));
            && UserPage(v) && (Ram(e), v) in s.m.leaf && (Swap(e), v) in s.m.leaf && (e, v) in s.data
            && Table(Ram(e), v.d) in s.m.own && Page(e, v) in s.m.own
    ensures DirsLoading(s.m, e, s.envs[e]) && s.envs[e].ddir != 0 && Dir(Ram(e)) in s.m.own
    ensures s.m.own[Dir(Ram(e))] == s.envs[e].dir
    ensures MemOk(s.m)
  {
    assert EnvInv(s, e);
    WS.EvictOk(s.envs[e]);
    var v := WS.PageAt(s.envs[e], WS.Victim(s.envs[e]));
    LastIsMember(WS.Pages(s.envs[e]), WS.Pages(WS.Evict(s.envs[e])), v);
    NoLimbo(s);
    LeafTable(s.m);
  }

  lemma WriteBackOnce(s: State, e: nat, v: Vpn)
    requires e in s.envs && (e, v) in s.data
    ensures SetEnv(WriteBack(s, e, v), e, s.envs[e]) == WriteBack(s, e, v)
    ensures Entry(s.m, Ram(e), v).modified ==>
              PfWrite(CountOut(s, e), e, v, s.data[(e, v)]) ==
                SetEnv(WriteBack(s, e, v), e, s.envs[e].(nOut := s.envs[e].nOut + 1))
  {
  }

  lemma VictimSame(env: Env, n: nat)
    ensures var env1 := env.(nOut := n);
            WS.HasVictim(env1) == WS.HasVictim(env) && (WS.HasVictim(env) ==> WS.Victim(env1) == WS.Victim(env))
  {
  }

  lemma EvictDirs(m: Mem, e: nat, env: Env)
    requires DirsLoading(m, e, env) && WS.HasVictim(env)
    ensures DirsLoading(m, e, WS.Evict(env))
  {
  }

  lemma PromoteSame(m: Mem, e: nat, env: Env, i: nat)
    requires DirsLoading(m, e, env) && i < |env.second| && env.active != []
    ensures DirsLoading(m, e, WS.Promote(env, i)) && WS.Promote(env, i).va == env.va
  {
  }

  lemma SetNothing(m: Mem, e: nat, v: Vpn)
    requires (Ram(e), v) !in m.leaf
    ensures forall c: Mask :: SetPerms(m, e, v, NONE, c) == m
  {
  }

  lemma EvictAssembled(s: State, e: nat, env1: Env)
    requires e in s.envs && WS.HasVictim(s.envs[e])
    requires var v := WS.PageAt(s.envs[e], WS.Victim(s.envs[e]));
             env1 == s.envs[e].(nOut := s.envs[e].nOut + if Entry(s.m, Ram(e), v).modified then 1 else 0)
    ensures var v := WS.PageAt(s.envs[e], WS.Victim(s.envs[e]));
            var s1 := SetEnv(WriteBack(s, e, v), e, WS.Evict(env1));
            EvictPage(s, e) == s1.(m := Unmapped(s1.m, e, v), data := s1.data - {(e, v)})
  {
  }

  lemma PromoteFacts(s: State, e: nat, i: nat)
    requires Inv(s) && e in s.envs && i < |s.envs[e].second|
    ensures var env := s.envs[e];
            && env.active != [] && DirsLoading(s.m, e, env)
            && UserPage(WS.PageAt(env, env.second[i])) && (Ram(e), WS.PageAt(env, env.second[i])) in s.m.leaf
            && UserPage(WS.PageAt(env, Lru.Last(env.active)))
            && (Ram(e), WS.PageAt(env, Lru.Last(env.active))) in s.m.leaf
    ensures Base(s)
  {
    hide Base, WS.EnvOk;
    var env := s.envs[e];
    assert EnvInv(s, e);
    WS.EnvFacts(env);
    LastListed(env);
    var l := WS.ListsOf(env);
    assert l.second[i] == WS.PageAt(env, env.second[i]);
  }

  lemma FindAt(env: Env, v: Vpn, i: nat)
    requires i <= |env.second| && forall j :: 0 <= j < i ==> WS.PageAt(env, env.second[j]) != v
    requires i < |env.second| ==> WS.PageAt(env, env.second[i]) == v
    ensures WS.Find(env, env.second, v) == i
  {
    var f := WS.Find(env, env.second, v);
    assert f < |env.second| ==> WS.PageAt(env, env.second[f]) == v;
  }

  lemma FreeFacts(s: State, e: nat, v: Vpn)
    requires Inv(s) && e in s.envs && v !in WS.ListsOf(s.envs[e]).active && s.envs[e].work != []
    requires WS.Find(s.envs[e], s.envs[e].second, v) == |s.envs[e].second| && RoomToFault(s, e, v)
    ensures v !in WS.Pages(s.envs[e]) && RoomToPlace(s, e, v)
  {
    hide Base, WS.EnvOk;
    assert EnvInv(s, e);
    WS.FindIsMember(s.envs[e], v);
  }

  lemma FullFacts(s: State, e: nat, v: Vpn)
    requires Inv(s) && e in s.envs && v !in WS.ListsOf(s.envs[e]).active && s.envs[e].work == []
    requires WS.Find(s.envs[e], s.envs[e].second, v) == |s.envs[e].second| && RoomToFault(s, e, v)
    ensures WS.HasVictim(s.envs[e])
  {
    hide Base, WS.EnvOk, WS.HasVictim;
    assert EnvInv(s, e);
    WS.FindIsMember(s.envs[e], v);
  }

  lemma EvictedFacts(s: State, e: nat, v: Vpn)
    requires Inv(s) && e in s.envs && v !in WS.ListsOf(s.envs[e]).active && s.envs[e].work == [] && Legal(s, e, v)
    requires WS.Find(s.envs[e], s.envs[e].second, v) == |s.envs[e].second| && RoomToFault(s, e, v)
    requires Table(Ram(e), v.d) in s.m.own
    ensures var s1 := EvictPage(s, e);
            && Inv(s1) && e in s1.envs && s1.envs[e].work != [] && v !in WS.Pages(s1.envs[e]) && RoomToPlace(s1, e, v)
            && Legal(s1, e, v) && Table(Ram(e), v.d) in s1.m.own
  {
    hide Base, WS.EnvOk, OthersKept;
    assert EnvInv(s, e);
    WS.FindIsMember(s.envs[e], v);
    EvictInv(s, e);
    EvictRoom(s, EvictPage(s, e), e, v);
  }

  lemma TableOwn(m: Mem, sp: Space, d: nat)
    ensures forall e, v :: (Page(e, v) in m.own <==> Page(e, v) in EnsureTable(m, sp, d).own)
    ensures forall e, v :: Page(e, v) in m.own ==> EnsureTable(m, sp, d).own[Page(e, v)] == m.own[Page(e, v)]
    ensures forall o :: o in m.own ==> o in EnsureTable(m, sp, d).own && EnsureTable(m, sp, d).own[o] == m.own[o]
  {
  }

  lemma TablePresent(mem: seq<Block>, own: map<Owner, Frame>, leaf: map<(Space, Vpn), Word>, e: nat, d: nat)
    requires WordsOk(mem, own, leaf) && Dir(Ram(e)) in own && d < USER_PDX
    ensures own[Dir(Ram(e))] < |mem| && d < |mem[own[Dir(Ram(e))]]|
    ensures mem[own[Dir(Ram(e))]][d].present <==> Table(Ram(e), d) in own
  {
    assert mem[own[Dir(Ram(e))]][d] == DirWord(own, Ram(e), d);
  }

  lemma LegalUser(s: State, e: nat, v: Vpn)
    requires Legal(s, e, v)
    ensures UserPage(v)
  {
  }

  lemma RoomForTable(s: State, e: nat, v: Vpn)
    requires RoomToTouch(s, e, v) && !Entry(s.m, Ram(e), v).present && Table(Ram(e), v.d) !in s.m.own
    ensures s.m.free != []
  {
  }

  lemma RoomNow(s: State, e: nat, v: Vpn)
    requires RoomToTouch(s, e, v) && !Entry(s.m, Ram(e), v).present && Table(Ram(e), v.d) in s.m.own
    ensures e in s.envs && RoomToFault(s, e, v)
  {
  }

  /** Before each fault there is room for it. */
  lemma TouchSteps(s: State, t: State, e: nat, v: Vpn)
    requires Inv(s) && e in s.envs && Legal(s, e, v) && RoomToTouch(s, e, v)
    requires !Entry(t.m, Ram(e), v).present
    requires if Table(Ram(e), v.d) in t.m.own then t == TableFault(s, e, v.d) else t == s
    ensures Legal(t, e, v) && RoomToTouch(t, e, v)
  {
    if Table(Ram(e), v.d) in t.m.own {
      assert Entry(t.m, Ram(e), v) == Entry(s.m, Ram(e), v);
      assert TableFault(t, e, v.d) == t;
    }
  }

  lemma TableThere(s: State, e: nat, v: Vpn)
    ensures Table(Ram(e), v.d) in s.m.own ==> TableFault(s, e, v.d) == s
    ensures Entry(s.m, Ram(e), v).present ==> forall junk: Block :: Touch(s, e, v, junk) == s
  {
  }

  /** After each fault: the table is there, or the page is. */
  lemma TouchedNow(s: State, e: nat, v: Vpn, junk: Block)
    requires Inv(s) && e in s.envs && UserPage(v) && RoomToTouch(s, e, v) && |junk| == NPTENTRIES
    requires !Entry(s.m, Ram(e), v).present
    ensures var t := TableFault(s, e, v.d);
            && e in t.envs && !Entry(t.m, Ram(e), v).present && Table(Ram(e), v.d) in t.m.own
    ensures var t := PageFault(TableFault(s, e, v.d), e, v, junk);
            && e in t.envs && Entry(t.m, Ram(e), v).present && t == Touch(s, e, v, junk)
  {
    TouchInv(s, e, v, junk);
    TableFaultInv(s, e, v.d);
  }

  /** An entry that is PRESENT lets the user through, and the pages of ActiveList have such entries. */
  lemma ActiveBits(s: State, e: nat, v: Vpn)
    requires Inv(s) && e in s.envs
    ensures UserBits(Entry(s.m, Ram(e), v)) <==> Entry(s.m, Ram(e), v).present
    ensures UserBits(Entry(s.m, Ram(e), v)) <==> v in WS.ListsOf(s.envs[e]).active
    ensures v in WS.ListsOf(s.envs[e]).active ==>
              Page(e, v) in s.m.own && s.m.own[Page(e, v)] == Entry(s.m, Ram(e), v).frame
  {
    hide WS.ListsOf, WS.EnvOk;
    assert EnvInv(s, e);
    WS.EnvFacts(s.envs[e]);
    var l := WS.ListsOf(s.envs[e]);
    Lru.DistinctAppend(l.active, l.second);
    assert v in l.All() ==> v in l.active || v in l.second;
  }

  lemma EntryMapped(m: Mem, e: nat, v: Vpn)
    requires MemOk(m) && Entry(m, Ram(e), v).present
    ensures Page(e, v) in m.own && m.own[Page(e, v)] == Entry(m, Ram(e), v).frame && (Ram(e), v) in m.leaf
  {
  }

  // ---------- freeing and counting the page file ----------

  lemma DirFacts(m: Mem, e: nat, env: Env)
    requires DirsLoading(m, e, env) && env.ddir != 0
    ensures Dir(Ram(e)) in m.own && m.own[Dir(Ram(e))] == env.dir
    ensures Dir(Swap(e)) in m.own && m.own[Dir(Swap(e))] == env.ddir
  {
  }

  lemma RamDir(m: Mem, e: nat, env: Env)
    requires DirsLoading(m, e, env)
    ensures Dir(Ram(e)) in m.own && m.own[Dir(Ram(e))] == env.dir
  {
  }

  lemma NoDir(m: Mem, e: nat, env: Env)
    requires DirsLoading(m, e, env)
    ensures env.ddir == 0 ==> Dir(Swap(e)) !in m.own
  {
  }

  lemma SameOwners(m: Mem, m': Mem, e: nat, env: Env)
    requires DirsLoading(m, e, env) && m'.own == m.own
    ensures DirsLoading(m', e, env)
  {
  }

  lemma EntryGone(m: Mem, e: nat, v: Vpn)
    ensures (Swap(e), v) !in m.leaf ==> WithEntry(m, Swap(e), v, ZERO) == m
  {
  }

  /** m without the first t entries of disk table d. */
  ghost function RowCleared(m: Mem, e: nat, d: nat, t: nat): Mem {
    m.(leaf := map k | k in m.leaf && !(k.0 == Swap(e) && k.1.d == d && k.1.t < t) :: m.leaf[k])
  }

  lemma NoRowCleared(m: Mem, e: nat, d: nat)
    ensures RowCleared(m, e, d, 0) == m
  {
    assert RowCleared(m, e, d, 0).leaf == m.leaf;
  }

  lemma OneMoreInRow(m: Mem, e: nat, d: nat, t: nat)
    ensures WithEntry(RowCleared(m, e, d, t), Swap(e), Vpn(d, t), ZERO) == RowCleared(m, e, d, t + 1)
    ensures Entry(RowCleared(m, e, d, t), Swap(e), Vpn(d, t)) == Entry(m, Swap(e), Vpn(d, t))
    ensures (Swap(e), Vpn(d, t)) in RowCleared(m, e, d, t).leaf <==> (Swap(e), Vpn(d, t)) in m.leaf
  {
    var m1, m2 := RowCleared(m, e, d, t), RowCleared(m, e, d, t + 1);
    forall k: (Space, Vpn) ensures k in m2.leaf <==> k in m1.leaf && k != (Swap(e), Vpn(d, t)) {
      assert k.0 == Swap(e) && k.1.d == d && k.1.t == t ==> k == (Swap(e), Vpn(d, t));
    }
    assert m2.leaf == m1.leaf - {(Swap(e), Vpn(d, t))};
  }

  lemma RowGone(m: Mem, e: nat, d: nat)
    requires MemOk(m)
    ensures forall v :: (Swap(e), v) in RowCleared(m, e, d, NPTENTRIES).leaf ==> v.d != d
    ensures RowCleared(m, e, d, NPTENTRIES).leaf == LeavesExcept(m.leaf, Swap(e), d)
    ensures RowCleared(m, e, d, NPTENTRIES).own == m.own
  {
  }

  lemma RowThenTable(m: Mem, e: nat, d: nat)
    requires MemOk(m) && Table(Swap(e), d) in m.own
    ensures DropTable(RowCleared(m, e, d, NPTENTRIES), Swap(e), d) == DropTable(m, Swap(e), d)
  {
    hide MemOk;
    RowGone(m, e, d);
    var m2 := RowCleared(m, e, d, NPTENTRIES);
    hide RowCleared;
    LeavesTwice(m.leaf, Swap(e), d);
    assert m2 == m.(leaf := LeavesExcept(m.leaf, Swap(e), d)) by { RowOnly(m, e, d); }
  }

  lemma RowOnly(m: Mem, e: nat, d: nat)
    ensures RowCleared(m, e, d, NPTENTRIES) == m.(leaf := RowCleared(m, e, d, NPTENTRIES).leaf)
  {
  }

  lemma LeavesTwice(leaf: map<(Space, Vpn), Word>, sp: Space, d: nat)
    ensures LeavesExcept(LeavesExcept(leaf, sp, d), sp, d) == LeavesExcept(leaf, sp, d)
  {
  }

  lemma NoTableToDrop(m: Mem, e: nat, d: nat)
    requires Table(Swap(e), d) !in m.own
    ensures DropTable(m, Swap(e), d) == m
  {
  }

  lemma {:induction false} FreeRowSame(leaf: map<(Space, Vpn), Word>, leaf': map<(Space, Vpn), Word>, e: nat, d: nat,
                                       t: nat, q: seq<Word>)
    requires forall t1: nat :: (Swap(e), Vpn(d, t1)) in leaf <==> (Swap(e), Vpn(d, t1)) in leaf'
    requires forall t1: nat :: (Swap(e), Vpn(d, t1)) in leaf ==>
        leaf'[(Swap(e), Vpn(d, t1))] == leaf[(Swap(e), Vpn(d, t1))]
    ensures FreeRow(leaf, e, d, t, q) == FreeRow(leaf', e, d, t, q)
  {
    if t > 0 {
      FreeRowSame(leaf, leaf', e, d, t - 1, q);
    }
  }

  /** The tables freed so far do not matter to row d. */
  lemma RowsAgree(m0: Mem, e: nat, d: nat, q: seq<Word>)
    requires MemOk(m0) && Dir(Swap(e)) in m0.own
    ensures FreeRow(DropTables(m0, Swap(e), d).leaf, e, d, NPTENTRIES, q) == FreeRow(m0.leaf, e, d, NPTENTRIES, q)
  {
    DropTablesOk(m0, Swap(e), d);
    FreeRowSame(m0.leaf, DropTables(m0, Swap(e), d).leaf, e, d, NPTENTRIES, q);
  }

  lemma {:induction false} EmptyRow(m: Mem, e: nat, d: nat, t: nat, q: seq<Word>)
    requires Table(Swap(e), d) !in m.own && forall k :: k in m.leaf ==> Table(k.0, k.1.d) in m.own
    ensures FreeRow(m.leaf, e, d, t, q) == q
  {
    if t > 0 {
      EmptyRow(m, e, d, t - 1, q);
    }
  }

  lemma DiskTablePresent(mem: seq<Block>, own: map<Owner, Frame>, leaf: map<(Space, Vpn), Word>, e: nat, d: nat)
    requires WordsOk(mem, own, leaf) && Dir(Swap(e)) in own && d < USER_PDX
    ensures own[Dir(Swap(e))] < |mem| && d < |mem[own[Dir(Swap(e))]]|
    ensures mem[own[Dir(Swap(e))]][d].present <==> Table(Swap(e), d) in own
    ensures Table(Swap(e), d) in own ==> mem[own[Dir(Swap(e))]][d].frame == own[Table(Swap(e), d)]
  {
    assert mem[own[Dir(Swap(e))]][d] == DirWord(own, Swap(e), d);
  }

  lemma DirectoryWritten(mem: seq<Block>, own: map<Owner, Frame>, mem': seq<Block>, sp: Space, d: nat)
    requires |mem'| == |mem| && Exclusive(own) && Dir(sp) in own
    requires forall g :: 0 <= g < |mem| && g != own[Dir(sp)] ==> mem'[g] == mem[g]
    ensures forall own' :: own' == own - {Table(sp, d)} ==> DataOf(mem', own') == DataOf(mem, own)
  {
    var own' := own - {Table(sp, d)};
    forall e1, v | Page(e1, v) in own && own[Page(e1, v)] < |mem|
      ensures mem'[own[Page(e1, v)]] == mem[own[Page(e1, v)]]
    {
      assert own[Page(e1, v)] != own[Dir(sp)];
    }
    DataKept(mem, own, mem', own');
  }

  lemma AllDropped(m: Mem, e: nat)
    requires MemOk(m) && Dir(Swap(e)) in m.own
    ensures forall d: nat :: Table(Swap(e), d) !in DropTables(m, Swap(e), USER_PDX).own
  {
    DropTablesOk(m, Swap(e), USER_PDX);
    assert forall d: nat :: Table(Swap(e), d) in m.own ==> d < USER_PDX;
  }

  lemma DropDirPages(m: Mem, e: nat)
    ensures PagesSame(m.own, Release(m, Dir(Swap(e))).own)
  {
  }

  /** The pages of e in the page file. */
  ghost function InPageFile(leaf: map<(Space, Vpn), Word>, e: nat): set<Vpn> {
    set k | k in leaf && k.0 == Swap(e) :: k.1
  }

  /** ... and those before entry t of table d. */
  ghost function Before(leaf: map<(Space, Vpn), Word>, e: nat, d: nat, t: nat): set<Vpn> {
    set k | k in leaf && k.0 == Swap(e) && RowsBefore(k.1, d, t) :: k.1
  }

  lemma NothingBefore(leaf: map<(Space, Vpn), Word>, e: nat)
    ensures Before(leaf, e, 0, 0) == {}
  {
  }

  lemma CountNext(leaf: map<(Space, Vpn), Word>, e: nat, d: nat, t: nat)
    requires t < NPTENTRIES
    ensures |Before(leaf, e, d, t + 1)| == |Before(leaf, e, d, t)| + if (Swap(e), Vpn(d, t)) in leaf then 1 else 0
  {
    var u := Vpn(d, t);
    RowsNext(d, t, t + 1);
    if (Swap(e), u) in leaf {
      assert Before(leaf, e, d, t + 1) == Before(leaf, e, d, t) + {u};
    } else {
      assert Before(leaf, e, d, t + 1) == Before(leaf, e, d, t);
    }
  }

  lemma NextRow(leaf: map<(Space, Vpn), Word>, e: nat, d: nat)
    ensures Before(leaf, e, d + 1, 0) == Before(leaf, e, d, NPTENTRIES)
  {
    assert forall v: Vpn :: RowsBefore(v, d + 1, 0) <==> RowsBefore(v, d, NPTENTRIES);
  }

  lemma SkipRow(leaf: map<(Space, Vpn), Word>, e: nat, d: nat)
    requires forall v :: (Swap(e), v) in leaf ==> v.d != d
    ensures Before(leaf, e, d + 1, 0) == Before(leaf, e, d, 0)
  {
    assert forall k: (Space, Vpn) :: k.0 == Swap(e) ==> k == (Swap(e), k.1);
  }

  lemma AllBefore(m: Mem, e: nat)
    requires MemOk(m)
    ensures Before(m.leaf, e, USER_PDX, 0) == InPageFile(m.leaf, e)
  {
    LeafRange(m);
  }

  // ---------- the values between the steps of env_free ----------

  lemma {:induction false} UnmapConcat(s: State, e: nat, a: seq<Vpn>, b: seq<Vpn>)
    ensures UnmapPages(s, e, a + b) == UnmapPages(UnmapPages(s, e, a), e, b)
    decreases |a|
  {
    if a == [] {
      assert a + b == b;
    } else {
      assert (a + b)[1..] == a[1..] + b;
      UnmapConcat(s.(m := Unmapped(s.m, e, a[0]), data := s.data - {(e, a[0])}), e, a[1..], b);
    }
  }

  lemma UnmapNext(s: State, e: nat, pages: seq<Vpn>, i: nat)
    requires i < |pages|
    ensures var t := UnmapPages(s, e, pages[..i]);
            UnmapPages(s, e, pages[..i + 1]) == t.(m := Unmapped(t.m, e, pages[i]), data := t.data - {(e, pages[i])})
  {
    UnmapConcat(s, e, pages[..i], [pages[i]]);
    assert pages[..i] + [pages[i]] == pages[..i + 1];
    var t := UnmapPages(s, e, pages[..i]);
    assert [pages[i]][1..] == [];
    assert UnmapPages(t, e, [pages[i]])
        == UnmapPages(t.(m := Unmapped(t.m, e, pages[i]), data := t.data - {(e, pages[i])}), e, []);
  }

  lemma {:induction false} UnmapEnvs(s: State, e: nat, pages: seq<Vpn>, envs: map<nat, Env>)
    ensures UnmapPages(s.(envs := envs), e, pages) == UnmapPages(s, e, pages).(envs := envs)
    ensures UnmapPages(s, e, pages).envs == s.envs
    decreases |pages|
  {
    if pages != [] {
      UnmapEnvs(s.(m := Unmapped(s.m, e, pages[0]), data := s.data - {(e, pages[0])}), e, pages[1..], envs);
    }
  }

  lemma PagesUser(s: State, e: nat)
    requires Inv(s) && e in s.envs
    ensures forall u :: u in WS.PagesOf(s.envs[e], s.envs[e].active) ==> UserPage(u)
    ensures forall u :: u in WS.PagesOf(s.envs[e], s.envs[e].second) ==> UserPage(u)
  {
    assert EnvInv(s, e);
  }

  lemma PagesSameVa(env: Env, env': Env)
    requires env'.va == env.va && env'.second == env.second
    ensures WS.PagesOf(env', env'.second) == WS.PagesOf(env, env.second)
  {
    WS.PagesSame(env, env', env.second);
  }

  lemma UnmapBoth(s: State, s1: State, s2: State, e: nat)
    requires e in s.envs && e in s1.envs
    requires s1.(envs := s.envs) == UnmapPages(s, e, WS.PagesOf(s.envs[e], s.envs[e].active))
    requires s2.(envs := s1.envs) == UnmapPages(s1, e, WS.PagesOf(s.envs[e], s.envs[e].second))
    ensures s2.(envs := s.envs) == UnmapPages(s, e, WS.Pages(s.envs[e]))
  {
    var a, b := WS.PagesOf(s.envs[e], s.envs[e].active), WS.PagesOf(s.envs[e], s.envs[e].second);
    UnmapConcat(s, e, a, b);
    UnmapEnvs(s1, e, b, s.envs);
  }

  lemma FreeReady(s: State, e: nat)
    requires Inv(s) && e in s.envs
    ensures var s1 := UnmapPages(s, e, WS.Pages(s.envs[e]));
            Droppable(s1.m, Ram(e)) && Dir(Swap(e)) in s1.m.own && e in s1.envs
  {
    hide WS.EnvOk, OthersKept;
    assert EnvInv(s, e);
    WS.EnvFacts(s.envs[e]);
    StartUnmapping(s, e);
    UnmapPagesOk(s, s, e, WS.Pages(s.envs[e]));
    assert forall k: (Space, Vpn) :: k.0 == Ram(e) ==> k == (Ram(e), k.1);
  }

  lemma SpacePages(own: map<Owner, Frame>, own': map<Owner, Frame>, sp: Space)
    requires forall o :: o in own' <==> o in own && !((o.Table? || o.Dir?) && o.sp == sp)
    requires forall o :: o in own' ==> own'[o] == own[o]
    ensures PagesSame(own, own')
  {
  }

  // ---------- the values between the steps of env_create ----------

  lemma LoadFacts(m: Mem, e: nat, v: Vpn)
    requires MemOk(m) && m.free != [] && UserPage(v) && (Ram(e), v) !in m.leaf && CanHaveTable(Alloc(m), Ram(e), v.d)
    requires Dir(Ram(e)) in m.own
    ensures var m1 := Alloc(m);
            && m1.own == m.own && m1.leaf == m.leaf && Mappable(m1, m.free[0]) && FirstFree(m) == m.free[0]
            && m.free[0] < |m.refs| && m.free[0] !in m.own.Values && Page(e, v) !in m.own
  {
    AllocOk(m);
  }

  lemma LoadDirs(m: Mem, m': Mem, e: nat, v: Vpn, env: Env)
    requires DirsLoading(m, e, env)
    requires forall o :: o in m'.own <==> o in m.own || o == Page(e, v) || o == Table(Ram(e), v.d)
    requires forall o :: o in m.own ==> m'.own[o] == m.own[o]
    ensures DirsLoading(m', e, env)
  {
  }

  lemma MapNewHolds(s: State, e: nat, v: Vpn, junk: Block)
    ensures (e, v) in MapNew(s, e, v, junk).data && MapNew(s, e, v, junk).data[(e, v)] == junk
  {
  }

  lemma LoadAssembled(s: State, e: nat, v: Vpn, junk: Block, b: Block, cap: nat)
    requires e in s.envs && s.envs[e].work != []
    ensures var s1 := SetEnv(MapNew(s, e, v, junk), e, WS.LoadInsert(s.envs[e], v, cap));
            WithPerms(s1.(data := s1.data[(e, v) := b]), e, v, MODIFIED, NONE) == LoadPage(s, e, v, b, cap)
  {
    hide Mapped, SetPerms, WS.LoadInsert;
    var s1 := MapNew(s, e, v, junk);
    assert s1.data[(e, v) := b] == s.data[(e, v) := b];
  }

  /** s1 is the state of a new environment from which all the steps can be taken. */
  ghost predicate CanLoad(s0: State, s1: State, e: nat, ops: seq<Step>, cap: nat) {
    && Loading(s0, s1, e, map[], map[]) && WS.LoadOk(s1.envs[e], cap) && Listed(s1.envs[e], map[])
    && WS.ListsOf(s1.envs[e]) == Lru.Empty()
    && ProgramOk(ops) && RoomToLoad(s1, e, ops, cap) && Frames(ops) <= |s1.envs[e].work|
  }

  lemma {:induction false} CanLoadPrefix(s0: State, s1: State, e: nat, ops: seq<Step>, cap: nat, n: nat)
    requires CanLoad(s0, s1, e, ops, cap) && n <= |ops|
    ensures CanLoad(s0, s1, e, ops[..n], cap)
    decreases |ops|
  {
    if n == |ops| {
      assert ops[..n] == ops;
    } else {
      hide Loading, WS.LoadOk, Listed, LoadAll, Image;
      assert Lru.Front(ops)[..n] == ops[..n];
      CanLoadPrefix(s0, s1, e, Lru.Front(ops), cap, n);
    }
  }

  /** What a step may rely on. */
  lemma StepReady(s0: State, s1: State, e: nat, ops: seq<Step>, cap: nat, n: nat)
    requires CanLoad(s0, s1, e, ops, cap) && n < |ops|
    ensures var t, op := LoadAll(s1, e, ops[..n], cap), ops[n];
            && LoadAll(s1, e, ops[..n + 1], cap) == LoadStep(t, e, op, cap)
            && UserPage(op.v) && |op.b| == NPTENTRIES
            && e in t.envs && DirsLoading(t.m, e, t.envs[e]) && t.m.limbo == {} && Injective(t.m.own)
            && ZERO !in t.dfree
            && (op.InMemory? ==>
                  && (Ram(e), op.v) !in t.m.leaf && RoomForFrame(t, e, op.v) && t.envs[e].work != []
                  && |t.envs[e].work| <= |t.envs[e].va|
                  && Lru.Last(t.envs[e].work) == |t.envs[e].va| - |t.envs[e].work|)
            && (op.InFile? ==>
                  (t.envs[e].ddir != 0 || t.m.free != []) && CanHaveTable(DiskDir(t, e).m, Swap(e), op.v.d))
  {
    hide Loading, WS.LoadOk, Listed, LoadStep, RoomForFrame, CanHaveTable;
    CanLoadPrefix(s0, s1, e, ops, cap, n);
    CanLoadPrefix(s0, s1, e, ops, cap, n + 1);
    var t, op := LoadAll(s1, e, ops[..n], cap), ops[n];
    assert Lru.Front(ops[..n + 1]) == ops[..n] && Lru.Last(ops[..n + 1]) == op;
    LoadAllOk(s0, s1, e, ops[..n], cap);
    LoadingFacts(s0, t, e, Image(ops[..n]), FileImage(ops[..n]));
    if op.InMemory? {
      assert Frames(ops[..n + 1]) == Frames(ops[..n]) + 1;
      LoadSizes(t.envs[e], cap);
    }
  }

  lemma LoadingFacts(s0: State, t: State, e: nat, ram: map<Vpn, Block>, pf: map<Vpn, Block>)
    requires Loading(s0, t, e, ram, pf)
    ensures e in t.envs && DirsLoading(t.m, e, t.envs[e]) && t.m.limbo == {} && Injective(t.m.own) && ZERO !in t.dfree
    ensures MemOk(t.m) && forall v :: (Ram(e), v) in t.m.leaf <==> v in ram
    ensures forall v :: v in ram ==> UserPage(v)
  {
    NoLimbo(t);
  }

  lemma LoadSizes(env: Env, cap: nat)
    requires WS.LoadOk(env, cap)
    ensures |env.work| <= |env.va|
    ensures env.work != [] ==> Lru.Last(env.work) == |env.va| - |env.work|
  {
    if env.work != [] {
      WS.NextElement(env, cap);
    }
  }

  lemma StepAt(seg: Segment, remaining: nat, ops: seq<Step>, n: nat, i: nat)
    requires n <= |ops| && SegmentSteps(seg, remaining) <= ops[n..] && i < |SegmentSteps(seg, remaining)|
    ensures var k := LoadCount(seg, remaining);
            && n + i < |ops| && |SegmentSteps(seg, remaining)| == k + |seg.file|
            && ops[n + i] == if i < k then InMemory(seg.mem[i].0, seg.mem[i].1)
                             else InFile(seg.file[i - k].0, seg.file[i - k].1)
  {
    assert ops[n..][i] == SegmentSteps(seg, remaining)[i];
  }

  lemma PermsNext(s: State, e: nat, pages: seq<Vpn>, i: nat, c: Mask)
    requires i < |pages|
    ensures Perms(s, e, pages[..i + 1], c) == WithPerms(Perms(s, e, pages[..i], c), e, pages[i], NONE, c)
  {
    assert Lru.Front(pages[..i + 1]) == pages[..i] && Lru.Last(pages[..i + 1]) == pages[i];
  }

  lemma LoadNothing(s: State, e: nat, cap: nat)
    ensures LoadAll(s, e, [], cap) == s
  {
  }

  lemma CreateStart(s: State, e: nat, A: nat, S: nat, segs: seq<Segment>)
    requires Inv(s) && e !in s.envs && A >= 1 && ProgramOk(Steps(segs, A + S - 1))
    requires RoomToCreate(s, e, A, S, Steps(segs, A + S - 1))
    ensures s.m.free != [] && Dir(Ram(e)) !in s.m.own
    ensures CanLoad(s, InitEnv(s, e, A, S), e, Steps(segs, A + S - 1), A - 1)
  {
    hide Loading, WS.LoadOk, Listed, InitEnv, WS.NewEnv, ProgramOk, RoomToLoad, Base, EnvInv, Frames, RoomForFrame,
         RoomForFile;
    BaseOf(s);
    NothingOf(s, e);
    InitLoading(s, e, A, S);
    NewListed(s.m.free[0], A, S);
    StepsFit(segs, A + S - 1);
  }

  lemma UsedPages(env: Env, cap: nat, ram: map<Vpn, Block>)
    requires WS.LoadOk(env, cap) && Listed(env, ram)
    ensures forall u :: u in LoadedPages(env) ==> u in ram
  {
    forall u | u in LoadedPages(env) ensures u in ram {
      var x :| 0 <= x < |LoadedPages(env)| && LoadedPages(env)[x] == u;
      WS.UsedInLists(env, cap, x);
      assert WS.PageAt(env, x) == u;
      WS.ListedPage(env, x);
    }
  }

  /** After the segments: the program is loaded, and there is an element left for the stack page. */
  ghost predicate Ready(s: State, t: State, e: nat, A: nat, ops: seq<Step>)
    requires A >= 1
  {
    && Loading(s, t, e, Image(ops), FileImage(ops))
    && WS.LoadOk(t.envs[e], A - 1) && Listed(t.envs[e], Image(ops)) && t.envs[e].work != [] && t.envs[e].A == A
  }

  lemma LoadReady(s: State, e: nat, A: nat, S: nat, segs: seq<Segment>, ops: seq<Step>)
    requires Inv(s) && e !in s.envs && A >= 1 && ops == Steps(segs, A + S - 1) && ProgramOk(ops)
    requires RoomToCreate(s, e, A, S, ops)
    ensures Ready(s, LoadAll(InitEnv(s, e, A, S), e, ops, A - 1), e, A, ops)
  {
    hide Loading, WS.LoadOk, Listed, InitEnv, ProgramOk, RoomToLoad, LoadAll, WS.NewEnv, Image, FileImage, Frames, Base,
         EnvInv;
    var s1 := InitEnv(s, e, A, S);
    BaseOf(s);
    var t := LoadAll(s1, e, ops, A - 1);
    CreateStart(s, e, A, S, segs);
    LoadAllOk(s, s1, e, ops, A - 1);
    LoadingEnv(s, t, e, Image(ops), FileImage(ops));
    StepsFit(segs, A + S - 1);
    InitLoading(s, e, A, S);
    NewListed(s.m.free[0], A, S);
  }

  lemma CleanReady(s: State, t: State, e: nat, A: nat, ops: seq<Step>)
    requires A >= 1 && Ready(s, t, e, A, ops)
    ensures Ready(s, CleanAll(t, e), e, A, ops)
  {
    hide Loading, WS.LoadOk, Listed, CleanAll;
    CleanAllLoading(s, t, e, A - 1, Image(ops), FileImage(ops));
    LoadingEnv(s, CleanAll(t, e), e, Image(ops), FileImage(ops));
  }

  lemma ReadyFacts(s: State, t: State, e: nat, A: nat, ops: seq<Step>)
    requires A >= 1 && Ready(s, t, e, A, ops) && ProgramOk(ops)
    ensures e in t.envs && DirsLoading(t.m, e, t.envs[e]) && |t.envs[e].work| <= |t.envs[e].va| && t.envs[e].A == A
    ensures t.envs[e].work != [] && Lru.Last(t.envs[e].work) == |t.envs[e].va| - |t.envs[e].work|
    ensures forall u :: u in LoadedPages(t.envs[e]) ==> UserPage(u) && (Ram(e), u) in t.m.leaf
    ensures t.m.limbo == {} && Injective(t.m.own) && (Ram(e), STACK_PAGE) !in t.m.leaf && ZERO !in t.dfree
  {
    hide Loading, WS.LoadOk, Listed, LoadedPages;
    LoadingFacts(s, t, e, Image(ops), FileImage(ops));
    LoadSizes(t.envs[e], A - 1);
    UsedPages(t.envs[e], A - 1, Image(ops));
    NoStackPage(ops);
  }

  lemma CreateLoaded(s: State, e: nat, A: nat, S: nat, segs: seq<Segment>, ops: seq<Step>)
    requires Inv(s) && e !in s.envs && A >= 1 && ops == Steps(segs, A + S - 1) && ProgramOk(ops)
    requires RoomToCreate(s, e, A, S, ops)
    ensures var t := LoadAll(InitEnv(s, e, A, S), e, ops, A - 1);
            && e in t.envs && DirsLoading(t.m, e, t.envs[e]) && |t.envs[e].work| <= |t.envs[e].va|
            && (forall u :: u in LoadedPages(t.envs[e]) ==> UserPage(u) && (Ram(e), u) in t.m.leaf)
  {
    hide InitEnv, LoadAll, LoadedPages, ProgramOk, RoomToCreate, Ready, Inv;
    LoadReady(s, e, A, S, segs, ops);
    ReadyFacts(s, LoadAll(InitEnv(s, e, A, S), e, ops, A - 1), e, A, ops);
  }

  lemma CreateCleaned(s: State, e: nat, A: nat, S: nat, segs: seq<Segment>, ops: seq<Step>)
    requires Inv(s) && e !in s.envs && A >= 1 && ops == Steps(segs, A + S - 1) && ProgramOk(ops)
    requires RoomToCreate(s, e, A, S, ops)
    ensures var t := CleanAll(LoadAll(InitEnv(s, e, A, S), e, ops, A - 1), e);
            && e in t.envs && DirsLoading(t.m, e, t.envs[e]) && |t.envs[e].work| <= |t.envs[e].va| && t.envs[e].A == A
            && t.envs[e].work != [] && Lru.Last(t.envs[e].work) == |t.envs[e].va| - |t.envs[e].work|
            && t.m.limbo == {} && Injective(t.m.own) && (Ram(e), STACK_PAGE) !in t.m.leaf
            && RoomForFrame(t, e, STACK_PAGE)
  {
    hide InitEnv, LoadAll, LoadedPages, ProgramOk, Ready, Inv, CleanAll, RoomForFrame, RoomForFile, RoomToLoad;
    var t := LoadAll(InitEnv(s, e, A, S), e, ops, A - 1);
    LoadReady(s, e, A, S, segs, ops);
    CleanReady(s, t, e, A, ops);
    ReadyFacts(s, CleanAll(t, e), e, A, ops);
  }

  lemma CreateStacked(s: State, e: nat, A: nat, S: nat, segs: seq<Segment>, ops: seq<Step>)
    requires Inv(s) && e !in s.envs && A >= 1 && ops == Steps(segs, A + S - 1) && ProgramOk(ops)
    requires RoomToCreate(s, e, A, S, ops)
    ensures var t := LoadPage(CleanAll(LoadAll(InitEnv(s, e, A, S), e, ops, A - 1), e), e, STACK_PAGE, ZeroBlock(), A);
            && e in t.envs && DirsLoading(t.m, e, t.envs[e]) && (t.envs[e].ddir != 0 || t.m.free != [])
            && CanHaveTable(DiskDir(t, e).m, Swap(e), STACK_PAGE.d) && ZERO !in t.dfree
  {
    hide InitEnv, LoadAll, Loading, WS.LoadOk, Listed, ProgramOk, Inv, CleanAll, RoomForFrame, RoomToLoad, CanHaveTable,
         DiskDir, LoadPage;
    var t := LoadAll(InitEnv(s, e, A, S), e, ops, A - 1);
    LoadReady(s, e, A, S, segs, ops);
    CleanReady(s, t, e, A, ops);
    NoStackPage(ops);
    var t' := LoadPage(CleanAll(t, e), e, STACK_PAGE, ZeroBlock(), A);
    LoadPageLoading(s, CleanAll(t, e), e, STACK_PAGE, ZeroBlock(), A, Image(ops), FileImage(ops));
    LoadingFacts(s, t', e, Image(ops)[STACK_PAGE := ZeroBlock()], FileImage(ops));
  }

  lemma CreateHidden(s: State, e: nat, A: nat, S: nat, segs: seq<Segment>, ops: seq<Step>, zeroPage: Block)
    requires Inv(s) && e !in s.envs && A >= 1 && ops == Steps(segs, A + S - 1) && ProgramOk(ops)
    requires RoomToCreate(s, e, A, S, ops) && |zeroPage| == NPTENTRIES
    ensures var t3 := CleanAll(LoadAll(InitEnv(s, e, A, S), e, ops, A - 1), e);
            var t := PfPut(LoadPage(t3, e, STACK_PAGE, ZeroBlock(), A), e, STACK_PAGE, zeroPage);
            && Create(s, e, A, S, segs, zeroPage) == HideSecond(t, e)
            && e in t.envs && DirsLoading(t.m, e, t.envs[e])
            && (forall u :: u in WS.PagesOf(t.envs[e], t.envs[e].second) ==> UserPage(u) && (Ram(e), u) in t.m.leaf)
  {
    hide Loading, WS.LoadOk, InitEnv, RoomToLoad, LoadAll, CleanAll, RoomForFrame, LoadPage, WS.PagesOf, HideSecond,
         PfPut, NewWorkingSet;
    CreateCleaned(s, e, A, S, segs, ops);
    CreateSteps(s, e, A, S, segs, ops, zeroPage);
    var s4 := AddStack(CleanAll(LoadAll(InitEnv(s, e, A, S), e, ops, A - 1), e), e, zeroPage);
    LoadingFacts(s, s4, e, Image(ops)[STACK_PAGE := ZeroBlock()], FileImage(ops)[STACK_PAGE := zeroPage]);
  }

  // ---------- freeMem ----------

  lemma FreeStart(s: State, e: nat, v: Vpn)
    requires Inv(s) && e in s.envs
    ensures DirsLoading(s.m, e, s.envs[e]) && s.envs == PfRemove(s, e, v).envs
  {
    DirsOf(s, e);
  }

  lemma FoundActive(s: State, e: nat, v: Vpn, i: nat)
    requires Inv(s) && e in s.envs && i < |s.envs[e].active| && WS.PageAt(s.envs[e], s.envs[e].active[i]) == v
    requires forall k :: 0 <= k < i ==> WS.PageAt(s.envs[e], s.envs[e].active[k]) != v
    ensures var env, s1 := s.envs[e], PfRemove(s, e, v);
            && FreePage(s, e, v) == SetEnv(Unmap(ShowHead(s1, e, env), e, v), e, WS.DropActive(env, i))
            && (env.second != [] ==>
                  UserPage(WS.PageAt(env, env.second[0])) && (Ram(e), WS.PageAt(env, env.second[0])) in s1.m.leaf)
  {
    hide Base, WS.EnvOk;
    assert EnvInv(s, e);
    var env, l := s.envs[e], WS.ListsOf(s.envs[e]);
    FindFirst(env, env.active, v, i);
    assert l.active[i] == v;
    FreeLists(s.m, s.data, e, env, v);
    if env.second != [] {
      assert l.second[0] in l.second && l.second[0] in l.All();
    }
  }

  lemma FindFirst(env: Env, q: seq<nat>, v: Vpn, i: nat)
    requires i < |q| && WS.PageAt(env, q[i]) == v && forall k :: 0 <= k < i ==> WS.PageAt(env, q[k]) != v
    ensures WS.Find(env, q, v) == i
  {
    var f := WS.Find(env, q, v);
    assert f < |q| ==> WS.PageAt(env, q[f]) == v;
  }

  lemma FoundSecond(s: State, e: nat, v: Vpn, j: nat)
    requires Inv(s) && e in s.envs && j < |s.envs[e].second| && WS.PageAt(s.envs[e], s.envs[e].second[j]) == v
    requires WS.Find(s.envs[e], s.envs[e].second, v) == j && s.envs[e].active != []
    ensures FreePage(s, e, v) == SetEnv(Unmap(PfRemove(s, e, v), e, v), e, WS.DropSecond(s.envs[e], j))
  {
    hide Base, WS.EnvOk;
    assert EnvInv(s, e);
    var env, l := s.envs[e], WS.ListsOf(s.envs[e]);
    assert l.second[j] == v && v in l.second;
    FreeLists(s.m, s.data, e, env, v);
    WS.FindIn(env, env.active, v);
  }

  lemma FoundNowhere(s: State, e: nat, v: Vpn)
    requires Inv(s) && e in s.envs
    requires forall k :: 0 <= k < |s.envs[e].active| ==> WS.PageAt(s.envs[e], s.envs[e].active[k]) != v
    requires s.envs[e].active != [] ==> WS.Find(s.envs[e], s.envs[e].second, v) == |s.envs[e].second|
    ensures FreePage(s, e, v) == PfRemove(s, e, v)
  {
    WS.FindIn(s.envs[e], s.envs[e].active, v);
    WS.FindIn(s.envs[e], s.envs[e].second, v);
  }

  /** The pages of the range are user pages. */
  lemma RangeUser(va: nat, size: nat, i: nat)
    requires va + size < USER_PDX * 0x40_0000 && i < PagesFor(size)
    ensures UserPage(Nth(va / 4096 + i)) && va + i * 4096 < 0x1_0000_0000
  {
    assert i * 4096 < size;
    assert 4096 * (va / 4096 + i) <= va + i * 4096;
    PageInRange(va / 4096 + i);
  }

  lemma FirstState(s: State, e: nat)
    requires Inv(s) && e in s.envs
    ensures DirsLoading(s.m, e, s.envs[e])
  {
    DirsOf(s, e);
  }

  lemma DroppedState(s: State, e: nat, d: nat)
    requires Base(s) && e in s.envs && DirsLoading(s.m, e, s.envs[e])
    ensures var s' := DropEmpty(s, e, d); Base(s') && s'.envs == s.envs && DirsLoading(s'.m, e, s'.envs[e])
  {
    hide Base, EmptyTable, OthersKept;
    if EmptyTable(s.m, e, d) {
      DropEmptyBase(s, e, d);
      hide DropEmpty;
    }
  }

  /** The directory entries the second loop looks at. */
  lemma EntryOf(va: nat, size: nat, c: nat)
    requires va + size < USER_PDX * 0x40_0000
    ensures c * 0x40_0000 <= size ==> c <= size / 0x40_0000
    ensures c * 0x40_0000 <= size ==> Pdx(va + c * 0x40_0000) == va / 4096 / 1024 + c < USER_PDX
    ensures c * 0x40_0000 > size ==> c > size / 0x40_0000
  {
    assert va / 4096 / 1024 == va / 0x40_0000;
    assert (va + c * 0x40_0000) / 0x40_0000 == va / 0x40_0000 + c;
  }
}

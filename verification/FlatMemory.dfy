/** Paging refines a flat memory: user loads see the last value stored, whatever was evicted and
    reloaded in between. */
module FlatMemory {
  import opened Mmu
  import opened FrameTable
  import opened Machine
  import opened Paging
  import Lru
  import WS = WorkingSet

  /** The words whose value is determined: the environment, its page, the word of the page. */
  type Flat = map<(nat, Vpn, nat), Word>

  /** The page's contents: its frame if it is resident, else its disk frame. */
  function Contents(s: State, e: nat, v: Vpn): Block {
    if (Ram(e), v) in s.m.leaf && (e, v) in s.data then s.data[(e, v)] else OnDisk(s, e, v)
  }

  /** One word of a page agrees with the flat memory; if the page is resident and clean, so does its
      disk copy. */
  ghost predicate WordAgrees(s: State, e: nat, v: Vpn, i: nat, w: Word) {
    && e in s.envs && (Swap(e), v) in s.m.leaf && i < NPTENTRIES
    && i < |Contents(s, e, v)| && Contents(s, e, v)[i] == w
    && (!Entry(s.m, Ram(e), v).modified ==> i < |OnDisk(s, e, v)| && OnDisk(s, e, v)[i] == w)
  }

  ghost predicate Agrees(s: State, flat: Flat) {
    forall k :: k in flat ==> WordAgrees(s, k.0, k.1, k.2, flat[k])
  }

  // ---------- what happens to one page in one step ----------

  ghost predicate Resident(s: State, e: nat, v: Vpn) {
    (Ram(e), v) in s.m.leaf && (e, v) in s.data
  }

  /** Page v of e keeps its disk frame, and its contents: it stays as it is, or is evicted and written
      back exactly if it was MODIFIED, or is loaded clean from its disk frame. */
  ghost predicate PageKept(s: State, s': State, e: nat, v: Vpn) {
    && e in s'.envs && (Swap(e), v) in s'.m.leaf
    && (if Resident(s, e, v) then
          if Resident(s', e, v) then
            && s'.data[(e, v)] == s.data[(e, v)] && OnDisk(s', e, v) == OnDisk(s, e, v)
            && s'.m.leaf[(Ram(e), v)].modified == s.m.leaf[(Ram(e), v)].modified
          else
            && (Ram(e), v) !in s'.m.leaf
            && OnDisk(s', e, v) == if s.m.leaf[(Ram(e), v)].modified then s.data[(e, v)] else OnDisk(s, e, v)
        else
          && (Ram(e), v) !in s.m.leaf && OnDisk(s', e, v) == OnDisk(s, e, v)
          && (Resident(s', e, v) ==> s'.data[(e, v)] == OnDisk(s, e, v) && !s'.m.leaf[(Ram(e), v)].modified)
          && ((Ram(e), v) in s'.m.leaf ==> Resident(s', e, v)))
  }

  /** Every page that has a disk frame is kept. */
  ghost predicate AllKept(s: State, s': State) {
    forall e, v :: e in s.envs && (Swap(e), v) in s.m.leaf ==> PageKept(s, s', e, v)
  }

  lemma KeptAgrees(s: State, s': State, flat: Flat)
    requires Agrees(s, flat) && AllKept(s, s')
    ensures Agrees(s', flat)
  {
    forall k | k in flat ensures WordAgrees(s', k.0, k.1, k.2, flat[k]) {
      KeptWord(s, s', k.0, k.1, k.2, flat[k]);
    }
  }

  lemma KeptWord(s: State, s': State, e: nat, v: Vpn, i: nat, w: Word)
    requires WordAgrees(s, e, v, i, w) && PageKept(s, s', e, v)
    ensures WordAgrees(s', e, v, i, w)
  {
  }

  // ---------- the steps ----------

  /** Eviction writes the victim back exactly when its MODIFIED bit is set, and disturbs no other page. */
  lemma EvictKept(s: State, e: nat)
    requires Inv(s) && e in s.envs && s.envs[e].work == [] && WS.HasVictim(s.envs[e])
    ensures AllKept(s, EvictPage(s, e))
  {
    assert EnvInv(s, e);
    EvictBase(s, e);
    var v := WS.PageAt(s.envs[e], WS.Victim(s.envs[e]));
    var s' := EvictPage(s, e);
    WS.EvictOk(s.envs[e]);
    LastIsMember(WS.Pages(s.envs[e]), WS.Pages(WS.Evict(s.envs[e])), v);
    assert s'.disk == WriteBack(s, e, v).disk;
    forall e1, v1 | e1 in s.envs && (Swap(e1), v1) in s.m.leaf ensures PageKept(s, s', e1, v1) {
      assert EnvInv(s, e1);
      EvictedPageKept(s, s', e, v, e1, v1);
    }
  }

  lemma EvictedPageKept(s: State, s': State, e: nat, v: Vpn, e1: nat, v1: Vpn)
    requires DiskOk(s.m.leaf, s.dfree, s.disk) && e1 in s'.envs
    requires (Ram(e), v) in s.m.leaf && (Swap(e), v) in s.m.leaf && (e, v) in s.data && (Swap(e1), v1) in s.m.leaf
    requires (Ram(e1), v1) in s.m.leaf <==> (e1, v1) in s.data
    requires s'.m.leaf == s.m.leaf - {(Ram(e), v)} && s'.data == s.data - {(e, v)} && s'.disk == WriteBack(s, e, v).disk
    ensures PageKept(s, s', e1, v1)
  {
    if (e1, v1) != (e, v) {
      assert s.m.leaf[(Swap(e1), v1)] != s.m.leaf[(Swap(e), v)];
    }
  }

  /** Placement touches the contents of the placed page only, and loads them from the page file. */
  lemma PlaceContents(s: State, e: nat, v: Vpn, junk: Block)
    requires Base(s) && EnvInv(s, e) && s.envs[e].work != [] && v !in WS.Pages(s.envs[e])
    requires UserPage(v) && Table(Ram(e), v.d) in s.m.own && |junk| == NPTENTRIES && RoomToPlace(s, e, v)
    ensures var s' := PlacePage(s, e, v, junk);
            && s'.disk == s.disk && s'.data.Keys == s.data.Keys + {(e, v)}
            && (forall k :: k in s.data && k != (e, v) ==> s'.data[k] == s.data[k])
            && ((Swap(e), v) in s.m.leaf ==> s'.data[(e, v)] == OnDisk(s, e, v))
            && !Entry(s'.m, Ram(e), v).modified
            && (forall k: (Space, Vpn) :: k.0.Ram? && k in s.m.leaf ==>
                  k in s'.m.leaf && s'.m.leaf[k].modified == s.m.leaf[k].modified)
            && (forall k: (Space, Vpn) :: k.0.Ram? && k in s'.m.leaf ==> k in s.m.leaf || k == (Ram(e), v))
            && (forall k: (Space, Vpn) :: k.0.Swap? && k in s.m.leaf ==> k in s'.m.leaf && s'.m.leaf[k] == s.m.leaf[k])
            && s'.envs.Keys == s.envs.Keys
  {
    hide Base, WS.EnvOk, OthersKept, PlacePage, FillPage, MapNew;
    assert (Ram(e), v) !in s.m.leaf;
    var s2 := FillPage(MapNew(s, e, v, junk), e, v);
    PlaceBase(s, e, v, junk);
    FillContents(s, e, v, junk);
    ModifiedKept(s, s2, PlacePage(s, e, v, junk).m, e, WS.ListsOf(s.envs[e]), s.envs[e].A, v);
  }

  lemma FillContents(s: State, e: nat, v: Vpn, junk: Block)
    requires Base(s) && EnvInv(s, e) && s.envs[e].work != [] && v !in WS.Pages(s.envs[e])
    requires UserPage(v) && Table(Ram(e), v.d) in s.m.own && |junk| == NPTENTRIES && RoomToPlace(s, e, v)
    ensures var s2 := FillPage(MapNew(s, e, v, junk), e, v);
            && s2.disk == s.disk && s2.data.Keys == s.data.Keys + {(e, v)} && s2.envs == s.envs
            && (forall k :: k in s.data && k != (e, v) ==> s2.data[k] == s.data[k])
            && ((Swap(e), v) in s.m.leaf ==> s2.data[(e, v)] == OnDisk(s, e, v))
            && !Entry(s2.m, Ram(e), v).modified
  {
    hide Base, OthersKept;
    var s1 := MapNew(s, e, v, junk);
    assert (Ram(e), v) !in s.m.leaf;
    MapNewBase(s, e, v, junk);
    assert |s1.m.free| == |s.m.free| - 1;
    FillBase(s1, e, v);
  }

  lemma ModifiedKept(s: State, s2: State, m': Mem, e: nat, l: Lru.Lists<Vpn>, A: nat, v: Vpn)
    requires MappedAndFilled(s, s2, e, v) && Demoted(s2.m, m', e, l, A, v) && !Entry(s2.m, Ram(e), v).modified
    ensures !Entry(m', Ram(e), v).modified
    ensures forall k: (Space, Vpn) :: k.0.Ram? && k in m'.leaf ==> k in s.m.leaf || k == (Ram(e), v)
    ensures forall k: (Space, Vpn) :: k.0.Swap? && k in s.m.leaf ==> k in m'.leaf && m'.leaf[k] == s.m.leaf[k]
    ensures forall k: (Space, Vpn) :: k.0.Ram? && k != (Ram(e), v) && k in s.m.leaf ==>
        k in m'.leaf && m'.leaf[k].modified == s.m.leaf[k].modified
  {
  }

  lemma PlaceKept(s: State, e: nat, v: Vpn, junk: Block)
    requires Inv(s) && e in s.envs && s.envs[e].work != [] && v !in WS.Pages(s.envs[e])
    requires UserPage(v) && Table(Ram(e), v.d) in s.m.own && |junk| == NPTENTRIES && RoomToPlace(s, e, v)
    ensures AllKept(s, PlacePage(s, e, v, junk))
  {
    hide Base, WS.EnvOk, OthersKept, PlacePage, DirsOk;
    assert EnvInv(s, e);
    PlaceContents(s, e, v, junk);
    var s' := PlacePage(s, e, v, junk);
    forall e1, v1 | e1 in s.envs && (Swap(e1), v1) in s.m.leaf ensures PageKept(s, s', e1, v1) {
      PlacedPageKept(s, s', e, v, e1, v1) by { DataLinked(s); NotMappedYet(s, e, v); }
    }
  }

  lemma NotMappedYet(s: State, e: nat, v: Vpn)
    requires EnvInv(s, e) && v !in WS.Pages(s.envs[e])
    ensures (Ram(e), v) !in s.m.leaf
  {
  }

  lemma PlacedPageKept(s: State, s': State, e: nat, v: Vpn, e1: nat, v1: Vpn)
    requires (Swap(e1), v1) in s.m.leaf && e1 in s'.envs && s'.disk == s.disk && (Ram(e), v) !in s.m.leaf
    requires (Ram(e1), v1) in s.m.leaf <==> (e1, v1) in s.data
    requires s'.data.Keys == s.data.Keys + {(e, v)}
    requires forall k :: k in s.data && k != (e, v) ==> s'.data[k] == s.data[k]
    requires (Swap(e), v) in s.m.leaf ==> s'.data[(e, v)] == OnDisk(s, e, v)
    requires !Entry(s'.m, Ram(e), v).modified
    requires forall k: (Space, Vpn) :: k.0.Ram? && k in s.m.leaf ==>
        k in s'.m.leaf && s'.m.leaf[k].modified == s.m.leaf[k].modified
    requires forall k: (Space, Vpn) :: k.0.Ram? && k in s'.m.leaf ==> k in s.m.leaf || k == (Ram(e), v)
    requires forall k: (Space, Vpn) :: k.0.Swap? && k in s.m.leaf ==> k in s'.m.leaf && s'.m.leaf[k] == s.m.leaf[k]
    ensures PageKept(s, s', e1, v1)
  {
    assert (e1, v1) in s'.data <==> (e1, v1) in s.data.Keys + {(e, v)};
    assert (e, v) in s'.data;
  }

  lemma DataLinked(s: State)
    requires Inv(s)
    ensures forall e: nat, v :: (Ram(e), v) in s.m.leaf ==> (e, v) in s.data
    ensures forall e, v :: e in s.envs ==> ((e, v) in s.data <==> (Ram(e), v) in s.m.leaf)
  {
    forall e: nat, v | (Ram(e), v) in s.m.leaf ensures (e, v) in s.data {
      assert Page(e, v) in s.m.own && OwnerEnv(Page(e, v)) in s.envs;
      assert EnvInv(s, e);
    }
    forall e, v | e in s.envs ensures (e, v) in s.data <==> (Ram(e), v) in s.m.leaf {
      assert EnvInv(s, e);
    }
  }

  // ---------- the handler ----------

  lemma PageFaultAgrees(s: State, e: nat, v: Vpn, junk: Block, flat: Flat)
    requires Inv(s) && e in s.envs && v !in WS.ListsOf(s.envs[e]).active && Agrees(s, flat)
    requires UserPage(v) && Table(Ram(e), v.d) in s.m.own && |junk| == NPTENTRIES && RoomToFault(s, e, v)
    ensures Agrees(PageFault(s, e, v, junk), flat)
  {
    hide Base, OthersKept, WS.EnvOk, Agrees;
    var env := s.envs[e];
    assert EnvInv(s, e);
    WS.EnvFacts(env);
    WS.FindIsMember(env, v);
    var i := WS.Find(env, env.second, v);
    if i < |env.second| {
      PromoteAgrees(s, e, v, i, flat);
    } else {
      assert v !in WS.Pages(env) && (Ram(e), v) !in s.m.leaf;
      if env.work != [] {
        PlaceKept(s, e, v, junk);
        KeptAgrees(s, PlacePage(s, e, v, junk), flat);
      } else {
        EvictInv(s, e);
        EvictKept(s, e);
        var s1 := EvictPage(s, e);
        KeptAgrees(s, s1, flat);
        EvictRoom(s, s1, e, v);
        PlaceKept(s1, e, v, junk);
        KeptAgrees(s1, PlacePage(s1, e, v, junk), flat);
      }
    }
  }

  lemma PromoteAgrees(s: State, e: nat, v: Vpn, i: nat, flat: Flat)
    requires Inv(s) && e in s.envs && i < |s.envs[e].second| && WS.PageAt(s.envs[e], s.envs[e].second[i]) == v
    requires Agrees(s, flat)
    ensures s.envs[e].active != [] && Agrees(PromotePage(s, e, v, i), flat)
  {
    hide Inv, Agrees;
    PromoteInv(s, e, v, i);
    DataLinked(s);
    var s' := PromotePage(s, e, v, i);
    PromoteQuiet(s, e, v, i);
    hide PromotePage;
    QuietKept(s, s');
    KeptAgrees(s, s', flat);
  }

  /** The promotion changes two entries of page tables, and not their MODIFIED bits. */
  lemma PromoteQuiet(s: State, e: nat, v: Vpn, i: nat)
    requires e in s.envs && i < |s.envs[e].second| && s.envs[e].active != []
    ensures var s' := PromotePage(s, e, v, i);
            && s'.data == s.data && s'.disk == s.disk && s'.envs.Keys == s.envs.Keys
            && (forall k :: k in s.m.leaf <==> k in s'.m.leaf)
            && (forall k: (Space, Vpn) :: k.0.Ram? && k in s.m.leaf ==> s'.m.leaf[k].modified == s.m.leaf[k].modified)
            && (forall k: (Space, Vpn) :: k.0.Swap? && k in s.m.leaf ==> s'.m.leaf[k] == s.m.leaf[k])
  {
    hide WS.Promote;
    var m1 := SetPerms(s.m, e, v, PUW, NONE);
    PermsQuiet(s.m, e, v, PUW, NONE);
    PermsQuiet(m1, e, WS.PageAt(s.envs[e], Lru.Last(s.envs[e].active)), NONE, PUW);
    hide SetPerms;
  }

  lemma PermsQuiet(m: Mem, e: nat, v: Vpn, a: Mask, c: Mask)
    requires !a.modified && !c.modified
    ensures var m' := SetPerms(m, e, v, a, c);
            && (forall k :: k in m.leaf <==> k in m'.leaf)
            && (forall k: (Space, Vpn) :: k.0.Ram? && k in m.leaf ==> m'.leaf[k].modified == m.leaf[k].modified)
            && (forall k: (Space, Vpn) :: k.0.Swap? && k in m.leaf ==> m'.leaf[k] == m.leaf[k])
  {
  }

  lemma QuietKept(s: State, s': State)
    requires s'.data == s.data && s'.disk == s.disk && s'.envs.Keys == s.envs.Keys
    requires forall k :: k in s.m.leaf <==> k in s'.m.leaf
    requires forall k: (Space, Vpn) :: k.0.Ram? && k in s.m.leaf ==> s'.m.leaf[k].modified == s.m.leaf[k].modified
    requires forall k: (Space, Vpn) :: k.0.Swap? && k in s.m.leaf ==> s'.m.leaf[k] == s.m.leaf[k]
    requires forall e: nat, v :: (Ram(e), v) in s.m.leaf ==> (e, v) in s.data
    ensures AllKept(s, s')
  {
  }

  /** An element and enough free frames for an access: also one for the page table if there is none. */
  predicate RoomToTouch(s: State, e: nat, v: Vpn) {
    Entry(s.m, Ram(e), v).present ||
    (e in s.envs && CanHaveTable(s.m, Ram(e), v.d) && RoomToFault(TableFault(s, e, v.d), e, v))
  }

  /** What an access promises. */
  ghost predicate Touched(s: State, s': State, e: nat, v: Vpn) {
    && e in s.envs && e in s'.envs && OthersKept(s, s', e)
    && WS.Capacity(s'.envs[e]) == WS.Capacity(s.envs[e])
    && Lru.Ok(WS.ListsOf(s.envs[e]), WS.EffA(s.envs[e]), WS.EffS(s.envs[e]))
    && WS.ListsOf(s'.envs[e]) == Lru.Access(WS.ListsOf(s.envs[e]), WS.EffA(s.envs[e]), WS.EffS(s.envs[e]), v)
    && s'.envs[e].A == s.envs[e].A && s'.envs[e].S == s.envs[e].S
    && PuwSet(Entry(s'.m, Ram(e), v)) && Resident(s', e, v) && (Swap(e), v) in s'.m.leaf
    && (forall k: (Space, Vpn) :: k.0.Swap? && k in s.m.leaf ==> k in s'.m.leaf && s'.m.leaf[k] == s.m.leaf[k])
  }

  /** At most a table fault and a page fault later the page is PRESENT, writeable and the user's;
      the lists moved as Lru.Access says, and the invariant holds. */
  lemma TouchInv(s: State, e: nat, v: Vpn, junk: Block)
    requires Inv(s) && e in s.envs && UserPage(v) && |junk| == NPTENTRIES && RoomToTouch(s, e, v)
    ensures Inv(Touch(s, e, v, junk)) && Touched(s, Touch(s, e, v, junk), e, v)
  {
    hide Base, OthersKept, WS.EnvOk, Lru.Ok;
    assert EnvInv(s, e);
    WS.EffOk(s.envs[e]);
    PresentIsActive(s, e, v);
    if Entry(s.m, Ram(e), v).present {
      OthersRefl(s, e);
    } else {
      TableFaultInv(s, e, v.d);
      var s1 := TableFault(s, e, v.d);
      PageFaultInv(s1, e, v, junk);
      var s' := PageFault(s1, e, v, junk);
      OthersTrans(s, s1, s', e);
      FaultHead(WS.ListsOf(s.envs[e]), WS.EffA(s.envs[e]), WS.EffS(s.envs[e]), v);
      assert EnvInv(s', e);
    }
  }

  lemma FaultHead(l: Lru.Lists<Vpn>, A: nat, S: nat, v: Vpn)
    requires Lru.Ok(l, A, S) && v !in l.active
    ensures v in Lru.Fault(l, A, S, v).active
  {
    Lru.FaultIsMoveToFront(l, A, S, v);
    assert Lru.Fault(l, A, S, v).active[0] == v;
  }

  /** A page is PRESENT iff it is in ActiveList. */
  lemma PresentIsActive(s: State, e: nat, v: Vpn)
    requires Inv(s) && e in s.envs
    ensures Entry(s.m, Ram(e), v).present <==> v in WS.ListsOf(s.envs[e]).active
    ensures Entry(s.m, Ram(e), v) != ZERO <==> v in WS.Pages(s.envs[e])
  {
    assert EnvInv(s, e);
    WS.FindIsMember(s.envs[e], v);
    assert forall k :: k in s.m.leaf ==> s.m.leaf[k] != ZERO;
  }

  lemma TableFaultInv(s: State, e: nat, d: nat)
    requires Inv(s) && e in s.envs && d < USER_PDX && CanHaveTable(s.m, Ram(e), d)
    ensures var s' := TableFault(s, e, d);
            && Inv(s') && OthersKept(s, s', e) && s'.envs == s.envs && s'.data == s.data && s'.disk == s.disk
            && s'.m.leaf == s.m.leaf && Table(Ram(e), d) in s'.m.own && s'.dfree == s.dfree
  {
    hide Base, OthersKept, WS.EnvOk, Linked, EnsureTable;
    assert EnvInv(s, e);
    TableBase(s, Ram(e), d);
    LinkedSame(s.m, TableFault(s, e, d).m, s.data, e, WS.ListsOf(s.envs[e]));
    assert EnvInv(TableFault(s, e, d), e);
    StepInv(s, TableFault(s, e, d), e);
  }

  lemma LinkedSame(m: Mem, m': Mem, data: map<(nat, Vpn), Block>, e: nat, l: Lru.Lists<Vpn>)
    requires Linked(m, data, e, l) && m'.leaf == m.leaf
    ensures Linked(m', data, e, l)
  {
  }

  lemma TouchAgrees(s: State, e: nat, v: Vpn, junk: Block, flat: Flat)
    requires Inv(s) && e in s.envs && UserPage(v) && |junk| == NPTENTRIES && RoomToTouch(s, e, v) && Agrees(s, flat)
    ensures Agrees(Touch(s, e, v, junk), flat)
  {
    hide Base, OthersKept, WS.EnvOk;
    PresentIsActive(s, e, v);
    if !Entry(s.m, Ram(e), v).present {
      TableFaultInv(s, e, v.d);
      var s1 := TableFault(s, e, v.d);
      SameAgrees(s, s1, flat);
      hide Agrees;
      PageFaultAgrees(s1, e, v, junk, flat);
    }
  }

  lemma SameAgrees(s: State, s1: State, flat: Flat)
    requires Agrees(s, flat) && s1.m.leaf == s.m.leaf && s1.data == s.data && s1.disk == s.disk
    requires s1.envs.Keys == s.envs.Keys
    ensures Agrees(s1, flat)
  {
    forall k | k in flat ensures WordAgrees(s1, k.0, k.1, k.2, flat[k]) {
      assert WordAgrees(s, k.0, k.1, k.2, flat[k]);
    }
  }

  // ---------- loads and stores ----------

  /** A store keeps the invariant, and is a store into the flat memory. */
  lemma StoreInv(s: State, e: nat, v: Vpn, i: nat, w: Word, junk: Block, flat: Flat)
    requires Inv(s) && e in s.envs && UserPage(v) && i < NPTENTRIES && |junk| == NPTENTRIES && RoomToTouch(s, e, v)
    requires Agrees(s, flat)
    ensures var s' := Store(s, e, v, i, w, junk);
            && Inv(s') && OthersKept(s, s', e) && e in s'.envs && s'.envs[e] == Touch(s, e, v, junk).envs[e]
            && Agrees(s', flat[(e, v, i) := w])
  {
    hide Base, OthersKept, WS.EnvOk, Linked, Agrees, Touch;
    TouchInv(s, e, v, junk);
    TouchAgrees(s, e, v, junk, flat);
    var s1 := Touch(s, e, v, junk);
    assert EnvInv(s1, e);
    BlockLength(s1, e, v);
    StoreWord(s1, e, v, i, w, flat);
    var s' := Store(s, e, v, i, w, junk);
    OthersTrans(s, s1, s', e);
  }

  lemma BlockLength(s: State, e: nat, v: Vpn)
    requires Base(s)
    ensures (e, v) in s.data ==> |s.data[(e, v)]| == NPTENTRIES
    ensures (Swap(e), v) in s.m.leaf ==> |OnDisk(s, e, v)| == NPTENTRIES
  {
  }

  lemma StoreWord(s: State, e: nat, v: Vpn, i: nat, w: Word, flat: Flat)
    requires Inv(s) && e in s.envs && Resident(s, e, v) && i < NPTENTRIES && (Swap(e), v) in s.m.leaf && Agrees(s, flat)
    requires |s.data[(e, v)]| == NPTENTRIES
    ensures var s' := s.(data := s.data[(e, v) := s.data[(e, v)][i := w]], m := SetPerms(s.m, e, v, MODIFIED, NONE));
            Inv(s') && OthersKept(s, s', e) && Agrees(s', flat[(e, v, i) := w])
  {
    hide Base, OthersKept, WS.EnvOk, Linked, Agrees;
    assert EnvInv(s, e);
    var b := s.data[(e, v)][i := w];
    DataBase(s, e, v, b);
    var s1 := s.(data := s.data[(e, v) := b]);
    PermsBase(s1, e, v, MODIFIED, NONE);
    var s' := s1.(m := SetPerms(s1.m, e, v, MODIFIED, NONE));
    OthersTrans(s, s1, s', e);
    LinkedModified(s.m, s'.m, s.data, s'.data, e, WS.ListsOf(s.envs[e]), v);
    assert EnvInv(s', e);
    StepInv(s, s', e);
    hide Inv;
    StoreAgrees(s, s', e, v, i, w, flat);
  }

  lemma StoreAgrees(s: State, s': State, e: nat, v: Vpn, i: nat, w: Word, flat: Flat)
    requires Agrees(s, flat) && Resident(s, e, v) && i < NPTENTRIES == |s.data[(e, v)]|
    requires e in s.envs && (Swap(e), v) in s.m.leaf
    requires s'.data == s.data[(e, v) := s.data[(e, v)][i := w]] && s'.disk == s.disk && s'.envs == s.envs
    requires OneEntry(s.m, s'.m, (Ram(e), v), Update(s.m.leaf[(Ram(e), v)], MODIFIED, NONE))
    ensures Agrees(s', flat[(e, v, i) := w])
  {
    var flat' := flat[(e, v, i) := w];
    forall k | k in flat' ensures WordAgrees(s', k.0, k.1, k.2, flat'[k]) {
      if k != (e, v, i) {
        assert WordAgrees(s, k.0, k.1, k.2, flat[k]);
        StoreElsewhere(s, s', e, v, i, w, k.0, k.1, k.2, flat[k]);
      }
    }
  }

  lemma StoreElsewhere(s: State, s': State, e: nat, v: Vpn, i: nat, w: Word, e1: nat, v1: Vpn, i1: nat, w1: Word)
    requires WordAgrees(s, e1, v1, i1, w1) && (e1, v1, i1) != (e, v, i)
    requires Resident(s, e, v) && i < NPTENTRIES == |s.data[(e, v)]|
    requires s'.data == s.data[(e, v) := s.data[(e, v)][i := w]] && s'.disk == s.disk && s'.envs == s.envs
    requires OneEntry(s.m, s'.m, (Ram(e), v), Update(s.m.leaf[(Ram(e), v)], MODIFIED, NONE))
    ensures WordAgrees(s', e1, v1, i1, w1)
  {
    assert OnDisk(s', e1, v1) == OnDisk(s, e1, v1);
  }

  lemma LinkedModified(m: Mem, m': Mem, data: map<(nat, Vpn), Block>, data': map<(nat, Vpn), Block>, e: nat,
                       l: Lru.Lists<Vpn>, v: Vpn)
    requires Linked(m, data, e, l) && (Ram(e), v) in m.leaf && (forall k :: k in data <==> k in data')
    requires OneEntry(m, m', (Ram(e), v), Update(m.leaf[(Ram(e), v)], MODIFIED, NONE))
    ensures Linked(m', data', e, l)
  {
  }

  /** A load returns the word of the flat memory. */
  lemma LoadFlat(s: State, e: nat, v: Vpn, i: nat, junk: Block, flat: Flat)
    requires Inv(s) && e in s.envs && UserPage(v) && i < NPTENTRIES && |junk| == NPTENTRIES && RoomToTouch(s, e, v)
    requires Agrees(s, flat)
    ensures (e, v, i) in flat ==> Load(s, e, v, i, junk) == flat[(e, v, i)]
  {
    TouchInv(s, e, v, junk);
    TouchAgrees(s, e, v, junk, flat);
    if (e, v, i) in flat {
      assert WordAgrees(Touch(s, e, v, junk), e, v, i, flat[(e, v, i)]);
    }
  }

  /** pf_add_empty_env_page keeps the invariant and every page's contents. */
  lemma GrowInv(s: State, e: nat, v: Vpn, flat: Flat)
    requires Inv(s) && e in s.envs && UserPage(v) && Agrees(s, flat)
    requires CanHaveTable(s.m, Swap(e), v.d) && ((Swap(e), v) in s.m.leaf || s.dfree != [])
    ensures var s' := PfAdd(s, e, v);
            && Inv(s') && OthersKept(s, s', e) && s'.envs == s.envs && (Swap(e), v) in s'.m.leaf && Agrees(s', flat)
  {
    hide Base, OthersKept, WS.EnvOk, Linked, PfAdd;
    assert EnvInv(s, e);
    PfAddBase(s, e, v);
    var s' := PfAdd(s, e, v);
    LinkedGrown(s.m, s'.m, s.data, e, WS.ListsOf(s.envs[e]), v);
    assert EnvInv(s', e);
    StepInv(s, s', e);
    DataLinked(s);
    GrownKept(s, s', e, v);
    KeptAgrees(s, s', flat);
  }

  lemma GrownKept(s: State, s': State, e: nat, v: Vpn)
    requires s'.data == s.data && s'.disk == s.disk && s'.envs == s.envs
    requires (Swap(e), v) in s'.m.leaf && OneEntry(s.m, s'.m, (Swap(e), v), s'.m.leaf[(Swap(e), v)])
    requires (Swap(e), v) in s.m.leaf ==> s'.m.leaf == s.m.leaf
    requires forall e1: nat, v1 :: (Ram(e1), v1) in s.m.leaf ==> (e1, v1) in s.data
    ensures AllKept(s, s')
  {
  }

  lemma LinkedGrown(m: Mem, m': Mem, data: map<(nat, Vpn), Block>, e: nat, l: Lru.Lists<Vpn>, v: Vpn)
    requires Linked(m, data, e, l) && (Swap(e), v) in m'.leaf && OneEntry(m, m', (Swap(e), v), m'.leaf[(Swap(e), v)])
    ensures Linked(m', data, e, l)
  {
  }

  /** What pf_add_empty_env_page does, with a free disk frame and without. */
  ghost predicate Added(s: State, s': State, e: nat, v: Vpn) {
    && s'.envs == s.envs && s'.data == s.data && s'.disk == s.disk
    && if (Swap(e), v) in s.m.leaf || s.dfree == [] then s'.m.leaf == s.m.leaf && s'.dfree == s.dfree
       else s'.m.leaf == s.m.leaf[(Swap(e), v) := s.dfree[0]] && s'.dfree == s.dfree[1..]
  }

  /** It keeps the invariant and every page's contents in both cases. */
  lemma AddInv(s: State, e: nat, v: Vpn, flat: Flat)
    requires Inv(s) && e in s.envs && UserPage(v) && Agrees(s, flat) && CanHaveTable(s.m, Swap(e), v.d)
    ensures var s' := PfAdd(s, e, v); Inv(s') && OthersKept(s, s', e) && Agrees(s', flat) && Added(s, s', e, v)
  {
    hide Base, Linked, WS.EnvOk, Agrees, OthersKept, EnsureTable;
    assert EnvInv(s, e);
    if (Swap(e), v) in s.m.leaf || s.dfree != [] {
      GrowInv(s, e, v, flat);
    }
    TableInv(s, e, v.d, flat);
    assert PfAdd(s, e, v) == NewDfn(SwapTable(s, e, v.d), e, v);
  }

  /** A new disk table. */
  lemma TableInv(s: State, e: nat, d: nat, flat: Flat)
    requires Inv(s) && e in s.envs && d < USER_PDX && Agrees(s, flat) && CanHaveTable(s.m, Swap(e), d)
    ensures var s' := SwapTable(s, e, d);
            Inv(s') && OthersKept(s, s', e) && Agrees(s', flat) && s'.m.leaf == s.m.leaf
  {
    hide Base, OthersKept, WS.EnvOk, Linked, EnsureTable, Agrees;
    assert EnvInv(s, e);
    TableBase(s, Swap(e), d);
    var s' := SwapTable(s, e, d);
    LinkedSame(s.m, s'.m, s.data, e, WS.ListsOf(s.envs[e]));
    assert EnvInv(s', e);
    StepInv(s, s', e);
    SameAgrees(s, s', flat);
  }
}

/** freeMem of kern/memory_manager.c: pages disappear from the page file, from memory and from the lists, and
    empty page tables are freed. */
module Freeing {
  import opened Seqs
  import opened Mmu
  import opened FrameTable
  import opened FrameDemand
  import opened Machine
  import opened Paging
  import opened FlatMemory
  import Lru
  import WS = WorkingSet

  /** pf_remove_env_page. */
  function PfRemove(s: State, e: nat, v: Vpn): State {
    if (Swap(e), v) in s.m.leaf then
      s.(m := s.m.(leaf := s.m.leaf - {(Swap(e), v)}), dfree := [s.m.leaf[(Swap(e), v)]] + s.dfree)
    else s
  }

  /** The head of SecondList, which is about to move to ActiveList, becomes accessible. */
  function ShowHead(s: State, e: nat, env: Env): State {
    if env.second == [] then s else s.(m := SetPerms(s.m, e, WS.PageAt(env, env.second[0]), PUW, NONE))
  }

  function Unmap(s: State, e: nat, v: Vpn): State {
    s.(m := Unmapped(s.m, e, v), data := s.data - {(e, v)})
  }

  /** One round of the first loop: page v leaves the page file, and memory if it is resident. */
  function FreePage(s: State, e: nat, v: Vpn): State {
    if e !in s.envs then s
    else
      var env, s1 := s.envs[e], PfRemove(s, e, v);
      if v in WS.ListsOf(env).active then SetEnv(Unmap(ShowHead(s1, e, env), e, v), e, WS.Drop(env, v))
      else if env.active != [] && v in WS.ListsOf(env).second then SetEnv(Unmap(s1, e, v), e, WS.Drop(env, v))
      else s1
  }

  /** The first loop, on the n pages from page number p on. */
  function FreePages(s: State, e: nat, p: nat, n: nat): State {
    if n == 0 then s else FreePage(FreePages(s, e, p, n - 1), e, Nth(p + n - 1))
  }

  /** One round of the second loop. */
  function DropEmpty(s: State, e: nat, d: nat): State {
    if EmptyTable(s.m, e, d) then s.(m := Release(s.m, Table(Ram(e), d))) else s
  }

  /** The second loop, on the k directory entries from d on. */
  function DropEmpties(s: State, e: nat, d: nat, k: nat): State {
    if k == 0 then s else DropEmpty(DropEmpties(s, e, d, k - 1), e, d + k - 1)
  }

  /** The first loop, as far as the page file goes. */
  function RemoveRange(s: State, e: nat, p: nat, n: nat): State {
    if n == 0 then s else PfRemove(RemoveRange(s, e, p, n - 1), e, Nth(p + n - 1))
  }

  /** freeMem on the n pages from page p on, which looks at k directory entries. */
  function FreeMem(s: State, e: nat, p: nat, n: nat, k: nat): State {
    DropEmpties(FreePages(s, e, p, n), e, p / 1024, k)
  }

  /** freeMem of an address inside page p: no element of the lists has it, or one of those after it, as its address. */
  function FreeInside(s: State, e: nat, p: nat, n: nat, k: nat): State {
    DropEmpties(RemoveRange(s, e, p, n), e, p / 1024, k)
  }

  /** v is one of the n pages from page number p on. */
  predicate Inside(v: Vpn, p: nat, n: nat) {
    v.t < 1024 && InRange(v, p, p + n)
  }

  // ---------- one page ----------

  ghost function WithoutPage(flat: Flat, e: nat, v: Vpn): Flat {
    map k | k in flat && !(k.0 == e && k.1 == v) :: flat[k]
  }

  /** What one round promises: the page is gone, and the lists forgot it. */
  ghost predicate PageFreed(s: State, s': State, e: nat, v: Vpn) {
    && e in s.envs && e in s'.envs && OthersKept(s, s', e) && WS.EnvOk(s.envs[e])
    && WS.ListsOf(s'.envs[e]) == Lru.Forget(WS.ListsOf(s.envs[e]), v)
    && s'.envs[e].A == s.envs[e].A && s'.envs[e].S == s.envs[e].S
    && WS.Capacity(s'.envs[e]) == WS.Capacity(s.envs[e]) - (if v in WS.ListsOf(s.envs[e]).active then 1 else 0)
    && (Swap(e), v) !in s'.m.leaf && (Ram(e), v) !in s'.m.leaf
    && (forall u: Vpn :: (Ram(e), u) in s'.m.leaf ==> (Ram(e), u) in s.m.leaf)
    && (forall u :: u != v ==> ((Swap(e), u) in s'.m.leaf <==> (Swap(e), u) in s.m.leaf))
    && (forall u :: u != v && (Swap(e), u) in s.m.leaf ==> s'.m.leaf[(Swap(e), u)] == s.m.leaf[(Swap(e), u)])
  }

  /** The entries after the page was removed. */
  ghost predicate EntriesFreed(m: Mem, m': Mem, e: nat, l: Lru.Lists<Vpn>, v: Vpn) {
    && (forall k: (Space, Vpn) :: k in m'.leaf <==> k in m.leaf && k != (Ram(e), v) && k != (Swap(e), v))
    && (forall k: (Space, Vpn) :: k in m'.leaf && !(v in l.active && l.second != [] && k == (Ram(e), l.second[0])) ==>
          m'.leaf[k] == m.leaf[k])
    && (v in l.active && l.second != [] && (Ram(e), l.second[0]) in m.leaf && l.second[0] != v ==>
          (Ram(e), l.second[0]) in m'.leaf &&
          m'.leaf[(Ram(e), l.second[0])] == Update(m.leaf[(Ram(e), l.second[0])], PUW, NONE))
  }

  lemma RemoveBase(s: State, e: nat, v: Vpn)
    requires Base(s) && e in s.envs
    ensures var s' := PfRemove(s, e, v);
            && Base(s') && OthersKept(s, s', e) && s'.m.own == s.m.own && s'.m.free == s.m.free && s'.m.refs == s.m.refs
            && s'.m.leaf == s.m.leaf - {(Swap(e), v)} && s'.envs == s.envs && s'.data == s.data && s'.disk == s.disk
  {
    hide MemOk, DiskOk, Injective, Blocks;
    if (Swap(e), v) in s.m.leaf {
      RemoveDisk(s.m.leaf, s.dfree, s.disk, (Swap(e), v));
      RemoveMem(s.m, e, v);
      assert Blocks(PfRemove(s, e, v)) == Blocks(s) by { SameBlocks(s, PfRemove(s, e, v)); }
    } else {
      assert s.m.leaf - {(Swap(e), v)} == s.m.leaf;
    }
  }

  lemma SameBlocks(s: State, s': State)
    requires s'.data == s.data && s'.disk == s.disk
    ensures Blocks(s') == Blocks(s)
  {
  }

  lemma RemoveMem(m: Mem, e: nat, v: Vpn)
    requires MemOk(m)
    ensures MemOk(m.(leaf := m.leaf - {(Swap(e), v)}))
  {
  }

  /** A disk frame goes back to the head of the free list. */
  lemma RemoveDisk(leaf: map<(Space, Vpn), Word>, dfree: seq<Word>, disk: map<Word, Block>, k: (Space, Vpn))
    requires DiskOk(leaf, dfree, disk) && k in leaf && k.0.Swap?
    ensures DiskOk(leaf - {k}, [leaf[k]] + dfree, disk)
  {
    var leaf', dfree' := leaf - {k}, [leaf[k]] + dfree;
    Lru.DistinctPush(dfree, leaf[k]);
    forall d | d in disk
      ensures d != ZERO && (d in dfree' || exists k1 :: k1 in leaf' && k1.0.Swap? && leaf'[k1] == d)
    {
      if d !in dfree' {
        var k1 :| k1 in leaf && k1.0.Swap? && leaf[k1] == d;
        assert k1 in leaf';
      }
    }
  }

  /** Where the page is, before anything changes. */
  lemma FreeLists(m: Mem, data: map<(nat, Vpn), Block>, e: nat, env: Env, v: Vpn)
    requires WS.EnvOk(env) && Linked(m, data, e, WS.ListsOf(env))
    ensures var l := WS.ListsOf(env);
            && (v in l.All() <==> v in l.active || v in l.second) && (v in l.second ==> env.active != [])
            && (v in l.active ==> v !in l.second)
            && (v in l.All() <==> (Ram(e), v) in m.leaf) && ((e, v) in data <==> (Ram(e), v) in m.leaf)
            && (env.second == [] <==> l.second == [])
            && (env.second != [] ==> WS.PageAt(env, env.second[0]) == l.second[0] && (Ram(e), l.second[0]) in m.leaf)
            && (env.second != [] && v in l.active ==> l.second[0] != v)
  {
    var l := WS.ListsOf(env);
    WS.EnvFacts(env);
    WS.FindIsMember(env, v);
    Lru.DistinctAppend(l.active, l.second);
    if env.second != [] {
      assert l.second[0] in l.second && l.second[0] in l.All();
    }
  }

  lemma HeadBase(s: State, e: nat, env: Env)
    requires Base(s) && e in s.envs
    requires env.second != [] ==> (Ram(e), WS.PageAt(env, env.second[0])) in s.m.leaf
    ensures var s' := ShowHead(s, e, env);
            && Base(s') && OthersKept(s, s', e) && s'.m.own == s.m.own && s' == s.(m := s'.m)
            && if env.second == [] then s' == s
               else OneEntry(s.m, s'.m, (Ram(e), WS.PageAt(env, env.second[0])),
                             Update(s.m.leaf[(Ram(e), WS.PageAt(env, env.second[0]))], PUW, NONE))
  {
    hide Base, OthersKept, SetPerms;
    if env.second == [] {
      OthersRefl(s, e);
    } else {
      PermsBase(s, e, WS.PageAt(env, env.second[0]), PUW, NONE);
    }
  }

  lemma FreedEntries(m: Mem, m1: Mem, m2: Mem, m3: Mem, e: nat, l: Lru.Lists<Vpn>, v: Vpn)
    requires m1.leaf == m.leaf - {(Swap(e), v)} && m3.leaf == m2.leaf - {(Ram(e), v)}
    requires if v in l.active && l.second != [] then
               (Ram(e), l.second[0]) in m1.leaf &&
               OneEntry(m1, m2, (Ram(e), l.second[0]), Update(m1.leaf[(Ram(e), l.second[0])], PUW, NONE))
             else m2.leaf == m1.leaf
    ensures EntriesFreed(m, m3, e, l, v)
  {
  }

  /** The page leaves memory; in case of a page of ActiveList the head of SecondList becomes accessible. */
  lemma FreeBase(s: State, e: nat, v: Vpn)
    requires Base(s) && EnvInv(s, e)
    ensures var s', l := FreePage(s, e, v), WS.ListsOf(s.envs[e]);
            && Base(s') && OthersKept(s, s', e) && EntriesFreed(s.m, s'.m, e, l, v)
            && s'.data == s.data - {(e, v)} && s'.disk == s.disk
            && s'.envs == s.envs[e := WS.Drop(s.envs[e], v)] && DirsOk(s'.m, e, s.envs[e])
  {
    hide Base, OthersKept, WS.EnvOk, Linked, EntriesFreed, WS.Drop, WS.ListsOf, Unmapped, SetPerms, ShowHead;
    var env, l := s.envs[e], WS.ListsOf(s.envs[e]);
    FreeLists(s.m, s.data, e, env, v);
    RemoveBase(s, e, v);
    var s1 := PfRemove(s, e, v);
    if v in l.All() {
      var s2 := if v in l.active then ShowHead(s1, e, env) else s1;
      HeadBase(s1, e, env);
      if v !in l.active {
        OthersRefl(s1, e);
      }
      OthersTrans(s, s1, s2, e);
      UnmapBase(s2, e, v);
      var s3 := Unmap(s2, e, v);
      EnvBase(s3, e, WS.Drop(env, v));
      OthersTrans(s, s2, s3, e);
      OthersTrans(s, s3, SetEnv(s3, e, WS.Drop(env, v)), e);
      FreedEntries(s.m, s1.m, s2.m, s3.m, e, l, v);
    } else {
      AbsentPage(env, v);
      AbsentEntries(s.m, s1.m, e, l, v);
      assert s.envs[e := env] == s.envs && s.data - {(e, v)} == s.data;
    }
  }

  lemma AbsentPage(env: Env, v: Vpn)
    requires v !in WS.Pages(env)
    ensures WS.Drop(env, v) == env && v !in WS.ListsOf(env).active && v !in WS.ListsOf(env).second
  {
    WS.FindIn(env, env.active, v);
    WS.FindIn(env, env.second, v);
    WS.FindIsMember(env, v);
  }

  lemma AbsentEntries(m: Mem, m1: Mem, e: nat, l: Lru.Lists<Vpn>, v: Vpn)
    requires m1.leaf == m.leaf - {(Swap(e), v)} && (Ram(e), v) !in m.leaf && v !in l.active
    ensures EntriesFreed(m, m1, e, l, v)
  {
  }

  lemma LinkedFreed(m: Mem, m': Mem, data: map<(nat, Vpn), Block>, e: nat, l: Lru.Lists<Vpn>, A: nat, S: nat, v: Vpn)
    requires Linked(m, data, e, l) && Lru.Ok(l, A, S) && EntriesFreed(m, m', e, l, v)
    ensures Linked(m', data - {(e, v)}, e, Lru.Forget(l, v))
  {
    ForgetMembers(l, A, S, v);
    hide Lru.Forget, Lru.Ok;
    LinkedFromMembers(m, m', data, e, l, Lru.Forget(l, v), v);
  }

  lemma LinkedFromMembers(m: Mem, m': Mem, data: map<(nat, Vpn), Block>, e: nat, l: Lru.Lists<Vpn>, l': Lru.Lists<Vpn>,
                          v: Vpn)
    requires Linked(m, data, e, l) && EntriesFreed(m, m', e, l, v)
    requires forall x :: x in l.All() <==> x in l.active || x in l.second
    requires forall x :: x in l'.All() <==> x in l'.active || x in l'.second
    requires forall x :: x in l.active ==> x !in l.second
    requires forall x :: x in l'.active <==>
        (x in l.active && x != v) || (v in l.active && l.second != [] && x == l.second[0])
    requires forall x :: x in l'.second <==>
        x in l.second && x != v && !(v in l.active && l.second != [] && x == l.second[0])
    requires l.second != [] ==> l.second[0] in l.second
    ensures Linked(m', data - {(e, v)}, e, l')
  {
    assert forall u :: u in l'.All() <==> u in l.All() && u != v;
  }

  lemma ForgetMembers(l: Lru.Lists<Vpn>, A: nat, S: nat, v: Vpn)
    requires Lru.Ok(l, A, S)
    ensures var l' := Lru.Forget(l, v);
            && (forall x :: x in l.All() <==> x in l.active || x in l.second)
            && (forall x :: x in l'.All() <==> x in l'.active || x in l'.second)
            && (forall x :: x in l.active ==> x !in l.second)
            && (forall x :: x in l'.active <==>
                  (x in l.active && x != v) || (v in l.active && l.second != [] && x == l.second[0]))
            && (forall x :: x in l'.second <==>
                  x in l.second && x != v && !(v in l.active && l.second != [] && x == l.second[0]))
            && (l.second != [] ==> l.second[0] in l.second)
  {
    Lru.DistinctAppend(l.active, l.second);
    Lru.WithoutMembers(l.active, v);
    Lru.WithoutMembers(l.second, v);
    if l.second != [] {
      assert l.second == [l.second[0]] + l.second[1..];
      Lru.DistinctAppend([l.second[0]], l.second[1..]);
      assert l.second[0] in [l.second[0]];
      assert forall x :: x in l.second <==> x == l.second[0] || x in l.second[1..];
    }
  }

  /** freeMem of one page keeps the invariant, and the contents of all other pages. */
  lemma FreePageInv(s: State, e: nat, v: Vpn, flat: Flat)
    requires Inv(s) && e in s.envs && Agrees(s, flat)
    ensures var s' := FreePage(s, e, v); Inv(s') && PageFreed(s, s', e, v) && Agrees(s', WithoutPage(flat, e, v))
  {
    hide Base, OthersKept, WS.EnvOk, Linked, EntriesFreed, WS.Drop, WS.ListsOf, FreePage, Agrees;
    assert EnvInv(s, e);
    var env, s' := s.envs[e], FreePage(s, e, v);
    FreeBase(s, e, v);
    WS.DropOk(env, v);
    DropFields(env, v);
    WS.EffOk(env);
    LinkedFreed(s.m, s'.m, s.data, e, WS.ListsOf(env), WS.EffA(env), WS.EffS(env), v);
    assert EnvInv(s', e);
    StepInv(s, s', e);
    FreedFrom(s.m, s'.m, e, WS.ListsOf(env), v);
    DataLinked(s);
    FreedAgrees(s, s', e, WS.ListsOf(env), v, flat);
  }

  lemma DropFields(env: Env, v: Vpn)
    ensures var env' := WS.Drop(env, v);
            env'.A == env.A && env'.S == env.S && env'.dir == env.dir && env'.ddir == env.ddir
  {
  }

  lemma FreedFrom(m: Mem, m': Mem, e: nat, l: Lru.Lists<Vpn>, v: Vpn)
    requires EntriesFreed(m, m', e, l, v)
    ensures (Swap(e), v) !in m'.leaf && (Ram(e), v) !in m'.leaf
    ensures forall u: Vpn :: (Ram(e), u) in m'.leaf ==> (Ram(e), u) in m.leaf
    ensures forall u :: u != v ==> ((Swap(e), u) in m'.leaf <==> (Swap(e), u) in m.leaf)
    ensures forall u :: u != v && (Swap(e), u) in m.leaf ==> m'.leaf[(Swap(e), u)] == m.leaf[(Swap(e), u)]
  {
  }

  lemma FreedAgrees(s: State, s': State, e: nat, l: Lru.Lists<Vpn>, v: Vpn, flat: Flat)
    requires Agrees(s, flat) && EntriesFreed(s.m, s'.m, e, l, v)
    requires s'.data == s.data - {(e, v)} && s'.disk == s.disk && s'.envs.Keys == s.envs.Keys
    requires forall e1: nat, v1 :: (Ram(e1), v1) in s.m.leaf ==> (e1, v1) in s.data
    ensures Agrees(s', WithoutPage(flat, e, v))
  {
    hide EntriesFreed;
    forall k | k in WithoutPage(flat, e, v) ensures WordAgrees(s', k.0, k.1, k.2, flat[k]) {
      assert WordAgrees(s, k.0, k.1, k.2, flat[k]);
      FreedKept(s, s', e, l, v, k.0, k.1);
      KeptWord(s, s', k.0, k.1, k.2, flat[k]);
    }
  }

  lemma FreedKept(s: State, s': State, e: nat, l: Lru.Lists<Vpn>, v: Vpn, e1: nat, v1: Vpn)
    requires EntriesFreed(s.m, s'.m, e, l, v) && (e1, v1) != (e, v) && e1 in s.envs && (Swap(e1), v1) in s.m.leaf
    requires s'.data == s.data - {(e, v)} && s'.disk == s.disk && s'.envs.Keys == s.envs.Keys
    requires forall e1: nat, v1 :: (Ram(e1), v1) in s.m.leaf ==> (e1, v1) in s.data
    ensures PageKept(s, s', e1, v1)
  {
  }

  // ---------- the range ----------

  ghost function WithoutPages(flat: Flat, e: nat, p: nat, n: nat): Flat {
    map k | k in flat && !(k.0 == e && Inside(k.1, p, n)) :: flat[k]
  }

  /** The pages of the range, in order. */
  function PagesFrom(p: nat, n: nat): seq<Vpn> {
    if n == 0 then [] else PagesFrom(p, n - 1) + [Nth(p + n - 1)]
  }

  /** How many pages the list forgets while they are in ActiveList. */
  function Lost(l: Lru.Lists<Vpn>, ps: seq<Vpn>): nat {
    if ps == [] then 0
    else Lost(l, Lru.Front(ps)) + if Lru.Last(ps) in Lru.ForgetAll(l, Lru.Front(ps)).active then 1 else 0
  }

  /** What the first loop promises: the pages of the range are gone, the lists forgot them in order, and an element
      is lost for each page that was in ActiveList when its turn came. */
  ghost predicate RangeFreed(s: State, s': State, e: nat, p: nat, n: nat) {
    && e in s.envs && e in s'.envs && OthersKept(s, s', e)
    && WS.ListsOf(s'.envs[e]) == Lru.ForgetAll(WS.ListsOf(s.envs[e]), PagesFrom(p, n))
    && s'.envs[e].A == s.envs[e].A && s'.envs[e].S == s.envs[e].S
    && WS.Capacity(s'.envs[e]) == WS.Capacity(s.envs[e]) - Lost(WS.ListsOf(s.envs[e]), PagesFrom(p, n))
    && (forall u :: Inside(u, p, n) ==> (Swap(e), u) !in s'.m.leaf && (Ram(e), u) !in s'.m.leaf)
    && (forall u: Vpn :: !Inside(u, p, n) ==> ((Swap(e), u) in s'.m.leaf <==> (Swap(e), u) in s.m.leaf))
    && (forall u: Vpn :: !Inside(u, p, n) && (Swap(e), u) in s.m.leaf ==>
          s'.m.leaf[(Swap(e), u)] == s.m.leaf[(Swap(e), u)])
  }

  lemma {:induction false} FreePagesInv(s: State, e: nat, p: nat, n: nat, flat: Flat)
    requires Inv(s) && e in s.envs && Agrees(s, flat)
    ensures var s' := FreePages(s, e, p, n);
            Inv(s') && RangeFreed(s, s', e, p, n) && Agrees(s', WithoutPages(flat, e, p, n))
  {
    hide Inv, Agrees, RangeFreed, FreePage, PageFreed, WithoutPage, WithoutPages, Nth;
    if n == 0 {
      NothingFreed(s, e, p, flat);
    } else {
      var s1, v := FreePages(s, e, p, n - 1), Nth(p + n - 1);
      FreePagesInv(s, e, p, n - 1, flat);
      assert e in s1.envs by { RangeEnv(s, s1, e, p, n - 1); }
      FreePageInv(s1, e, v, WithoutPages(flat, e, p, n - 1));
      FreedNext(s, s1, FreePage(s1, e, v), e, p, n);
      FlatNext(flat, e, p, n);
    }
  }

  lemma RangeEnv(s: State, s': State, e: nat, p: nat, n: nat)
    requires RangeFreed(s, s', e, p, n)
    ensures e in s'.envs && OthersKept(s, s', e)
  {
  }

  lemma NothingFreed(s: State, e: nat, p: nat, flat: Flat)
    requires e in s.envs
    ensures RangeFreed(s, s, e, p, 0) && WithoutPages(flat, e, p, 0) == flat
  {
    OthersRefl(s, e);
    NoneInside(p);
    hide Inside, OthersKept, WS.ListsOf;
  }

  lemma NoneInside(p: nat)
    ensures forall v :: !Inside(v, p, 0)
  {
  }

  lemma FlatNext(flat: Flat, e: nat, p: nat, n: nat)
    requires n > 0
    ensures WithoutPage(WithoutPages(flat, e, p, n - 1), e, Nth(p + n - 1)) == WithoutPages(flat, e, p, n)
  {
    RangeNext(p, n);
    hide Inside, Nth;
  }

  lemma RangeNext(p: nat, j: nat)
    requires j > 0
    ensures var v := Nth(p + j - 1);
            && v.t < 1024 && Number(v) == p + j - 1
            && forall u: Vpn :: Inside(u, p, j) <==> Inside(u, p, j - 1) || u == v
  {
    var v := Nth(p + j - 1);
    NthNumber(p + j - 1, v);
    forall u: Vpn ensures Inside(u, p, j) <==> Inside(u, p, j - 1) || u == v {
      NthNumber(p + j - 1, u);
    }
  }

  lemma PageInRange(a: nat)
    requires a < USER_PDX * 1024
    ensures UserPage(Nth(a))
  {
  }

  lemma NthNumber(a: nat, v: Vpn)
    ensures Nth(a) == v <==> v.t < 1024 && Number(v) == a
  {
  }

  lemma FreedNext(s: State, s1: State, s2: State, e: nat, p: nat, n: nat)
    requires n > 0 && RangeFreed(s, s1, e, p, n - 1) && PageFreed(s1, s2, e, Nth(p + n - 1))
    ensures RangeFreed(s, s2, e, p, n)
  {
    hide Inside, Nth, OthersKept, WS.ListsOf, Lru.Forget, WS.EnvOk;
    RangeNext(p, n);
    OthersTrans(s, s1, s2, e);
    assert Lru.Front(PagesFrom(p, n)) == PagesFrom(p, n - 1);
  }

  // ---------- empty tables ----------

  /** What freeing a table without entries promises. */
  ghost predicate TablesDropped(s: State, s': State, e: nat) {
    && s'.envs == s.envs && s'.data == s.data && s'.disk == s.disk && s'.dfree == s.dfree && s'.m.leaf == s.m.leaf
    && OthersKept(s, s', e) && (forall o :: o in s'.m.own ==> o in s.m.own && s'.m.own[o] == s.m.own[o])
    && (forall o :: o in s.m.own && o !in s'.m.own ==> o.Table? && o.sp == Ram(e))
  }

  lemma DropEmptyInv(s: State, e: nat, d: nat, flat: Flat)
    requires Inv(s) && e in s.envs && Agrees(s, flat)
    ensures var s' := DropEmpty(s, e, d);
            Inv(s') && TablesDropped(s, s', e) && Agrees(s', flat) && !EmptyTable(s'.m, e, d)
  {
    hide Base, OthersKept, WS.EnvOk, Linked, Agrees;
    assert EnvInv(s, e);
    var s' := DropEmpty(s, e, d);
    if EmptyTable(s.m, e, d) {
      DropEmptyBase(s, e, d);
      LinkedSame(s.m, s'.m, s.data, e, WS.ListsOf(s.envs[e]));
      assert EnvInv(s', e);
      StepInv(s, s', e);
      SameAgrees(s, s', flat);
    } else {
      OthersRefl(s, e);
    }
  }

  lemma DropEmptyBase(s: State, e: nat, d: nat)
    requires Base(s) && EmptyTable(s.m, e, d) && e in s.envs
    ensures var s' := DropEmpty(s, e, d);
            Base(s') && TablesDropped(s, s', e) && s'.m.own == s.m.own - {Table(Ram(e), d)}
  {
    hide MemOk, DiskOk, Blocks, Release;
    DropEmptyMem(s.m, e, d);
    var s' := DropEmpty(s, e, d);
    assert Blocks(s') by { SameBlocks(s, s'); }
    assert OwnerEnv(Table(Ram(e), d)) == e;
  }

  lemma DroppedTrans(s: State, s1: State, s2: State, e: nat)
    requires TablesDropped(s, s1, e) && TablesDropped(s1, s2, e)
    ensures TablesDropped(s, s2, e)
  {
    hide OthersKept;
    OthersTrans(s, s1, s2, e);
  }

  lemma NoneEmptied(s: State, s': State, e: nat)
    requires TablesDropped(s, s', e)
    ensures forall c: nat :: EmptyTable(s'.m, e, c) ==> EmptyTable(s.m, e, c)
  {
  }

  lemma {:induction false} DropEmptiesInv(s: State, e: nat, d: nat, k: nat, flat: Flat)
    requires Inv(s) && e in s.envs && Agrees(s, flat)
    ensures var s' := DropEmpties(s, e, d, k);
            && Inv(s') && TablesDropped(s, s', e) && Agrees(s', flat)
            && forall c: nat :: d <= c < d + k ==> !EmptyTable(s'.m, e, c)
  {
    hide Inv, Agrees, OthersKept, DropEmpty, EmptyTable;
    if k == 0 {
      OthersRefl(s, e);
    } else {
      var s1 := DropEmpties(s, e, d, k - 1);
      DropEmptiesInv(s, e, d, k - 1, flat);
      DropEmptyInv(s1, e, d + k - 1, flat);
      DroppedTrans(s, s1, DropEmpty(s1, e, d + k - 1), e);
      NoneEmptied(s1, DropEmpty(s1, e, d + k - 1), e);
    }
  }

  /** freeMem keeps the invariant; its pages are in neither memory nor the page file, and all others keep
      their contents and disk frames; no table it looked at is empty. */
  lemma FreeMemInv(s: State, e: nat, p: nat, n: nat, k: nat, flat: Flat)
    requires Inv(s) && e in s.envs && Agrees(s, flat)
    ensures var s' := FreeMem(s, e, p, n, k);
            && Inv(s') && RangeFreed(s, s', e, p, n) && Agrees(s', WithoutPages(flat, e, p, n))
            && forall c: nat :: p / 1024 <= c < p / 1024 + k ==> !EmptyTable(s'.m, e, c)
  {
    hide Inv, Agrees, OthersKept, FreePages, DropEmpties, EmptyTable, WithoutPages, Inside, WS.ListsOf;
    FreePagesInv(s, e, p, n, flat);
    var s1 := FreePages(s, e, p, n);
    DropEmptiesInv(s1, e, p / 1024, k, WithoutPages(flat, e, p, n));
    OthersTrans(s, s1, FreeMem(s, e, p, n, k), e);
  }

  /** Afterwards so many elements are left, and the sizes in effect are what these make. */
  lemma SmallerAfterFree(s: State, s': State, e: nat, p: nat, n: nat)
    requires RangeFreed(s, s', e, p, n)
    ensures var c, A := WS.Capacity(s.envs[e]) - Lost(WS.ListsOf(s.envs[e]), PagesFrom(p, n)), s.envs[e].A;
            && c == WS.Capacity(s'.envs[e])
            && WS.EffA(s'.envs[e]) == WS.ActiveRoom(c, A) && WS.EffS(s'.envs[e]) == WS.SecondRoom(c, A)
  {
  }

  // ---------- an address inside a page ----------

  /** What the first loop does then: the pages leave the page file, and stay wherever else they are. */
  ghost predicate RangeRemoved(s: State, s': State, e: nat, p: nat, n: nat) {
    && Base(s') && OthersKept(s, s', e) && s'.m.own == s.m.own
    && s'.envs == s.envs && s'.data == s.data && s'.disk == s.disk
    && (forall x: (Space, Vpn) :: x in s'.m.leaf <==> x in s.m.leaf && !(x.0 == Swap(e) && Inside(x.1, p, n)))
    && (forall x: (Space, Vpn) :: x in s'.m.leaf ==> s'.m.leaf[x] == s.m.leaf[x])
  }

  lemma {:induction false} RemoveRangeBase(s: State, e: nat, p: nat, n: nat)
    requires Base(s) && e in s.envs
    ensures RangeRemoved(s, RemoveRange(s, e, p, n), e, p, n)
  {
    hide Base, OthersKept, Inside, Nth, PfRemove;
    if n == 0 {
      NoneInside(p);
      OthersRefl(s, e);
    } else {
      var s1, v := RemoveRange(s, e, p, n - 1), Nth(p + n - 1);
      RemoveRangeBase(s, e, p, n - 1);
      RemoveBase(s1, e, v);
      OthersTrans(s, s1, PfRemove(s1, e, v), e);
      RangeNext(p, n);
    }
  }

  lemma {:induction false} DropEmptiesBase(s: State, e: nat, d: nat, k: nat)
    requires Base(s) && e in s.envs
    ensures Base(DropEmpties(s, e, d, k)) && TablesDropped(s, DropEmpties(s, e, d, k), e)
  {
    hide Base, OthersKept, DropEmpty, EmptyTable;
    if k == 0 {
      OthersRefl(s, e);
    } else {
      var s1 := DropEmpties(s, e, d, k - 1);
      DropEmptiesBase(s, e, d, k - 1);
      if EmptyTable(s1.m, e, d + k - 1) {
        DropEmptyBase(s1, e, d + k - 1);
        DroppedTrans(s, s1, DropEmpty(s1, e, d + k - 1), e);
      } else {
        NothingDropped(s1, e, d + k - 1);
      }
    }
  }

  lemma NothingDropped(s: State, e: nat, d: nat)
    requires !EmptyTable(s.m, e, d)
    ensures DropEmpty(s, e, d) == s
  {
  }

  /** freeMem of an address inside a page takes the pages from the page file but leaves them in the working set: it
      keeps the invariant, by which every resident page has a disk frame, if and only if none of them is resident. */
  lemma FreeInsideIff(s: State, e: nat, p: nat, n: nat, k: nat)
    requires Inv(s) && e in s.envs
    ensures var s' := FreeInside(s, e, p, n, k);
            && Base(s') && OthersKept(s, s', e) && s'.envs == s.envs && s'.data == s.data && s'.disk == s.disk
            && (forall v :: Inside(v, p, n) ==> (Swap(e), v) !in s'.m.leaf)
            && (Inv(s') <==> forall v :: Inside(v, p, n) ==> v !in WS.Pages(s.envs[e]))
  {
    hide Base, OthersKept, Inside, WS.EnvOk, WS.ListsOf, RemoveRange, DropEmpties;
    assert EnvInv(s, e);
    RemoveRangeBase(s, e, p, n);
    var s1, s' := RemoveRange(s, e, p, n), FreeInside(s, e, p, n, k);
    DropEmptiesBase(s1, e, p / 1024, k);
    OthersTrans(s, s1, s', e);
    InsideLinked(s, s1, s', e, p, n);
    if EnvInv(s', e) {
      StepInv(s, s', e);
    }
  }

  lemma InsideLinked(s: State, s1: State, s': State, e: nat, p: nat, n: nat)
    requires EnvInv(s, e) && RangeRemoved(s, s1, e, p, n) && TablesDropped(s1, s', e)
    ensures EnvInv(s', e) <==> forall v :: Inside(v, p, n) ==> v !in WS.Pages(s.envs[e])
    ensures forall v :: Inside(v, p, n) ==> (Swap(e), v) !in s'.m.leaf
  {
    hide Base, OthersKept, Inside, WS.EnvOk, WS.ListsOf;
  }

  /** An environment with one resident page, freed at an address inside that page. */
  lemma InsideLoses(s: State, e: nat, v: Vpn, k: nat)
    requires Inv(s) && e in s.envs && v in WS.Pages(s.envs[e])
    ensures !Inv(FreeInside(s, e, Number(v), 1, k))
  {
    hide Inv, FreeInside, WS.ListsOf;
    FreeInsideIff(s, e, Number(v), 1, k);
    ResidentUser(s, e, v);
    assert Inside(v, Number(v), 1);
  }

  lemma ResidentUser(s: State, e: nat, v: Vpn)
    requires Inv(s) && e in s.envs && v in WS.Pages(s.envs[e])
    ensures UserPage(v)
  {
    assert EnvInv(s, e);
  }
}

/** Every step of the paging machine keeps its invariant. */
module Paging {
  import opened Seqs
  import opened Mmu
  import opened FrameTable
  import opened Machine
  import Lru
  import WS = WorkingSet

  // ---------- eviction ----------

  lemma LinkedEvict(m: Mem, m': Mem, data: map<(nat, Vpn), Block>, e: nat, l: Lru.Lists<Vpn>, S: nat, v: Vpn)
    requires Linked(m, data, e, l) && Distinct(l.All()) && (if S > 0 then l.second != [] else l.active != [])
    requires Lru.Evict(l, S).All() + [v] == l.All()
    requires m'.leaf == m.leaf - {(Ram(e), v)}
    ensures Linked(m', data - {(e, v)}, e, Lru.Evict(l, S))
  {
    var l', q := Lru.Evict(l, S), l.All();
    assert forall u :: u in q <==> u in l'.All() || u == v;
    assert q[|q| - 1] == v;
    assert forall i :: 0 <= i < |l'.All()| ==> l'.All()[i] == q[i] && q[i] != v;
    assert forall u :: u in l'.active ==> u in l.active && u in l'.All();
    assert forall u :: u in l'.second ==> u in l.second && u in l'.All();
  }

  lemma ReleaseBase(s: State, e: nat, v: Vpn)
    requires Base(s) && e in s.envs && (Ram(e), v) in s.m.leaf && (Swap(e), v) in s.m.leaf && (e, v) in s.data
    ensures var s' := ReleasePage(s, e, v);
            && Base(s') && OthersKept(s, s', e) && s'.envs == s.envs && s'.dfree == s.dfree
            && s'.data == s.data - {(e, v)} && s'.m.leaf == s.m.leaf - {(Ram(e), v)}
            && s'.m.own == s.m.own - {Page(e, v)} && |s'.m.free| == |s.m.free| + 1
  {
    var s1 := WriteBack(s, e, v);
    if s1 != s {
      PfWriteBase(s, e, v, s.data[(e, v)]);
    }
    UnmapBase(s1, e, v);
    OthersFrom(s, s1, ReleasePage(s, e, v), e);
  }

  lemma OthersFrom(s: State, s1: State, s2: State, e: nat)
    requires OthersKept(s1, s2, e) && s1.m == s.m && s1.data == s.data && s1.envs == s.envs
    requires s1.disk.Keys == s.disk.Keys
    ensures OthersKept(s, s2, e)
  {
  }

  /** What eviction promises. */
  ghost predicate Evicted(s: State, s': State, e: nat) {
    && e in s.envs && e in s'.envs && WS.HasVictim(s.envs[e])
    && OthersKept(s, s', e) && s'.envs[e].work != []
    && WS.ListsOf(s'.envs[e]) == Lru.Evict(WS.ListsOf(s.envs[e]), s.envs[e].S)
    && WS.Pages(s.envs[e]) == WS.Pages(s'.envs[e]) + [WS.PageAt(s.envs[e], WS.Victim(s.envs[e]))]
    && s'.envs[e].A == s.envs[e].A && s'.envs[e].S == s.envs[e].S && WS.EnvOk(s.envs[e]) && WS.EnvOk(s'.envs[e])
    && WS.Capacity(s'.envs[e]) == WS.Capacity(s.envs[e])
    && |s'.m.free| == |s.m.free| + 1 && s'.dfree == s.dfree
    && (forall o :: o in s.m.own && !o.Page? ==> o in s'.m.own)
    && (forall k :: k in s.m.leaf && k.0.Swap? ==> k in s'.m.leaf && s'.m.leaf[k] == s.m.leaf[k])
  }

  /** Evicting keeps the invariant: the victim leaves with its frame. */
  lemma EvictInv(s: State, e: nat)
    requires Inv(s) && e in s.envs && s.envs[e].work == [] && WS.HasVictim(s.envs[e])
    ensures Inv(EvictPage(s, e)) && Evicted(s, EvictPage(s, e), e)
  {
    hide Base, OthersKept, Linked, WS.EnvOk;
    assert EnvInv(s, e);
    EvictBase(s, e);
    var s', v := EvictPage(s, e), WS.PageAt(s.envs[e], WS.Victim(s.envs[e]));
    EvictLists(s, s', e, v);
    StepInv(s, s', e);
  }

  lemma EvictBase(s: State, e: nat)
    requires Base(s) && EnvInv(s, e) && s.envs[e].work == [] && WS.HasVictim(s.envs[e])
    ensures var v, s' := WS.PageAt(s.envs[e], WS.Victim(s.envs[e])), EvictPage(s, e);
            && Base(s') && OthersKept(s, s', e) && e in s'.envs
            && s'.m.leaf == s.m.leaf - {(Ram(e), v)} && s'.m.own == s.m.own - {Page(e, v)}
            && |s'.m.free| == |s.m.free| + 1 && s'.dfree == s.dfree
            && s'.data == s.data - {(e, v)}
            && s'.envs[e] == WS.Evict(s.envs[e]).(nOut := s'.envs[e].nOut)
  {
    var env, s' := s.envs[e], EvictPage(s, e);
    WS.EvictOk(env);
    var v := WS.PageAt(env, WS.Victim(env));
    LastIsMember(WS.Pages(env), WS.Pages(WS.Evict(env)), v);
    ReleaseBase(s, e, v);
    EnvBase(ReleasePage(s, e, v), e, s'.envs[e]);
    OthersTrans(s, ReleasePage(s, e, v), s', e);
  }

  lemma LastIsMember(q: seq<Vpn>, r: seq<Vpn>, v: Vpn)
    requires q == r + [v]
    ensures v in q
  {
    assert q[|r|] == v;
  }

  /** The lists and the entries after the eviction of v. */
  lemma EvictLists(s: State, s': State, e: nat, v: Vpn)
    requires EnvInv(s, e) && s.envs[e].work == [] && WS.HasVictim(s.envs[e])
    requires v == WS.PageAt(s.envs[e], WS.Victim(s.envs[e]))
    requires e in s'.envs && s'.envs[e] == WS.Evict(s.envs[e]).(nOut := s'.envs[e].nOut)
    requires s'.m.leaf == s.m.leaf - {(Ram(e), v)} && s'.m.own == s.m.own - {Page(e, v)} && s'.data == s.data - {(e, v)}
    requires OthersKept(s, s', e) && |s'.m.free| == |s.m.free| + 1 && s'.dfree == s.dfree
    ensures EnvInv(s', e) && Evicted(s, s', e)
  {
    hide OthersKept, Linked, WS.EnvOk;
    var env, l := s.envs[e], WS.ListsOf(s.envs[e]);
    WS.EnvFacts(env);
    EvictEnv(env, s'.envs[e].nOut);
    LinkedEvict(s.m, s'.m, s.data, e, l, env.S, v);
  }

  lemma EvictEnv(env: WS.Env, n: nat)
    requires WS.EnvOk(env) && env.work == [] && WS.HasVictim(env)
    ensures var env' := WS.Evict(env).(nOut := n);
            && WS.EnvOk(env') && WS.ListsOf(env') == Lru.Evict(WS.ListsOf(env), env.S)
            && WS.Pages(env) == WS.Pages(env') + [WS.PageAt(env, WS.Victim(env))]
            && WS.Capacity(env') == WS.Capacity(env)
  {
    WS.EvictOk(env);
    hide *;
    WS.OutIrrelevant(WS.Evict(env), n);
    SameCapacity(WS.Evict(env), n);
  }

  lemma SameCapacity(env: WS.Env, n: nat)
    ensures WS.Capacity(env.(nOut := n)) == WS.Capacity(env) && WS.Pages(env.(nOut := n)) == WS.Pages(env)
  {
    WS.PagesSame(env, env.(nOut := n), env.active);
    WS.PagesSame(env, env.(nOut := n), env.second);
  }

  // ---------- promotion ----------

  /** The entries after v joined ActiveList and u left it for SecondList. */
  ghost predicate Swapped(m: Mem, m': Mem, e: nat, v: Vpn, u: Vpn) {
    && (forall k :: k in m.leaf <==> k in m'.leaf)
    && (forall k :: k in m.leaf && k != (Ram(e), v) && k != (Ram(e), u) ==> m'.leaf[k] == m.leaf[k])
    && PuwSet(Entry(m', Ram(e), v)) && !Entry(m', Ram(e), u).present
  }

  lemma PromoteMembers(l: Lru.Lists<Vpn>, A: nat, S: nat, v: Vpn)
    requires Lru.Ok(l, A, S) && v in l.second && l.active != []
    ensures var l', u := Lru.Promote(l, v), Lru.Last(l.active);
            && (forall x :: x in l'.active <==> x == v || (x in l.active && x != u))
            && (forall x :: x in l'.second <==> x == u || (x in l.second && x != v))
            && (forall x :: x in l'.All() <==> x in l'.active || x in l'.second)
            && (forall x :: x in l.All() <==> x in l.active || x in l.second)
            && (forall x :: x in l.active ==> x !in l.second)
  {
    var l', u, f := Lru.Promote(l, v), Lru.Last(l.active), Lru.Front(l.active);
    Lru.DistinctAppend(l.active, l.second);
    Lru.WithoutMembers(l.second, v);
    assert l.active == f + [u];
    Lru.DistinctAppend(f, [u]);
    assert forall x :: x in l.active <==> x in f || x == u;
    assert u !in f by { assert u in [u]; }
  }

  lemma LinkedPromote(m: Mem, m': Mem, data: map<(nat, Vpn), Block>, e: nat, l: Lru.Lists<Vpn>, A: nat, S: nat, v: Vpn)
    requires Linked(m, data, e, l) && Lru.Ok(l, A, S) && v in l.second && l.active != []
    requires Swapped(m, m', e, v, Lru.Last(l.active))
    ensures Linked(m', data, e, Lru.Promote(l, v))
  {
    PromoteMembers(l, A, S, v);
    hide Lru.Ok, Lru.Promote;
  }

  lemma SwapPerms(s: State, e: nat, v: Vpn, u: Vpn)
    requires Base(s) && e in s.envs && (Ram(e), v) in s.m.leaf && (Ram(e), u) in s.m.leaf && u != v
    ensures var s' := s.(m := SetPerms(SetPerms(s.m, e, v, PUW, NONE), e, u, NONE, PUW));
            && Base(s') && OthersKept(s, s', e) && Swapped(s.m, s'.m, e, v, u)
            && s'.m.own == s.m.own && s'.m.free == s.m.free
  {
    PermsBase(s, e, v, PUW, NONE);
    var s1 := s.(m := SetPerms(s.m, e, v, PUW, NONE));
    PermsBase(s1, e, u, NONE, PUW);
    var s2 := s1.(m := SetPerms(s1.m, e, u, NONE, PUW));
    OthersTrans(s, s1, s2, e);
    TwoEntries(s.m, s1.m, s2.m, e, v, u);
  }

  lemma TwoEntries(m: Mem, m1: Mem, m2: Mem, e: nat, v: Vpn, u: Vpn)
    requires (Ram(e), v) in m.leaf && (Ram(e), u) in m1.leaf && u != v
    requires OneEntry(m, m1, (Ram(e), v), Update(m.leaf[(Ram(e), v)], PUW, NONE))
    requires OneEntry(m1, m2, (Ram(e), u), Update(m1.leaf[(Ram(e), u)], NONE, PUW))
    ensures (Ram(e), u) in m.leaf ==> Swapped(m, m2, e, v, u)
  {
  }

  lemma PromoteInv(s: State, e: nat, v: Vpn, i: nat)
    requires Inv(s) && e in s.envs && i < |s.envs[e].second| && WS.PageAt(s.envs[e], s.envs[e].second[i]) == v
    ensures s.envs[e].active != []
    ensures var s' := PromotePage(s, e, v, i);
            && Inv(s') && OthersKept(s, s', e) && e in s'.envs && s'.envs[e] == WS.Promote(s.envs[e], i)
            && WS.ListsOf(s'.envs[e]) == Lru.Promote(WS.ListsOf(s.envs[e]), v)
            && v in WS.ListsOf(s.envs[e]).second
            && Swapped(s.m, s'.m, e, v, Lru.Last(WS.ListsOf(s.envs[e]).active))
  {
    hide Base, OthersKept, Swapped, WS.EnvOk, Injective;
    hide Linked;
    var env := s.envs[e];
    assert EnvInv(s, e);
    var l := WS.ListsOf(env);
    WS.EnvFacts(env);
    assert l.second[i] == v && l.second != [];
    WS.PromoteOk(env, i);
    var s', u := PromotePage(s, e, v, i), Lru.Last(l.active);
    assert u == WS.PageAt(env, Lru.Last(env.active)) && u in l.active && v in l.second;
    ListsMapped(s.m, s.data, e, l, env.A, env.S, u, v);
    SwapPerms(s, e, v, u);
    var s1 := s.(m := SetPerms(SetPerms(s.m, e, v, PUW, NONE), e, u, NONE, PUW));
    EnvBase(s1, e, WS.Promote(env, i));
    OthersTrans(s, s1, s', e);
    LinkedPromote(s.m, s'.m, s.data, e, l, env.A, env.S, v);
    assert EnvInv(s', e);
    StepInv(s, s', e);
  }

  lemma ListsMapped(m: Mem, data: map<(nat, Vpn), Block>, e: nat, l: Lru.Lists<Vpn>, A: nat, S: nat, u: Vpn, v: Vpn)
    requires Linked(m, data, e, l) && Lru.Ok(l, A, S) && u in l.active && v in l.second
    ensures (Ram(e), u) in m.leaf && (Ram(e), v) in m.leaf && u != v
  {
    Lru.DistinctAppend(l.active, l.second);
  }

  // ---------- placement ----------

  /** s' is s with page v filled: its entry is usable and clean, its contents known, its disk frame assigned. */
  ghost predicate Filled(s: State, s': State, e: nat, v: Vpn) {
    && OthersKept(s, s', e) && s'.envs == s.envs && s'.data.Keys == s.data.Keys
    && (forall o :: o in s.m.own ==> o in s'.m.own && s'.m.own[o] == s.m.own[o])
    && (Ram(e), v) in s'.m.leaf && PuwSet(s'.m.leaf[(Ram(e), v)]) && !s'.m.leaf[(Ram(e), v)].modified
    && (Swap(e), v) in s'.m.leaf
    && (forall k: (Space, Vpn) :: k.0.Ram? ==> (k in s'.m.leaf <==> k in s.m.leaf))
    && (forall k: (Space, Vpn) :: k.0.Ram? && k != (Ram(e), v) && k in s.m.leaf ==> s'.m.leaf[k] == s.m.leaf[k])
    && (forall k: (Space, Vpn) :: k.0.Swap? && k in s.m.leaf ==> k in s'.m.leaf && s'.m.leaf[k] == s.m.leaf[k])
  }

  lemma PfAddBase(s: State, e: nat, v: Vpn)
    requires Base(s) && e in s.envs && DirsOk(s.m, e, s.envs[e]) && UserPage(v)
    requires CanHaveTable(s.m, Swap(e), v.d) && ((Swap(e), v) in s.m.leaf || s.dfree != [])
    ensures var s' := PfAdd(s, e, v);
            && Base(s') && OthersKept(s, s', e) && s'.envs == s.envs && s'.data == s.data && s'.disk == s.disk
            && (forall o :: o in s.m.own ==> o in s'.m.own && s'.m.own[o] == s.m.own[o])
            && (Swap(e), v) in s'.m.leaf && OneEntry(s.m, s'.m, (Swap(e), v), s'.m.leaf[(Swap(e), v)])
            && ((Swap(e), v) in s.m.leaf ==> s'.m.leaf == s.m.leaf && s'.dfree == s.dfree)
            && ((Swap(e), v) !in s.m.leaf ==> s'.m.leaf[(Swap(e), v)] == s.dfree[0] && s'.dfree == s.dfree[1..])
  {
    TableBase(s, Swap(e), v.d);
    var s1 := SwapTable(s, e, v.d);
    NewDfnBase(s1, e, v);
    OthersTrans(s, s1, NewDfn(s1, e, v), e);
  }

  lemma FillBase(s: State, e: nat, v: Vpn)
    requires Base(s) && e in s.envs && DirsOk(s.m, e, s.envs[e]) && UserPage(v)
    requires (Ram(e), v) in s.m.leaf && PuwSet(s.m.leaf[(Ram(e), v)]) && !s.m.leaf[(Ram(e), v)].modified
    requires (e, v) in s.data
    requires (Swap(e), v) in s.m.leaf || (s.dfree != [] && CanHaveTable(s.m, Swap(e), v.d))
    ensures Base(FillPage(s, e, v)) && Filled(s, FillPage(s, e, v), e, v)
  {
    hide Base, OthersKept, MemOk;
    if (Swap(e), v) in s.m.leaf {
      ReadBase(s, e, v);
    } else {
      PfAddBase(s, e, v);
    }
  }

  lemma ReadBase(s: State, e: nat, v: Vpn)
    requires Base(s) && e in s.envs && (Ram(e), v) in s.m.leaf && (Swap(e), v) in s.m.leaf && (e, v) in s.data
    ensures var s' := FillPage(s, e, v);
            && Base(s') && OthersKept(s, s', e) && s'.envs == s.envs && s'.m.own == s.m.own
            && s'.data == s.data[(e, v) := OnDisk(s, e, v)]
            && OneEntry(s.m, s'.m, (Ram(e), v), Update(s.m.leaf[(Ram(e), v)], NONE, MODIFIED))
  {
    DataBase(s, e, v, OnDisk(s, e, v));
    var s1 := s.(data := s.data[(e, v) := OnDisk(s, e, v)]);
    PermsBase(s1, e, v, NONE, MODIFIED);
    OthersTrans(s, s1, FillPage(s, e, v), e);
  }

  /** The entries after a placement: v is usable, and if ActiveList was full its last page u is not PRESENT. */
  ghost predicate Demoted(m: Mem, m': Mem, e: nat, l: Lru.Lists<Vpn>, A: nat, v: Vpn) {
    && m'.own == m.own
    && (forall k :: k in m.leaf <==> k in m'.leaf)
    && (forall k :: k in m.leaf && (k.0 != Ram(e) || (k.1 != v && k.1 !in l.active)) ==> m'.leaf[k] == m.leaf[k])
    && PuwSet(Entry(m', Ram(e), v)) && Entry(m', Ram(e), v).modified == Entry(m, Ram(e), v).modified
    && (forall u :: u in l.active ==> Entry(m', Ram(e), u).modified == Entry(m, Ram(e), u).modified)
    && (forall u :: u in l.active && (|l.active| < A || u != Lru.Last(l.active)) ==>
          Entry(m', Ram(e), u) == Entry(m, Ram(e), u))
    && (|l.active| >= A && l.active != [] ==> !Entry(m', Ram(e), Lru.Last(l.active)).present)
  }

  lemma DemoteBase(s: State, e: nat, env: WS.Env, v: Vpn)
    requires Base(s) && e in s.envs && (Ram(e), v) in s.m.leaf && PuwSet(s.m.leaf[(Ram(e), v)])
    requires v !in WS.ListsOf(env).active && forall u :: u in WS.ListsOf(env).active ==> (Ram(e), u) in s.m.leaf
    ensures var s' := DemoteFor(s, e, env, v);
            && Base(s') && OthersKept(s, s', e) && s'.envs == s.envs && s'.data == s.data
            && s'.disk == s.disk && s'.dfree == s.dfree
            && Demoted(s.m, s'.m, e, WS.ListsOf(env), env.A, v)
  {
    hide Base;
    var l := WS.ListsOf(env);
    assert |l.active| == |env.active|;
    if |env.active| < env.A || env.active == [] {
    } else {
      hide OthersKept, Demoted, OneEntry;
      var u := Lru.Last(l.active);
      assert u == WS.PageAt(env, Lru.Last(env.active)) && u in l.active;
      TwoPerms(s, e, u, v);
      DemoteEntries(s.m, SetPerms(s.m, e, u, NONE, PUW), DemoteFor(s, e, env, v).m, e, l, env.A, v);
    }
  }

  lemma TwoPerms(s: State, e: nat, u: Vpn, v: Vpn)
    requires Base(s) && e in s.envs && (Ram(e), v) in s.m.leaf && (Ram(e), u) in s.m.leaf && u != v
    ensures var m1 := SetPerms(s.m, e, u, NONE, PUW); var m2 := SetPerms(m1, e, v, PUW, NONE);
            && Base(s.(m := m2)) && OthersKept(s, s.(m := m2), e) && m2.own == s.m.own
            && OneEntry(s.m, m1, (Ram(e), u), Update(s.m.leaf[(Ram(e), u)], NONE, PUW))
            && (Ram(e), v) in m1.leaf && OneEntry(m1, m2, (Ram(e), v), Update(m1.leaf[(Ram(e), v)], PUW, NONE))
  {
    PermsBase(s, e, u, NONE, PUW);
    var s1 := s.(m := SetPerms(s.m, e, u, NONE, PUW));
    PermsBase(s1, e, v, PUW, NONE);
    OthersTrans(s, s1, s1.(m := SetPerms(s1.m, e, v, PUW, NONE)), e);
  }

  lemma DemoteEntries(m: Mem, m1: Mem, m2: Mem, e: nat, l: Lru.Lists<Vpn>, A: nat, v: Vpn)
    requires l.active != [] && |l.active| >= A && v !in l.active
    requires (Ram(e), v) in m1.leaf && (Ram(e), Lru.Last(l.active)) in m.leaf
    requires OneEntry(m, m1, (Ram(e), Lru.Last(l.active)), Update(m.leaf[(Ram(e), Lru.Last(l.active))], NONE, PUW))
    requires OneEntry(m1, m2, (Ram(e), v), Update(m1.leaf[(Ram(e), v)], PUW, NONE))
    requires m2.own == m.own && (forall u :: u in l.active ==> (Ram(e), u) in m.leaf) && (Ram(e), v) in m.leaf
    ensures Demoted(m, m2, e, l, A, v)
  {
    assert Lru.Last(l.active) in l.active;
  }

  lemma PlaceMembers(l: Lru.Lists<Vpn>, A: nat, v: Vpn)
    requires A >= 1 && v !in l.All() && |l.active| <= A && Distinct(l.All())
    ensures var l' := Lru.Place(l, A, v);
            && (forall x :: x in l'.All() <==> x in l'.active || x in l'.second)
            && (forall x :: x in l.All() <==> x in l.active || x in l.second)
            && (forall x :: x in l.active ==> x !in l.second)
            && (if |l.active| < A then
                  (forall x :: x in l'.active <==> x == v || x in l.active) && l'.second == l.second
                else
                  && (forall x :: x in l'.active <==> x == v || (x in l.active && x != Lru.Last(l.active)))
                  && (forall x :: x in l'.second <==> x == Lru.Last(l.active) || x in l.second))
  {
    Lru.DistinctAppend(l.active, l.second);
    if |l.active| == A {
      var f, u := Lru.Front(l.active), Lru.Last(l.active);
      assert l.active == f + [u];
      Lru.DistinctAppend(f, [u]);
      assert forall x :: x in l.active <==> x in f || x == u;
      assert u !in f by { assert u in [u]; }
    }
  }

  /** The entries after v was mapped, filled and put at the head of ActiveList. */
  ghost predicate NewPage(m: Mem, m': Mem, e: nat, l: Lru.Lists<Vpn>, A: nat, v: Vpn) {
    && (forall u :: (Ram(e), u) in m'.leaf <==> (Ram(e), u) in m.leaf || u == v)
    && (forall u :: (Swap(e), u) in m.leaf || u == v ==> (Swap(e), u) in m'.leaf)
    && PuwSet(Entry(m', Ram(e), v))
    && (forall u :: (Ram(e), u) in m.leaf && (|l.active| < A || l.active == [] || u != Lru.Last(l.active)) && u != v ==>
          Entry(m', Ram(e), u) == Entry(m, Ram(e), u))
    && (|l.active| >= A && l.active != [] ==> !Entry(m', Ram(e), Lru.Last(l.active)).present)
  }

  lemma LinkedPlace(m: Mem, m': Mem, data: map<(nat, Vpn), Block>, data': map<(nat, Vpn), Block>,
                    e: nat, l: Lru.Lists<Vpn>, A: nat, v: Vpn)
    requires Linked(m, data, e, l) && UserPage(v)
    requires A >= 1 && v !in l.All() && |l.active| <= A && Distinct(l.All())
    requires NewPage(m, m', e, l, A, v)
    requires forall k :: k in data' <==> k in data || k == (e, v)
    ensures Linked(m', data', e, Lru.Place(l, A, v))
  {
    PlaceMembers(l, A, v);
    hide Distinct, Lru.Place;
    if |l.active| < A {
    } else {
    }
  }

  /** What placement promises. */
  ghost predicate Placed(s: State, s': State, e: nat, v: Vpn) {
    && e in s.envs && e in s'.envs && OthersKept(s, s', e)
    && s.envs[e].work != [] && s'.envs[e] == WS.Place(s.envs[e], v)
    && s.envs[e].A >= 1 && WS.ListsOf(s'.envs[e]) == Lru.Place(WS.ListsOf(s.envs[e]), s.envs[e].A, v)
    && (Swap(e), v) in s'.m.leaf
    && (forall k: (Space, Vpn) :: k.0.Swap? && k in s.m.leaf ==> k in s'.m.leaf && s'.m.leaf[k] == s.m.leaf[k])
  }

  predicate RoomToPlace(s: State, e: nat, v: Vpn) {
    && |s.m.free| >= 1 + (if (Swap(e), v) in s.m.leaf || Table(Swap(e), v.d) in s.m.own then 0 else 1)
    && ((Swap(e), v) in s.m.leaf || s.dfree != [])
  }

  /** Mapping and filling, before the lists change. */
  lemma MapAndFill(s: State, e: nat, v: Vpn, junk: Block)
    requires Base(s) && e in s.envs && DirsOk(s.m, e, s.envs[e]) && UserPage(v) && Table(Ram(e), v.d) in s.m.own
    requires (Ram(e), v) !in s.m.leaf && |junk| == NPTENTRIES && RoomToPlace(s, e, v)
    ensures var s2 := FillPage(MapNew(s, e, v, junk), e, v);
            Base(s2) && OthersKept(s, s2, e) && MappedAndFilled(s, s2, e, v)
  {
    hide Base, OthersKept, FillPage, SetPerms, MemOk;
    var s1 := MapNew(s, e, v, junk);
    MapNewBase(s, e, v, junk);
    assert |s1.m.free| == |s.m.free| - 1;
    FillBase(s1, e, v);
    OthersTrans(s, s1, FillPage(s1, e, v), e);
    assert s1.data.Keys == s.data.Keys + {(e, v)};
  }

  /** s2 is s with page v mapped and filled. */
  ghost predicate MappedAndFilled(s: State, s2: State, e: nat, v: Vpn) {
    && s2.envs == s.envs && s2.data.Keys == s.data.Keys + {(e, v)}
    && (forall o :: o in s.m.own ==> o in s2.m.own && s2.m.own[o] == s.m.own[o])
    && (Ram(e), v) in s2.m.leaf && PuwSet(s2.m.leaf[(Ram(e), v)]) && (Swap(e), v) in s2.m.leaf
    && (forall k: (Space, Vpn) :: k.0.Ram? ==> (k in s2.m.leaf <==> k in s.m.leaf || k == (Ram(e), v)))
    && (forall k: (Space, Vpn) :: k.0.Ram? && k != (Ram(e), v) && k in s.m.leaf ==> s2.m.leaf[k] == s.m.leaf[k])
    && (forall k: (Space, Vpn) :: k.0.Swap? && k in s.m.leaf ==> k in s2.m.leaf && s2.m.leaf[k] == s.m.leaf[k])
  }

  /** Placement keeps the invariant. */
  lemma PlaceInv(s: State, e: nat, v: Vpn, junk: Block)
    requires Inv(s) && e in s.envs && s.envs[e].work != [] && v !in WS.Pages(s.envs[e])
    requires UserPage(v) && Table(Ram(e), v.d) in s.m.own && |junk| == NPTENTRIES && RoomToPlace(s, e, v)
    ensures Inv(PlacePage(s, e, v, junk)) && Placed(s, PlacePage(s, e, v, junk), e, v)
  {
    hide Base, OthersKept, MappedAndFilled, Demoted, EnvInv, Placed;
    assert EnvInv(s, e);
    var s2, s' := FillPage(MapNew(s, e, v, junk), e, v), PlacePage(s, e, v, junk);
    PlaceBase(s, e, v, junk);
    PlaceLinks(s, s2, s', e, v);
    StepInv(s, s', e);
  }

  lemma PlaceBase(s: State, e: nat, v: Vpn, junk: Block)
    requires Base(s) && EnvInv(s, e) && s.envs[e].work != [] && v !in WS.Pages(s.envs[e])
    requires UserPage(v) && Table(Ram(e), v.d) in s.m.own && |junk| == NPTENTRIES && RoomToPlace(s, e, v)
    ensures var s2, s' := FillPage(MapNew(s, e, v, junk), e, v), PlacePage(s, e, v, junk);
            && Base(s') && OthersKept(s, s', e) && MappedAndFilled(s, s2, e, v)
            && Demoted(s2.m, s'.m, e, WS.ListsOf(s.envs[e]), s.envs[e].A, v)
            && s'.data == s2.data && s'.disk == s2.disk && s'.dfree == s2.dfree
            && s'.envs == s.envs[e := WS.Place(s.envs[e], v)]
  {
    hide Base, OthersKept, Demoted, WS.EnvOk, FillPage, MapNew, DemoteFor, WS.Place;
    var env, s2 := s.envs[e], FillPage(MapNew(s, e, v, junk), e, v);
    MapAndFill(s, e, v, junk);
    WS.FindIsMember(env, v);
    ActiveMapped(s.m, s2.m, s.data, e, WS.ListsOf(env), v);
    DemoteBase(s2, e, env, v);
    var s3 := DemoteFor(s2, e, env, v);
    EnvBase(s3, e, WS.Place(env, v));
    OthersTrans(s, s2, s3, e);
    OthersTrans(s, s3, SetEnv(s3, e, WS.Place(env, v)), e);
    assert PlacePage(s, e, v, junk) == SetEnv(s3, e, WS.Place(env, v));
  }

  lemma ActiveMapped(m: Mem, m2: Mem, data: map<(nat, Vpn), Block>, e: nat, l: Lru.Lists<Vpn>, v: Vpn)
    requires Linked(m, data, e, l)
    requires forall k: (Space, Vpn) :: k.0.Ram? && k in m.leaf ==> k in m2.leaf
    ensures forall u :: u in l.active ==> (Ram(e), u) in m2.leaf
  {
  }

  lemma PlaceLinks(s: State, s2: State, s': State, e: nat, v: Vpn)
    requires EnvInv(s, e) && s.envs[e].work != [] && v !in WS.Pages(s.envs[e]) && UserPage(v)
    requires MappedAndFilled(s, s2, e, v) && s'.data == s2.data
    requires Demoted(s2.m, s'.m, e, WS.ListsOf(s.envs[e]), s.envs[e].A, v)
    requires e in s'.envs && s'.envs[e] == WS.Place(s.envs[e], v) && OthersKept(s, s', e)
    ensures EnvInv(s', e) && Placed(s, s', e, v)
  {
    hide OthersKept, WS.EnvOk, Linked;
    var env, l := s.envs[e], WS.ListsOf(s.envs[e]);
    WS.EnvFacts(env);
    WS.PlaceOk(env, v);
    assert forall k :: k in s2.data <==> k in s.data || k == (e, v) by {
      assert s2.data.Keys == s.data.Keys + {(e, v)};
    }
    NewPageFrom(s, s2, s'.m, e, l, env.A, v);
    LinkedPlace(s.m, s'.m, s.data, s'.data, e, l, env.A, v);
    assert WS.Place(env, v).dir == env.dir && WS.Place(env, v).ddir == env.ddir;
  }

  lemma NewPageFrom(s: State, s2: State, m': Mem, e: nat, l: Lru.Lists<Vpn>, A: nat, v: Vpn)
    requires MappedAndFilled(s, s2, e, v) && Demoted(s2.m, m', e, l, A, v) && A >= 1
    requires Linked(s.m, s.data, e, l)
    ensures NewPage(s.m, m', e, l, A, v)
  {
  }

  // ---------- the whole handler ----------

  /** What a page fault promises: the lists move as Lru.Fault says for the sizes in effect, and the page file
      loses nothing. */
  ghost predicate Faulted(s: State, s': State, e: nat, v: Vpn) {
    && e in s.envs && e in s'.envs && OthersKept(s, s', e)
    && s'.envs[e].A == s.envs[e].A && s'.envs[e].S == s.envs[e].S
    && WS.Capacity(s'.envs[e]) == WS.Capacity(s.envs[e])
    && Lru.Ok(WS.ListsOf(s.envs[e]), WS.EffA(s.envs[e]), WS.EffS(s.envs[e]))
    && WS.ListsOf(s'.envs[e]) == Lru.Fault(WS.ListsOf(s.envs[e]), WS.EffA(s.envs[e]), WS.EffS(s.envs[e]), v)
    && (forall k: (Space, Vpn) :: k.0.Swap? && k in s.m.leaf ==> k in s'.m.leaf && s'.m.leaf[k] == s.m.leaf[k])
  }

  /** An element for the page, by eviction if need be, and enough free frames: one for the page unless it is
      resident, and one for its disk table if it is a stack page seen for the first time whose disk table does not
      exist; eviction supplies one. */
  predicate RoomToFault(s: State, e: nat, v: Vpn)
    requires e in s.envs
  {
    (Ram(e), v) in s.m.leaf ||
    (&& |s.m.free| + (if s.envs[e].work == [] then 1 else 0)
          >= 1 + (if (Swap(e), v) in s.m.leaf || Table(Swap(e), v.d) in s.m.own then 0 else 1)
     && ((Swap(e), v) in s.m.leaf || s.dfree != [])
     && (s.envs[e].work == [] ==> WS.HasVictim(s.envs[e])))
  }

  /** page_fault_handler keeps the invariant. */
  lemma PageFaultInv(s: State, e: nat, v: Vpn, junk: Block)
    requires Inv(s) && e in s.envs && v !in WS.ListsOf(s.envs[e]).active
    requires UserPage(v) && Table(Ram(e), v.d) in s.m.own && |junk| == NPTENTRIES && RoomToFault(s, e, v)
    ensures Inv(PageFault(s, e, v, junk)) && Faulted(s, PageFault(s, e, v, junk), e, v)
  {
    hide Base, OthersKept, WS.EnvOk;
    var env := s.envs[e];
    assert EnvInv(s, e);
    WS.EnvFacts(env);
    WS.FindIsMember(env, v);
    var i := WS.Find(env, env.second, v);
    if i < |env.second| {
      PromoteFault(s, e, v, i);
    } else {
      assert v !in WS.Pages(env) && (Ram(e), v) !in s.m.leaf;
      if env.work != [] {
        PlaceFree(s, e, v, junk);
      } else {
        PlaceEvicted(s, e, v, junk);
      }
    }
  }

  lemma PromoteFault(s: State, e: nat, v: Vpn, i: nat)
    requires Inv(s) && e in s.envs && i < |s.envs[e].second| && WS.PageAt(s.envs[e], s.envs[e].second[i]) == v
    requires v !in WS.ListsOf(s.envs[e]).active
    ensures s.envs[e].active != []
    ensures Inv(PromotePage(s, e, v, i)) && Faulted(s, PromotePage(s, e, v, i), e, v)
  {
    hide Inv, OthersKept, PromotePage, Lru.Ok, WS.EnvOk, Lru.Promote, WS.ListsOf;
    PromoteInv(s, e, v, i);
    FaultEnv(s, e, v);
    assert forall k: (Space, Vpn) :: k.0.Swap? ==> k != (Ram(e), v);
  }

  /** The handler on the lists of e. */
  lemma FaultEnv(s: State, e: nat, v: Vpn)
    requires Inv(s) && e in s.envs && v !in WS.ListsOf(s.envs[e]).active
    requires v !in WS.ListsOf(s.envs[e]).second && s.envs[e].work == [] ==> WS.HasVictim(s.envs[e])
    ensures var env, env' := s.envs[e], WS.Fault(s.envs[e], v);
            && Lru.Ok(WS.ListsOf(env), WS.EffA(env), WS.EffS(env))
            && WS.ListsOf(env') == Lru.Fault(WS.ListsOf(env), WS.EffA(env), WS.EffS(env), v)
            && WS.Capacity(env') == WS.Capacity(env) && env'.A == env.A && env'.S == env.S
    ensures WS.Find(s.envs[e], s.envs[e].second, v) < |s.envs[e].second| <==> v in WS.ListsOf(s.envs[e]).second
  {
    hide Base, WS.EnvOk, Linked, WS.Fault;
    assert EnvInv(s, e);
    WS.FaultOk(s.envs[e], v);
    WS.FaultSizes(s.envs[e], v);
    WS.FindIsMember(s.envs[e], v);
  }

  lemma PlaceFree(s: State, e: nat, v: Vpn, junk: Block)
    requires Inv(s) && e in s.envs && v !in WS.Pages(s.envs[e]) && v !in WS.ListsOf(s.envs[e]).second
    requires s.envs[e].work != [] && UserPage(v) && Table(Ram(e), v.d) in s.m.own && |junk| == NPTENTRIES
    requires RoomToPlace(s, e, v)
    ensures Inv(PlacePage(s, e, v, junk)) && Faulted(s, PlacePage(s, e, v, junk), e, v)
  {
    hide Inv, OthersKept, WS.ListsOf, Lru.Ok, PlacePage, WS.Place, RoomToPlace;
    NotListed(s, e, v);
    FaultEnv(s, e, v);
    PlaceInv(s, e, v, junk);
  }

  lemma NotListed(s: State, e: nat, v: Vpn)
    requires e in s.envs && v !in WS.Pages(s.envs[e])
    ensures v !in WS.ListsOf(s.envs[e]).active && v !in WS.ListsOf(s.envs[e]).second
  {
    WS.FindIsMember(s.envs[e], v);
  }

  lemma PlaceEvicted(s: State, e: nat, v: Vpn, junk: Block)
    requires Inv(s) && e in s.envs && v !in WS.Pages(s.envs[e]) && v !in WS.ListsOf(s.envs[e]).second
    requires s.envs[e].work == [] && UserPage(v) && Table(Ram(e), v.d) in s.m.own && |junk| == NPTENTRIES
    requires RoomToFault(s, e, v) && (Ram(e), v) !in s.m.leaf
    ensures var s' := PlacePage(EvictPage(s, e), e, v, junk);
            WS.HasVictim(s.envs[e]) && Inv(s') && Faulted(s, s', e, v)
  {
    hide Inv, OthersKept, WS.ListsOf, Lru.Ok, WS.Place, EvictPage, PlacePage, RoomToFault, RoomToPlace, WS.Evict;
    var s1 := EvictPage(s, e);
    EvictNeeded(s, e, v);
    NotListed(s, e, v);
    FaultEnv(s, e, v);
    EvictInv(s, e);
    EvictRoom(s, s1, e, v);
    PlaceInv(s1, e, v, junk);
    OthersTrans(s, s1, PlacePage(s1, e, v, junk), e);
    EvictedEnv(s, e, v);
  }

  lemma EvictNeeded(s: State, e: nat, v: Vpn)
    requires e in s.envs && RoomToFault(s, e, v) && (Ram(e), v) !in s.m.leaf && s.envs[e].work == []
    ensures WS.HasVictim(s.envs[e])
  {
  }

  /** Up to the count of pages written back, eviction and placement do to the lists what the handler does. */
  lemma EvictedEnv(s: State, e: nat, v: Vpn)
    requires e in s.envs && WS.HasVictim(s.envs[e]) && s.envs[e].work == []
    requires !(WS.Find(s.envs[e], s.envs[e].second, v) < |s.envs[e].second|)
    ensures e in EvictPage(s, e).envs && EvictPage(s, e).envs[e].work != []
    ensures var env', env1 := WS.Fault(s.envs[e], v), WS.Place(EvictPage(s, e).envs[e], v);
            && env1 == env'.(nOut := env1.nOut) && WS.ListsOf(env1) == WS.ListsOf(env')
            && WS.Capacity(env1) == WS.Capacity(env')
  {
    var env', env1 := WS.Fault(s.envs[e], v), WS.Place(EvictPage(s, e).envs[e], v);
    assert env1 == env'.(nOut := env1.nOut);
    WS.OutIrrelevant(env', env1.nOut);
  }

  lemma EvictRoom(s: State, s1: State, e: nat, v: Vpn)
    requires Evicted(s, s1, e) && v !in WS.Pages(s.envs[e]) && s.envs[e].work == []
    requires RoomToFault(s, e, v) && (Ram(e), v) !in s.m.leaf && Table(Ram(e), v.d) in s.m.own
    ensures v !in WS.Pages(s1.envs[e]) && RoomToPlace(s1, e, v) && Table(Ram(e), v.d) in s1.m.own
  {
    var q, r := WS.Pages(s.envs[e]), WS.Pages(s1.envs[e]);
    assert forall i :: 0 <= i < |r| ==> r[i] == q[i];
  }

  // ---------- which bits change ----------

  /** w without the three permissions, and with them. */
  function Closed(w: Word): Word { w.(present := false, writeable := false, user := false) }

  function Opened(w: Word): Word { w.(present := true, writeable := true, user := true) }

  /** nPageOut counts the pages written back: one for a victim that is MODIFIED. */
  lemma EvictCounts(s: State, e: nat)
    requires e in s.envs && WS.HasVictim(s.envs[e])
    ensures var v, s' := WS.PageAt(s.envs[e], WS.Victim(s.envs[e])), EvictPage(s, e);
            && e in s'.envs && s'.envs[e].nIn == s.envs[e].nIn
            && s'.envs[e].nOut == s.envs[e].nOut + if Entry(s.m, Ram(e), v).modified then 1 else 0
  {
    hide Unmapped, WriteBack;
  }

  /** A page that moves to SecondList loses PRESENT, writeable and the user's bit; the one that takes its place gets
      them; all else in the entries, MODIFIED in particular, and all other entries stay. */
  lemma DemotedBits(s: State, e: nat, env: Env, v: Vpn, x: Vpn)
    requires (Ram(e), v) in s.m.leaf && env.active != [] && WS.PageAt(env, Lru.Last(env.active)) != v
    ensures var u, s', w := WS.PageAt(env, Lru.Last(env.active)), DemoteFor(s, e, env, v), Entry(s.m, Ram(e), x);
            Entry(s'.m, Ram(e), x) ==
              if |env.active| < env.A then w
              else if x == v then Opened(w) else if x == u && (Ram(e), u) in s.m.leaf then Closed(w) else w
  {
  }

  lemma PromotedBits(s: State, e: nat, v: Vpn, i: nat, x: Vpn)
    requires e in s.envs && i < |s.envs[e].second| && s.envs[e].active != [] && (Ram(e), v) in s.m.leaf
    requires WS.PageAt(s.envs[e], Lru.Last(s.envs[e].active)) != v
    ensures var u, s' := WS.PageAt(s.envs[e], Lru.Last(s.envs[e].active)), PromotePage(s, e, v, i);
            var w := Entry(s.m, Ram(e), x);
            Entry(s'.m, Ram(e), x) ==
              if x == v then Opened(w) else if x == u && (Ram(e), u) in s.m.leaf then Closed(w) else w
  {
    hide WS.Promote;
  }
}

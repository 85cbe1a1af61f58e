/** allocateMem, and the page file half of freeMem: ranges of pages appear in and disappear from the
    page file. */
module PageRanges {
  import opened Mmu
  import opened FrameTable
  import opened FrameDemand
  import opened Machine
  import opened Paging
  import opened FlatMemory
  import opened Freeing
  import opened KernelFacts
  import opened Memory
  import WS = WorkingSet

  /** allocateMem on the n pages from page number p on. */
  function AllocRange(s: State, e: nat, p: nat, n: nat): State {
    if n == 0 then s else PfAdd(AllocRange(s, e, p, n - 1), e, Nth(p + n - 1))
  }

  /** A free frame if the disk directory is missing, and one if the disk table is. */
  predicate RoomToAdd(s: State, e: nat, v: Vpn) {
    && (e in s.envs && s.envs[e].ddir == 0 ==> s.m.free != [])
    && CanHaveTable(DiskDir(s, e).m, Swap(e), v.d)
  }

  predicate RoomForRange(s: State, e: nat, p: nat, n: nat) {
    n > 0 ==> RoomForRange(s, e, p, n - 1) && RoomToAdd(AllocRange(s, e, p, n - 1), e, Nth(p + n - 1))
  }

  function Least(a: nat, b: nat): nat { if a <= b then a else b }

  /** The first k pages of the range have the first k disk frames of q; nothing else changed. */
  ghost predicate Got(leaf: map<(Space, Vpn), Word>, leaf': map<(Space, Vpn), Word>, e: nat, p: nat, k: nat,
                      q: seq<Word>)
    requires k <= |q|
  {
    && (forall x: (Space, Vpn) :: !(x.0 == Swap(e) && Inside(x.1, p, k)) ==> (x in leaf' <==> x in leaf))
    && (forall x: (Space, Vpn) :: !(x.0 == Swap(e) && Inside(x.1, p, k)) && x in leaf ==> leaf'[x] == leaf[x])
    && (forall v :: Inside(v, p, k) ==> (Swap(e), v) in leaf' && leaf'[(Swap(e), v)] == q[Number(v) - p])
  }

  /** Only disk tables of e are new. */
  ghost predicate OnlyTables(own: map<Owner, Frame>, own': map<Owner, Frame>, e: nat) {
    && (forall o :: o in own ==> o in own' && own'[o] == own[o])
    && (forall o :: o in own' && o !in own ==> o.Table? && o.sp == Swap(e))
  }

  lemma GotNext(leaf: map<(Space, Vpn), Word>, leaf1: map<(Space, Vpn), Word>, e: nat, p: nat, k: nat, q: seq<Word>)
    requires k < |q| && Got(leaf, leaf1, e, p, k, q)
    ensures Got(leaf, leaf1[(Swap(e), Nth(p + k)) := q[k]], e, p, k + 1, q)
  {
    forall v: Vpn ensures Inside(v, p, k + 1) <==> Inside(v, p, k) || v == Nth(p + k) {
      NthNumber(p + k, v);
    }
    NthNumber(p + k, Nth(p + k));
  }

  /** s1 is s after allocateMem on n pages, of which as many as there are free disk frames got one. */
  ghost predicate AllocDone(s: State, s1: State, e: nat, p: nat, n: nat) {
    var k := Least(n, |s.dfree|);
    && Got(s.m.leaf, s1.m.leaf, e, p, k, s.dfree) && s1.dfree == s.dfree[k..]
    && OnlyTables(s.m.own, s1.m.own, e) && s1 == s.(m := s1.m, dfree := s1.dfree)
  }

  lemma {:induction false} AllocRangeGot(s: State, e: nat, p: nat, n: nat)
    requires e in s.envs && s.envs[e].ddir != 0
    requires RoomForRange(s, e, p, n) && forall v :: Inside(v, p, n) ==> (Swap(e), v) !in s.m.leaf
    ensures AllocDone(s, AllocRange(s, e, p, n), e, p, n)
  {
    if n > 0 {
      hide AllocDone, PfAdd, Nth, RoomToAdd;
      AllocRangeGot(s, e, p, n - 1);
      AllocStep(s, AllocRange(s, e, p, n - 1), e, p, n);
    } else {
      assert Got(s.m.leaf, s.m.leaf, e, p, 0, s.dfree);
    }
  }

  lemma AllocStep(s: State, s1: State, e: nat, p: nat, n: nat)
    requires n > 0 && AllocDone(s, s1, e, p, n - 1) && e in s.envs && s.envs[e].ddir != 0
    requires RoomToAdd(s1, e, Nth(p + n - 1)) && forall v :: Inside(v, p, n) ==> (Swap(e), v) !in s.m.leaf
    ensures AllocDone(s, PfAdd(s1, e, Nth(p + n - 1)), e, p, n)
  {
    hide Got, OnlyTables, Nth, PfAdd, EnsureTable, CanHaveTable;
    var v := Nth(p + n - 1);
    GotFresh(s.m.leaf, s1.m.leaf, e, p, n, s.dfree);
    TableStep(s.m.own, s1.m, e, v.d);
    PfAddShape(s1, e, v);
    if n <= |s.dfree| {
      GotNext(s.m.leaf, s1.m.leaf, e, p, n - 1, s.dfree);
    }
  }

  lemma PfAddShape(s: State, e: nat, v: Vpn)
    requires e in s.envs && s.envs[e].ddir != 0 && (Swap(e), v) !in s.m.leaf
    requires EnsureTable(s.m, Swap(e), v.d).leaf == s.m.leaf
    ensures var m1 := EnsureTable(s.m, Swap(e), v.d);
            PfAdd(s, e, v) == if s.dfree == [] then s.(m := m1)
                              else s.(m := m1.(leaf := s.m.leaf[(Swap(e), v) := s.dfree[0]]), dfree := s.dfree[1..])
  {
    hide EnsureTable;
    assert DiskDir(s, e) == s;
  }

  lemma GotFresh(leaf: map<(Space, Vpn), Word>, leaf1: map<(Space, Vpn), Word>, e: nat, p: nat, n: nat, q: seq<Word>)
    requires n > 0 && Got(leaf, leaf1, e, p, Least(n - 1, |q|), q)
    requires forall v :: Inside(v, p, n) ==> (Swap(e), v) !in leaf
    ensures (Swap(e), Nth(p + n - 1)) !in leaf1
  {
    NthNumber(p + n - 1, Nth(p + n - 1));
    assert Inside(Nth(p + n - 1), p, n) && !Inside(Nth(p + n - 1), p, Least(n - 1, |q|));
  }

  lemma TableStep(own: map<Owner, Frame>, m1: Mem, e: nat, d: nat)
    requires OnlyTables(own, m1.own, e) && CanHaveTable(m1, Swap(e), d)
    ensures OnlyTables(own, EnsureTable(m1, Swap(e), d).own, e) && EnsureTable(m1, Swap(e), d).leaf == m1.leaf
  {
  }

  /** The first j pages of the range are gone, their disk frames are back. */
  ghost predicate Removed(s1: State, s2: State, e: nat, p: nat, j: nat, back: multiset<Word>) {
    && (forall x :: x in s2.m.leaf <==> x in s1.m.leaf && !(x.0 == Swap(e) && Inside(x.1, p, j)))
    && (forall x :: x in s2.m.leaf ==> s2.m.leaf[x] == s1.m.leaf[x])
    && multiset(s2.dfree) == multiset(s1.dfree) + back
    && s2 == s1.(m := s1.m.(leaf := s2.m.leaf), dfree := s2.dfree)
  }

  lemma {:induction false} RemoveRangeOk(s: State, s1: State, e: nat, p: nat, k: nat, j: nat)
    requires k <= |s.dfree| && Got(s.m.leaf, s1.m.leaf, e, p, k, s.dfree)
    requires forall v :: Inside(v, p, j) && !Inside(v, p, k) ==> (Swap(e), v) !in s1.m.leaf
    ensures Removed(s1, RemoveRange(s1, e, p, j), e, p, j, multiset(s.dfree[..Least(j, k)]))
  {
    if j > 0 {
      hide Got, Removed;
      RemoveRangeOk(s, s1, e, p, k, j - 1);
      RemoveNext(s, s1, RemoveRange(s1, e, p, j - 1), e, p, k, j);
    }
  }

  lemma RemoveNext(s: State, s1: State, t: State, e: nat, p: nat, k: nat, j: nat)
    requires k <= |s.dfree| && Got(s.m.leaf, s1.m.leaf, e, p, k, s.dfree) && j > 0
    requires forall v :: Inside(v, p, j) && !Inside(v, p, k) ==> (Swap(e), v) !in s1.m.leaf
    requires Removed(s1, t, e, p, j - 1, multiset(s.dfree[..Least(j - 1, k)]))
    ensures Removed(s1, PfRemove(t, e, Nth(p + j - 1)), e, p, j, multiset(s.dfree[..Least(j, k)]))
  {
    var v, q := Nth(p + j - 1), s.dfree;
    RangeNext(p, j);
    hide Nth;
    if j <= k {
      assert Inside(v, p, k) && (Swap(e), v) in t.m.leaf && t.m.leaf[(Swap(e), v)] == q[j - 1];
      assert q[..j] == q[..j - 1] + [q[j - 1]];
      RemovedOne(s1, t, e, p, j, v, multiset(q[..j - 1]), q[j - 1]);
      assert multiset(q[..j - 1]) + multiset{q[j - 1]} == multiset(q[..j]);
    } else {
      assert !Inside(v, p, k) && (Swap(e), v) !in s1.m.leaf && (Swap(e), v) !in t.m.leaf;
      RemovedNone(s1, t, e, p, j, v, multiset(q[..k]));
    }
  }

  lemma RemovedOne(s1: State, t: State, e: nat, p: nat, j: nat, v: Vpn, back: multiset<Word>, d: Word)
    requires j > 0 && Removed(s1, t, e, p, j - 1, back)
    requires forall u: Vpn :: Inside(u, p, j) <==> Inside(u, p, j - 1) || u == v
    requires (Swap(e), v) in t.m.leaf && t.m.leaf[(Swap(e), v)] == d
    ensures Removed(s1, PfRemove(t, e, v), e, p, j, back + multiset{d})
  {
    hide Inside;
    var t' := PfRemove(t, e, v);
    assert multiset(t'.dfree) == multiset{d} + multiset(t.dfree);
  }

  lemma RemovedNone(s1: State, t: State, e: nat, p: nat, j: nat, v: Vpn, back: multiset<Word>)
    requires j > 0 && Removed(s1, t, e, p, j - 1, back) && (Swap(e), v) !in s1.m.leaf && (Swap(e), v) !in t.m.leaf
    requires forall u: Vpn :: Inside(u, p, j) <==> Inside(u, p, j - 1) || u == v
    ensures Removed(s1, PfRemove(t, e, v), e, p, j, back)
  {
    hide Inside;
    assert forall x: (Space, Vpn) :: x.0 == Swap(e) && x.1 == v ==> x == (Swap(e), v);
  }

  /** allocateMem followed by freeMem of the same fresh range: every page has again the disk frame it
      had, the same disk frames are free, and nothing changed but for disk tables that stay.  This holds
      even if the page file runs out of frames on the way. */
  lemma AllocThenFree(s: State, e: nat, p: nat, n: nat)
    requires EnvInv(s, e)
    requires RoomForRange(s, e, p, n) && forall v :: Inside(v, p, n) ==> (Swap(e), v) !in s.m.leaf
    ensures var s2 := FreePages(AllocRange(s, e, p, n), e, p, n);
            && s2.m.leaf == s.m.leaf && multiset(s2.dfree) == multiset(s.dfree)
            && OnlyTables(s.m.own, s2.m.own, e)
            && s2.data == s.data && s2.disk == s.disk && s2.envs == s.envs
  {
    hide Removed, AllocRange, RemoveRange, OnlyTables, RoomForRange, FreePages, WS.EnvOk;
    var s1, k := AllocRange(s, e, p, n), Least(n, |s.dfree|);
    AllocRangeGot(s, e, p, n);
    NotResident(s, e, p, n);
    FreeIsRemove(s1, e, p, n, n);
    assert forall v :: Inside(v, p, n) && !Inside(v, p, k) ==> (Swap(e), v) !in s1.m.leaf;
    RemoveRangeOk(s, s1, e, p, k, n);
    var s2 := RemoveRange(s1, e, p, n);
    assert s.dfree == s.dfree[..k] + s.dfree[k..];
    RemovedRest(s1, s2, e, p, n, multiset(s.dfree[..k]));
    SameEntries(s, s1, s2, e, p, n);
  }

  /** Pages that are not in the page file are not in memory. */
  lemma NotResident(s: State, e: nat, p: nat, n: nat)
    requires EnvInv(s, e) && forall v :: Inside(v, p, n) ==> (Swap(e), v) !in s.m.leaf
    ensures forall v :: Inside(v, p, n) ==> v !in WS.Pages(s.envs[e])
  {
    hide WS.EnvOk, Inside;
  }

  /** freeMem does to pages that are not resident what the page file half of it does. */
  lemma {:induction false} FreeIsRemove(s: State, e: nat, p: nat, n: nat, j: nat)
    requires e in s.envs && j <= n && forall v :: Inside(v, p, n) ==> v !in WS.Pages(s.envs[e])
    ensures FreePages(s, e, p, j) == RemoveRange(s, e, p, j) && RemoveRange(s, e, p, j).envs == s.envs
  {
    if j > 0 {
      RangeSteps(s, e, p, j);
      InsideAt(p, n, j - 1);
      hide *;
      FreeIsRemove(s, e, p, n, j - 1);
      AwayStep(RemoveRange(s, e, p, j - 1), e, Nth(p + j - 1));
    }
  }

  lemma AwayStep(s: State, e: nat, v: Vpn)
    requires e in s.envs && v !in WS.Pages(s.envs[e])
    ensures FreePage(s, e, v) == PfRemove(s, e, v) && PfRemove(s, e, v).envs == s.envs
  {
    hide WS.ListsOf;
    NotListed(s, e, v);
  }

  lemma RangeSteps(s: State, e: nat, p: nat, j: nat)
    requires j > 0
    ensures FreePages(s, e, p, j) == FreePage(FreePages(s, e, p, j - 1), e, Nth(p + j - 1))
    ensures RemoveRange(s, e, p, j) == PfRemove(RemoveRange(s, e, p, j - 1), e, Nth(p + j - 1))
  {
  }

  lemma InsideAt(p: nat, n: nat, i: nat)
    requires i < n
    ensures Inside(Nth(p + i), p, n)
  {
  }

  lemma RemovedRest(s1: State, s2: State, e: nat, p: nat, j: nat, back: multiset<Word>)
    requires Removed(s1, s2, e, p, j, back)
    ensures s2 == s1.(m := s1.m.(leaf := s2.m.leaf), dfree := s2.dfree)
    ensures multiset(s2.dfree) == multiset(s1.dfree) + back
  {
  }

  lemma SameEntries(s: State, s1: State, s2: State, e: nat, p: nat, n: nat)
    requires Got(s.m.leaf, s1.m.leaf, e, p, Least(n, |s.dfree|), s.dfree)
    requires Removed(s1, s2, e, p, n, multiset(s.dfree[..Least(n, |s.dfree|)]))
    requires forall v :: Inside(v, p, n) ==> (Swap(e), v) !in s.m.leaf
    ensures s2.m.leaf == s.m.leaf
  {
    assert forall x: (Space, Vpn) :: x.0 == Swap(e) ==> x == (Swap(e), x.1);
  }

  /** How many pages of the range are not in the page file. */
  function Missing(leaf: map<(Space, Vpn), Word>, e: nat, p: nat, n: nat): nat {
    if n == 0 then 0 else Missing(leaf, e, p, n - 1) + if (Swap(e), Nth(p + n - 1)) in leaf then 0 else 1
  }

  /** s' is s after allocateMem on n pages: the pages of the range that were not in the page file got the disk frames
      at the head of the free list, as far as these went. */
  ghost predicate RangeAllocated(s: State, s': State, e: nat, p: nat, n: nat) {
    var k := Least(Missing(s.m.leaf, e, p, n), |s.dfree|);
    && s'.dfree == s.dfree[k..] && s'.envs == s.envs && s'.data == s.data && s'.disk == s.disk
    && (forall x: (Space, Vpn) :: x in s.m.leaf ==> x in s'.m.leaf && s'.m.leaf[x] == s.m.leaf[x])
    && (forall x: (Space, Vpn) :: x in s'.m.leaf && x !in s.m.leaf ==> x.0 == Swap(e) && Inside(x.1, p, n))
    && Missing(s'.m.leaf, e, p, n) == Missing(s.m.leaf, e, p, n) - k
  }

  /** allocateMem keeps the invariant and every page's contents, whatever part of the range is in the page file already
      and however few disk frames are free. */
  lemma {:induction false} AllocRangeInv(s: State, e: nat, p: nat, n: nat, flat: Flat)
    requires Inv(s) && e in s.envs && p + n <= USER_PDX * 1024 && Agrees(s, flat) && RoomForRange(s, e, p, n)
    ensures var s' := AllocRange(s, e, p, n);
            Inv(s') && Agrees(s', flat) && OthersKept(s, s', e) && RangeAllocated(s, s', e, p, n)
  {
    hide Inv, Agrees, OthersKept, PfAdd, RangeAllocated, RoomToAdd;
    if n == 0 {
      OthersRefl(s, e);
      AllocatedNone(s, e, p);
    } else {
      AllocRangeInv(s, e, p, n - 1, flat);
      var s1, v := AllocRange(s, e, p, n - 1), Nth(p + n - 1);
      PageInRange(p + n - 1);
      AllocatedEnvs(s, s1, e, p, n - 1);
      TableRoom(s1, e, v);
      AddInv(s1, e, v, flat);
      OthersTrans(s, s1, PfAdd(s1, e, v), e);
      AllocatedNext(s, s1, PfAdd(s1, e, v), e, p, n);
    }
  }

  /** A created environment has its disk directory. */
  lemma TableRoom(s: State, e: nat, v: Vpn)
    requires Inv(s) && e in s.envs && RoomToAdd(s, e, v)
    ensures CanHaveTable(s.m, Swap(e), v.d)
  {
    assert EnvInv(s, e);
  }

  lemma AllocatedEnvs(s: State, s': State, e: nat, p: nat, n: nat)
    requires RangeAllocated(s, s', e, p, n)
    ensures s'.envs == s.envs
  {
  }

  lemma AllocatedNone(s: State, e: nat, p: nat)
    ensures RangeAllocated(s, s, e, p, 0)
  {
    NoneInside(p);
    hide Inside;
    assert Missing(s.m.leaf, e, p, 0) == 0 && s.dfree[0..] == s.dfree;
    hide Missing;
  }

  lemma AllocatedNext(s: State, s1: State, s2: State, e: nat, p: nat, n: nat)
    requires n > 0 && RangeAllocated(s, s1, e, p, n - 1) && Added(s1, s2, e, Nth(p + n - 1))
    ensures RangeAllocated(s, s2, e, p, n)
  {
    hide Nth, Inside;
    RangeNext(p, n);
    var v, k := Nth(p + n - 1), Least(Missing(s.m.leaf, e, p, n - 1), |s.dfree|);
    RangeLast(p, n);
    MissingSame(s1.m.leaf, s2.m.leaf, e, p, n - 1);
    assert (Swap(e), v) in s.m.leaf <==> (Swap(e), v) in s1.m.leaf;
    if (Swap(e), v) !in s.m.leaf && k < |s.dfree| {
      assert s1.dfree[1..] == s.dfree[k + 1..];
    }
  }

  lemma {:induction false} MissingSame(leaf: map<(Space, Vpn), Word>, leaf': map<(Space, Vpn), Word>, e: nat, p: nat,
                                       n: nat)
    requires forall v :: Inside(v, p, n) ==> ((Swap(e), v) in leaf <==> (Swap(e), v) in leaf')
    ensures Missing(leaf', e, p, n) == Missing(leaf, e, p, n)
  {
    if n > 0 {
      hide Inside, Nth;
      RangeNext(p, n);
      MissingSame(leaf, leaf', e, p, n - 1);
    }
  }

  /** None is missing if and only if all are there. */
  lemma {:induction false} MissingNone(leaf: map<(Space, Vpn), Word>, e: nat, p: nat, n: nat)
    ensures Missing(leaf, e, p, n) == 0 <==> forall v :: Inside(v, p, n) ==> (Swap(e), v) in leaf
  {
    if n == 0 {
      NoneInside(p);
    } else {
      hide Inside, Nth;
      RangeNext(p, n);
      MissingNone(leaf, e, p, n - 1);
    }
  }

  lemma RangeLast(p: nat, n: nat)
    requires n > 0
    ensures !Inside(Nth(p + n - 1), p, n - 1)
  {
  }

  lemma {:induction false} RoomPrefix(s: State, e: nat, p: nat, n: nat, i: nat)
    requires RoomForRange(s, e, p, n) && i <= n
    ensures RoomForRange(s, e, p, i)
  {
    if i < n {
      RoomPrefix(s, e, p, n - 1, i);
    }
  }

  /** What one round of the loop of allocateMem may rely on. */
  lemma RoomAt(s: State, e: nat, p: nat, n: nat, i: nat)
    requires RoomForRange(s, e, p, n) && i < n && p + n <= USER_PDX * 1024
    ensures var t, v := AllocRange(s, e, p, i), Nth(p + i);
            UserPage(v) && RoomToAdd(t, e, v) && AllocRange(s, e, p, i + 1) == PfAdd(t, e, v)
  {
    hide PfAdd, Nth, RoomToAdd;
    RoomPrefix(s, e, p, n, i + 1);
    PageInRange(p + i);
  }

  lemma StillNonzero(s: State, e: nat, v: Vpn)
    requires ZERO !in s.dfree
    ensures ZERO !in PfAdd(s, e, v).dfree
  {
    var q := s.dfree;
    if q != [] {
      assert forall w :: w in q[1..] ==> w in q;
    }
  }

  /** The pages of addresses va, va + PAGE_SIZE, ... */
  lemma AddressOf(va: nat, i: nat)
    requires va + i * 4096 < 0x1_0000_0000
    ensures PageOf(va + i * 4096) == Nth(va / 4096 + i)
  {
    AddressRoundTrip(va + i * 4096);
  }
}

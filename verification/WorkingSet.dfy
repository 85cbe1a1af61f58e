/** The working set of an environment: struct Env of inc/environment_definitions.h, and what the
    handler and the loader do to its three lists of working-set elements. */
module WorkingSet {
  import opened Seqs
  import opened Mmu
  import Lru

  /** The fields of struct Env that paging uses.  The lists hold indexes into ptr_pageWorkingSet,
      first element first; va is the virtual_address of each element. */
  datatype Env = Env(
    dir: Frame,             // env_cr3
    ddir: Frame,            // disk_env_pgdir_PA, 0 if there is none
    A: nat, S: nat,         // ActiveListSize, SecondListSize
    va: seq<Vpn>,           // ptr_pageWorkingSet[i].virtual_address
    work: seq<nat>,         // PageWorkingSetList
    active: seq<nat>,       // ActiveList
    second: seq<nat>,       // SecondList
    nIn: nat, nOut: nat)    // nPageIn, nPageOut

  function PageAt(env: Env, x: nat): Vpn {
    if x < |env.va| then env.va[x] else Vpn(0, 0)
  }

  function PagesOf(env: Env, s: seq<nat>): seq<Vpn> {
    seq(|s|, i requires 0 <= i < |s| => PageAt(env, s[i]))
  }

  function ListsOf(env: Env): Lru.Lists<Vpn> {
    Lru.Lists(PagesOf(env, env.active), PagesOf(env, env.second), env.nIn)
  }

  /** The resident pages. */
  function Pages(env: Env): seq<Vpn> {
    ListsOf(env).All()
  }

  function Elements(env: Env): multiset<nat> {
    multiset(env.work) + multiset(env.active) + multiset(env.second)
  }

  function UpTo(n: nat): multiset<nat> {
    if n == 0 then multiset{} else UpTo(n - 1) + multiset{n - 1}
  }

  /** The three lists hold every working-set element at most once, and the pages obey the list discipline.
      Elements are lost by freeMem only. */
  ghost predicate EnvOk(env: Env) {
    && |env.va| == env.A + env.S
    && Elements(env) <= UpTo(env.A + env.S)
    && Lru.Ok(ListsOf(env), env.A, env.S)
  }

  /** The number of elements that the lists hold. */
  function Capacity(env: Env): nat { |env.work| + |env.active| + |env.second| }

  /** The sizes that an environment has in effect: a lost element is one place less in SecondList, and
      when there is none left, in ActiveList. */
  function EffA(env: Env): nat { ActiveRoom(Capacity(env), env.A) }

  function EffS(env: Env): nat { SecondRoom(Capacity(env), env.A) }

  /** With c elements and ActiveListSize A. */
  function ActiveRoom(c: nat, A: nat): nat {
    if c > A then A else if c > 0 then c else 1
  }

  function SecondRoom(c: nat, A: nat): nat {
    if c > A then c - A else 0
  }

  /** The lists obey the discipline for these sizes, and all of the capacity is in use when no element is free. */
  lemma EffOk(env: Env)
    requires EnvOk(env)
    ensures Lru.Ok(ListsOf(env), EffA(env), EffS(env)) && EffA(env) <= env.A && EffS(env) <= env.S
    ensures env.work == [] && HasVictim(env) ==> |env.active| + |env.second| == EffA(env) + EffS(env)
    ensures env.work != [] ==> |env.active| + |env.second| < EffA(env) + EffS(env)
    ensures Capacity(env) == env.A + env.S ==> EffA(env) == env.A && EffS(env) == env.S
  {
    EnvFacts(env);
  }

  /** The handler finds a victim if and only if not too many elements were lost. */
  lemma VictimIff(env: Env)
    requires EnvOk(env) && env.work == []
    ensures HasVictim(env) <==> Capacity(env) > (if env.S > 0 then env.A else 0)
  {
    EnvFacts(env);
  }

  lemma {:induction false} UpToCounts(n: nat, x: nat)
    ensures UpTo(n)[x] == if x < n then 1 else 0
    ensures |UpTo(n)| == n
  {
    if n > 0 {
      UpToCounts(n - 1, x);
    }
  }

  /** An element of one list is below the bound, and in that list only. */
  lemma ElementOnce(env: Env, x: nat)
    requires Elements(env) <= UpTo(env.A + env.S)
    ensures x in env.work ==> x < env.A + env.S && x !in env.active && x !in env.second
    ensures x in env.active ==> x < env.A + env.S && x !in env.second && x !in env.work
    ensures x in env.second ==> x < env.A + env.S && x !in env.active && x !in env.work
  {
    UpToCounts(env.A + env.S, x);
    assert Elements(env)[x] == multiset(env.work)[x] + multiset(env.active)[x] + multiset(env.second)[x];
    assert x in multiset(env.work) <==> x in env.work;
    assert x in multiset(env.active) <==> x in env.active;
    assert x in multiset(env.second) <==> x in env.second;
  }

  lemma ElementCount(env: Env)
    requires Elements(env) <= UpTo(env.A + env.S)
    ensures |env.work| + |env.active| + |env.second| <= env.A + env.S
    ensures Elements(env) == UpTo(env.A + env.S) ==> |env.work| + |env.active| + |env.second| == env.A + env.S
    ensures |Elements(env)| == Capacity(env)
  {
    UpToCounts(env.A + env.S, 0);
    assert |Elements(env)| == |env.work| + |env.active| + |env.second|;
    assert UpTo(env.A + env.S) == Elements(env) + (UpTo(env.A + env.S) - Elements(env));
  }

  /** Lists that hold as many elements as there are hold every element exactly once. */
  lemma FullElements(env: Env)
    requires Elements(env) <= UpTo(env.A + env.S) && Capacity(env) == env.A + env.S
    ensures Elements(env) == UpTo(env.A + env.S)
  {
    ElementCount(env);
    UpToCounts(env.A + env.S, 0);
    hide *;
    SameSize(Elements(env), UpTo(env.A + env.S));
  }

  lemma SameSize(a: multiset<nat>, b: multiset<nat>)
    requires a <= b && |a| == |b|
    ensures a == b
  {
    assert b == a + (b - a);
    assert |b - a| == 0;
  }

  lemma EnvFacts(env: Env)
    requires EnvOk(env)
    ensures Lru.Ok(ListsOf(env), env.A, env.S) && env.A >= 1 && Distinct(Pages(env))
    ensures |ListsOf(env).active| == |env.active| <= env.A && |ListsOf(env).second| == |env.second|
    ensures env.second != [] ==> |env.active| == env.A
    ensures |env.work| + |env.active| + |env.second| <= env.A + env.S
  {
    ElementCount(env);
  }

  // ---------- the list updates ----------

  /** The last free element gets page p (Placement); its links are cleared. */
  function TakeFree(env: Env, p: Vpn): Env
    requires env.work != []
  {
    var x := Lru.Last(env.work);
    env.(work := Lru.Front(env.work), va := if x < |env.va| then env.va[x := p] else env.va)
  }

  /** x goes to the head of ActiveList; if that is full its last element moves to the head of SecondList. */
  function Insert(env: Env, x: nat): Env {
    if |env.active| < env.A || env.active == [] then env.(active := [x] + env.active)
    else env.(active := [x] + Lru.Front(env.active), second := [Lru.Last(env.active)] + env.second)
  }

  function Place(env: Env, p: Vpn): Env
    requires env.work != []
  {
    Insert(TakeFree(env, p), Lru.Last(env.work)).(nIn := env.nIn + 1)
  }

  /** The element at index i of SecondList changes places with the last of ActiveList. */
  function Promote(env: Env, i: nat): Env
    requires i < |env.second| && env.active != []
  {
    env.(active := [env.second[i]] + Lru.Front(env.active),
         second := [Lru.Last(env.active)] + (env.second[..i] + env.second[i + 1..]))
  }

  /** The element whose page is evicted. */
  function Victim(env: Env): nat
    requires if env.S > 0 then env.second != [] else env.active != []
  {
    if env.S > 0 then Lru.Last(env.second) else Lru.Last(env.active)
  }

  function Evict(env: Env): Env
    requires if env.S > 0 then env.second != [] else env.active != []
  {
    if env.S > 0 then env.(second := Lru.Front(env.second), work := [Victim(env)] + env.work)
    else env.(active := Lru.Front(env.active), work := [Victim(env)] + env.work)
  }

  // ---------- what they do to the pages ----------

  lemma PagesSame(env: Env, env': Env, s: seq<nat>)
    requires forall x :: x in s ==> PageAt(env, x) == PageAt(env', x)
    ensures PagesOf(env, s) == PagesOf(env', s)
  {
    forall i | 0 <= i < |s| ensures PageAt(env, s[i]) == PageAt(env', s[i]) {
      assert s[i] in s;
    }
  }

  lemma PlaceOk(env: Env, p: Vpn)
    requires EnvOk(env) && env.work != [] && p !in Pages(env)
    ensures EnvOk(Place(env, p)) && ListsOf(Place(env, p)) == Lru.Place(ListsOf(env), env.A, p)
    ensures Elements(Place(env, p)) == Elements(env)
  {
    ElementCount(env);
    PlaceIsOk(ListsOf(env), env.A, env.S, p);
    PlaceShape(env, p);
    EnvOkFrom(env, Place(env, p), Lru.Place(ListsOf(env), env.A, p));
  }

  lemma EnvOkFrom(env: Env, env': Env, l: Lru.Lists<Vpn>)
    requires env'.A == env.A && env'.S == env.S && |env'.va| == env.A + env.S
    requires Elements(env') <= UpTo(env.A + env.S)
    requires ListsOf(env') == l && Lru.Ok(l, env.A, env.S)
    ensures EnvOk(env')
  {
  }

  lemma PlaceShape(env: Env, p: Vpn)
    requires env.work != [] && env.A >= 1 && |env.va| == env.A + env.S && Elements(env) <= UpTo(env.A + env.S)
    ensures ListsOf(Place(env, p)) == Lru.Place(ListsOf(env), env.A, p)
    ensures Elements(Place(env, p)) == Elements(env) && |Place(env, p).va| == |env.va|
  {
    var x := Lru.Last(env.work);
    var env' := Place(env, p);
    ElementOnce(env, x);
    PagesSame(env, env', env.active);
    PagesSame(env, env', env.second);
    PlaceLists(env, env', x, p);
    PlaceElements(env, env', x);
  }

  lemma PlaceLists(env: Env, env': Env, x: nat, p: Vpn)
    requires env.A >= 1 && env'.nIn == env.nIn + 1 && PageAt(env', x) == p
    requires PagesOf(env, env.active) == PagesOf(env', env.active)
    requires PagesOf(env, env.second) == PagesOf(env', env.second)
    requires env'.active == Insert(env, x).active && env'.second == Insert(env, x).second
    ensures ListsOf(env') == Lru.Place(ListsOf(env), env.A, p)
  {
    var l, l' := ListsOf(env), Lru.Place(ListsOf(env), env.A, p);
    if |env.active| < env.A {
      assert PagesOf(env', env'.active) == [p] + PagesOf(env', env.active);
    } else {
      assert PagesOf(env', env'.active) == [p] + Lru.Front(PagesOf(env', env.active));
      assert PagesOf(env', env'.second) == [Lru.Last(PagesOf(env', env.active))] + PagesOf(env', env.second);
    }
  }

  lemma PlaceElements(env: Env, env': Env, x: nat)
    requires env.work != [] && env'.work == Lru.Front(env.work) && x == Lru.Last(env.work)
    requires env'.active == Insert(env, x).active && env'.second == Insert(env, x).second
    ensures Elements(env') == Elements(env)
  {
    LastElement(env.work);
    if |env.active| < env.A || env.active == [] {
      FirstElement(x, env.active);
    } else {
      LastElement(env.active);
      FirstElement(x, Lru.Front(env.active));
      FirstElement(Lru.Last(env.active), env.second);
    }
  }

  lemma LastElement(q: seq<nat>)
    requires q != []
    ensures multiset(q) == multiset(Lru.Front(q)) + multiset{Lru.Last(q)}
  {
    assert q == Lru.Front(q) + [Lru.Last(q)];
  }

  lemma FirstElement(x: nat, q: seq<nat>)
    ensures multiset([x] + q) == multiset{x} + multiset(q)
  {
  }

  lemma PlaceIsOk(l: Lru.Lists<Vpn>, A: nat, S: nat, p: Vpn)
    requires Lru.Ok(l, A, S) && p !in l.All() && |l.active| + |l.second| < A + S
    ensures Lru.Ok(Lru.Place(l, A, p), A, S)
  {
    Lru.DistinctAppend(l.active, l.second);
    assert forall x :: x in l.active || x in l.second ==> x in l.All();
    Lru.FaultIsMoveToFront(l, A, S, p);
    assert Lru.Fault(l, A, S, p) == Lru.Place(l, A, p);
  }

  lemma PromoteOk(env: Env, i: nat)
    requires EnvOk(env) && i < |env.second| && env.active != []
    ensures EnvOk(Promote(env, i)) && ListsOf(Promote(env, i)) == Lru.Promote(ListsOf(env), PageAt(env, env.second[i]))
  {
    PromoteLists(env, i);
    PromoteIsOk(ListsOf(env), env.A, env.S, i);
    PromoteElements(env, i);
    EnvOkFrom(env, Promote(env, i), Lru.Promote(ListsOf(env), PageAt(env, env.second[i])));
  }

  lemma PromoteIsOk(l: Lru.Lists<Vpn>, A: nat, S: nat, i: nat)
    requires Lru.Ok(l, A, S) && i < |l.second| && l.active != []
    ensures var l' := Lru.Promote(l, l.second[i]);
            Lru.Ok(l', A, S) && l'.second == [Lru.Last(l.active)] + (l.second[..i] + l.second[i + 1..])
  {
    var p := l.second[i];
    Lru.DistinctAppend(l.active, l.second);
    Lru.WithoutIndex(l.second, i);
    assert p in l.second && p !in l.active;
    Lru.FaultIsMoveToFront(l, A, S, p);
  }

  lemma PromoteLists(env: Env, i: nat)
    requires i < |env.second| && env.active != []
    ensures var l, l' := ListsOf(env), ListsOf(Promote(env, i));
            && l'.active == [l.second[i]] + Lru.Front(l.active)
            && l'.second == [Lru.Last(l.active)] + (l.second[..i] + l.second[i + 1..])
            && l'.nIn == l.nIn
  {
  }

  lemma PromoteElements(env: Env, i: nat)
    requires i < |env.second| && env.active != []
    ensures Elements(Promote(env, i)) == Elements(env)
  {
    assert env.active == Lru.Front(env.active) + [Lru.Last(env.active)];
    assert env.second == env.second[..i] + [env.second[i]] + env.second[i + 1..];
  }

  predicate HasVictim(env: Env) {
    if env.S > 0 then env.second != [] else env.active != []
  }

  /** The victim is the page faulted longest ago. */
  lemma EvictOk(env: Env)
    requires EnvOk(env) && env.work == [] && HasVictim(env)
    ensures EnvOk(Evict(env)) && Evict(env).work != [] && Elements(Evict(env)) == Elements(env)
    ensures ListsOf(Evict(env)) == Lru.Evict(ListsOf(env), env.S)
    ensures Pages(env) == Pages(Evict(env)) + [PageAt(env, Victim(env))]
  {
    EnvFacts(env);
    ListLengths(env);
    EvictElements(env);
    EvictLists(env);
    EvictIsOk(ListsOf(env), env.A, env.S);
    hide Lru.Ok, ListsOf, Elements;
    EnvOkFrom(env, Evict(env), Lru.Evict(ListsOf(env), env.S));
  }

  lemma EvictElements(env: Env)
    requires HasVictim(env)
    ensures Elements(Evict(env)) == Elements(env)
  {
    if env.S > 0 {
      assert env.second == Lru.Front(env.second) + [Victim(env)];
    } else {
      assert env.active == Lru.Front(env.active) + [Victim(env)];
    }
  }

  lemma EvictLists(env: Env)
    requires HasVictim(env) && (env.S == 0 ==> env.second == [])
    ensures ListsOf(Evict(env)) == Lru.Evict(ListsOf(env), env.S)
    ensures Pages(env) == Pages(Evict(env)) + [PageAt(env, Victim(env))]
  {
    var l, l' := ListsOf(env), ListsOf(Evict(env));
    if env.S > 0 {
      assert l'.second == Lru.Front(l.second) && l'.active == l.active;
    } else {
      assert l'.active == Lru.Front(l.active) && l'.second == l.second == [];
    }
  }

  lemma EvictIsOk(l: Lru.Lists<Vpn>, A: nat, S: nat)
    requires Lru.Ok(l, A, S) && if S > 0 then l.second != [] else l.active != []
    ensures Lru.Ok(Lru.Evict(l, S), A, S)
  {
    var l' := Lru.Evict(l, S);
    assert forall i :: 0 <= i < |l'.All()| ==> l'.All()[i] == l.All()[i];
  }

  /** nPageOut does not matter to the lists. */
  lemma OutIrrelevant(env: Env, n: nat)
    ensures ListsOf(env.(nOut := n)) == ListsOf(env)
    ensures EnvOk(env) ==> EnvOk(env.(nOut := n))
  {
    var env' := env.(nOut := n);
    PagesSame(env, env', env.active);
    PagesSame(env, env', env.second);
    assert ListsOf(env') == ListsOf(env);
    if EnvOk(env) {
      EnvOkFrom(env, env', ListsOf(env));
    }
  }

  // ---------- the handler on one environment ----------

  /** The index of the first element of s whose page is p, |s| if there is none: the LIST_FOREACH over SecondList. */
  function Find(env: Env, s: seq<nat>, p: Vpn): (i: nat)
    ensures i <= |s| && (i < |s| ==> PageAt(env, s[i]) == p)
    ensures forall j :: 0 <= j < i ==> PageAt(env, s[j]) != p
  {
    if s == [] then 0 else if PageAt(env, s[0]) == p then 0 else 1 + Find(env, s[1..], p)
  }

  /** What page_fault_handler does to the lists. */
  function Fault(env: Env, p: Vpn): Env {
    var i := Find(env, env.second, p);
    if i < |env.second| && env.active != [] then Promote(env, i)
    else if env.work != [] then Place(env, p)
    else if HasVictim(env) then Place(Evict(env), p)
    else env
  }

  /** The loop over SecondList finds the page exactly if it is there. */
  lemma FindIsMember(env: Env, p: Vpn)
    ensures Find(env, env.second, p) < |env.second| <==> p in ListsOf(env).second
    ensures var l := ListsOf(env); p in Pages(env) <==> p in l.active || p in l.second
  {
    var l, i := ListsOf(env), Find(env, env.second, p);
    if i < |env.second| {
      assert l.second[i] == p;
    }
    if p in l.second {
      var j :| 0 <= j < |l.second| && l.second[j] == p;
      assert PageAt(env, env.second[j]) == p;
    }
  }

  /** On elements the handler does what the page lists say for the sizes in effect, and keeps every element in
      exactly one list, if there is a victim when it needs one. */
  lemma FaultOk(env: Env, p: Vpn)
    requires EnvOk(env) && p !in ListsOf(env).active
    requires env.work == [] && p !in ListsOf(env).second ==> HasVictim(env)
    ensures EnvOk(Fault(env, p)) && Elements(Fault(env, p)) == Elements(env)
    ensures Lru.Ok(ListsOf(env), EffA(env), EffS(env))
    ensures ListsOf(Fault(env, p)) == Lru.Fault(ListsOf(env), EffA(env), EffS(env), p)
    ensures Capacity(Fault(env, p)) == Capacity(env)
    ensures Find(env, env.second, p) < |env.second| ==> env.active != []
  {
    hide EnvOk, Elements, ListsOf, EffA, EffS, Lru.Ok, PagesOf, Promote, Place, Evict, UpTo;
    EffOk(env);
    FindIsMember(env, p);
    var i := Find(env, env.second, p);
    if i < |env.second| {
      FaultPromotes(env, p, i);
    } else if env.work != [] {
      FaultPlaces(env, p);
    } else {
      FaultEvicts(env, p);
    }
    FaultSizes(env, p);
    SameCapacity(env, Fault(env, p));
  }

  lemma SameCapacity(env: Env, env': Env)
    requires EnvOk(env) && EnvOk(env') && Elements(env') == Elements(env) && env'.A == env.A && env'.S == env.S
    ensures Capacity(env') == Capacity(env)
  {
    hide Lru.Ok, ListsOf, PagesOf, UpTo, Elements;
    ElementCount(env);
    ElementCount(env');
  }

  lemma FaultPromotes(env: Env, p: Vpn, i: nat)
    requires EnvOk(env) && p in ListsOf(env).second && i < |env.second| && PageAt(env, env.second[i]) == p
    requires Lru.Ok(ListsOf(env), EffA(env), EffS(env))
    ensures env.active != [] && EnvOk(Promote(env, i)) && Elements(Promote(env, i)) == Elements(env)
    ensures ListsOf(Promote(env, i)) == Lru.Fault(ListsOf(env), EffA(env), EffS(env), p)
  {
    EnvFacts(env);
    ListLengths(env);
    PromoteOk(env, i);
    PromoteElements(env, i);
  }

  lemma FaultPlaces(env: Env, p: Vpn)
    requires EnvOk(env) && p !in Pages(env) && p !in ListsOf(env).second && env.work != []
    requires Lru.Ok(ListsOf(env), EffA(env), EffS(env))
    ensures EnvOk(Place(env, p)) && Elements(Place(env, p)) == Elements(env)
    ensures ListsOf(Place(env, p)) == Lru.Fault(ListsOf(env), EffA(env), EffS(env), p)
  {
    EffOk(env);
    ListLengths(env);
    PlaceOk(env, p);
    hide Elements;
    PlaceSame(ListsOf(env), env.A, EffA(env), p);
  }

  lemma FaultEvicts(env: Env, p: Vpn)
    requires EnvOk(env) && p !in Pages(env) && p !in ListsOf(env).second && env.work == [] && HasVictim(env)
    requires Lru.Ok(ListsOf(env), EffA(env), EffS(env))
    ensures Evict(env).work != []
    ensures EnvOk(Place(Evict(env), p)) && Elements(Place(Evict(env), p)) == Elements(env)
    ensures ListsOf(Place(Evict(env), p)) == Lru.Fault(ListsOf(env), EffA(env), EffS(env), p)
  {
    EffOk(env);
    ListLengths(env);
    EvictOk(env);
    EvictSizes(env);
    ListLengths(Evict(env));
    hide Elements, EnvOk, ListsOf, Evict, PagesOf;
    assert forall i :: 0 <= i < |Pages(Evict(env))| ==> Pages(Evict(env))[i] == Pages(env)[i];
    assert p !in Pages(Evict(env));
    PlaceOk(Evict(env), p);
    PlaceSame(ListsOf(Evict(env)), env.A, EffA(env), p);
  }

  lemma EvictSizes(env: Env)
    requires EnvOk(env) && env.work == [] && HasVictim(env)
    ensures var env' := Evict(env);
            && env'.A == env.A && (env.S > 0 <==> EffS(env) > 0)
            && (EffS(env) > 0 ==> EffA(env) == env.A)
            && (EffS(env) == 0 ==> |env'.active| < EffA(env))
  {
    EnvFacts(env);
  }

  lemma FaultSizes(env: Env, p: Vpn)
    ensures Fault(env, p).A == env.A && Fault(env, p).S == env.S
  {
  }

  /** A list with room in effect has room. */
  lemma PlaceSame(l: Lru.Lists<Vpn>, A: nat, B: nat, p: Vpn)
    requires 1 <= B <= A && (|l.active| < B || B == A)
    ensures Lru.Place(l, A, p) == Lru.Place(l, B, p)
  {
  }

  // ---------- freeMem on one environment ----------

  /** A page of ActiveList: its element is unlinked, and is in no list any more; the head of SecondList takes the
      place at the tail. */
  function DropActive(env: Env, i: nat): Env
    requires i < |env.active|
  {
    var rest := env.active[..i] + env.active[i + 1..];
    if env.second == [] then env.(active := rest)
    else env.(active := rest + [env.second[0]], second := env.second[1..])
  }

  /** A page of SecondList: its element is free again. */
  function DropSecond(env: Env, i: nat): Env
    requires i < |env.second|
  {
    env.(second := env.second[..i] + env.second[i + 1..], work := [env.second[i]] + env.work)
  }

  /** What freeMem does to the lists for page p.  SecondList is searched from inside the loop over ActiveList. */
  function Drop(env: Env, p: Vpn): Env {
    var i, j := Find(env, env.active, p), Find(env, env.second, p);
    if i < |env.active| then DropActive(env, i)
    else if env.active != [] && j < |env.second| then DropSecond(env, j)
    else env
  }

  lemma FindIn(env: Env, s: seq<nat>, p: Vpn)
    ensures Find(env, s, p) < |s| <==> p in PagesOf(env, s)
  {
    var i := Find(env, s, p);
    if i < |s| {
      assert PagesOf(env, s)[i] == p;
    }
    if p in PagesOf(env, s) {
      var j :| 0 <= j < |s| && PagesOf(env, s)[j] == p;
      assert PageAt(env, s[j]) == p;
    }
  }

  /** On the pages freeMem does what Lru.Forget says; a page of ActiveList costs an element. */
  lemma DropOk(env: Env, p: Vpn)
    requires EnvOk(env)
    ensures EnvOk(Drop(env, p)) && ListsOf(Drop(env, p)) == Lru.Forget(ListsOf(env), p)
    ensures Capacity(Drop(env, p)) == Capacity(env) - if p in ListsOf(env).active then 1 else 0
  {
    hide PagesOf, UpTo, Lru.Ok, Lru.Forget, Elements, DropActive, DropSecond;
    FindIn(env, env.active, p);
    FindIn(env, env.second, p);
    ListLengths(env);
    EnvFacts(env);
    Lru.ForgetDeletes(ListsOf(env), env.A, env.S, p);
    var i, j := Find(env, env.active, p), Find(env, env.second, p);
    if i < |env.active| {
      DropActiveLists(ListsOf(env), env, i, p);
      DropActiveElements(env, i);
      EnvOkFrom(env, Drop(env, p), Lru.Forget(ListsOf(env), p));
    } else if env.active != [] && j < |env.second| {
      DropSecondLists(ListsOf(env), env, j, p);
      DropSecondElements(env, j);
      EnvOkFrom(env, Drop(env, p), Lru.Forget(ListsOf(env), p));
    } else {
      ForgetNothing(ListsOf(env), p);
    }
  }

  /** With one place in either list: a page of ActiveList is freed and another one placed.  The next placement finds
      no free element, and takes its victim from an empty SecondList. */
  lemma NoVictimLeft()
    ensures var p, q := Vpn(0, 1), Vpn(0, 2);
            var env := Env(1, 2, 1, 1, [p, q], [1], [0], [], 1, 0);
            && EnvOk(env) && Capacity(env) == env.A + env.S
            && var env' := Fault(Drop(env, p), q);
               EnvOk(env') && env'.active == [1] && env'.work == [] && !HasVictim(env')
  {
    var p, q := Vpn(0, 1), Vpn(0, 2);
    var env := Env(1, 2, 1, 1, [p, q], [1], [0], [], 1, 0);
    assert UpTo(2) == UpTo(1) + multiset{1} && UpTo(1) == UpTo(0) + multiset{0};
    assert PagesOf(env, [0]) == [p] && PagesOf(env, []) == [];
    assert EnvOk(env);
    assert Find(env, [0], p) == 0;
    DropOk(env, p);
    var e1 := Drop(env, p);
    assert e1 == env.(active := []);
    assert Find(e1, [], q) == 0;
    PlaceOk(e1, q);
  }

  lemma ForgetNothing(l: Lru.Lists<Vpn>, p: Vpn)
    requires p !in l.active && (l.active == [] || p !in l.second)
    ensures Lru.Forget(l, p) == l
  {
    if p !in l.second {
      Lru.WithoutAbsent(l.second, p);
    }
  }

  lemma DropActiveLists(l: Lru.Lists<Vpn>, env: Env, i: nat, p: Vpn)
    requires Distinct(l.All()) && l == ListsOf(env) && i < |env.active| && PageAt(env, env.active[i]) == p
    ensures ListsOf(DropActive(env, i)) == Lru.Forget(l, p)
  {
    DropActivePages(env, i);
    Lru.DistinctAppend(l.active, l.second);
    assert l.active[i] == p && p in l.active;
    Lru.WithoutIndex(l.active, i);
    hide PagesOf, Distinct, DropActive, Lru.Without;
  }

  lemma DropActiveElements(env: Env, i: nat)
    requires i < |env.active| && Elements(env) <= UpTo(env.A + env.S)
    ensures var env' := DropActive(env, i);
            && Elements(env') <= UpTo(env.A + env.S) && Capacity(env') == Capacity(env) - 1
            && |env'.va| == |env.va| && env'.A == env.A && env'.S == env.S
  {
    hide UpTo;
    var env' := DropActive(env, i);
    assert env.active == env.active[..i] + [env.active[i]] + env.active[i + 1..];
    assert env.second != [] ==> env.second == [env.second[0]] + env.second[1..];
    assert Elements(env') <= Elements(env);
  }

  lemma DropSecondLists(l: Lru.Lists<Vpn>, env: Env, j: nat, p: Vpn)
    requires Distinct(l.All()) && l == ListsOf(env)
    requires env.active != [] && j < |env.second| && PageAt(env, env.second[j]) == p && p !in l.active
    ensures ListsOf(DropSecond(env, j)) == Lru.Forget(l, p)
  {
    DropSecondPages(env, j);
    Lru.DistinctAppend(l.active, l.second);
    assert l.second[j] == p && p in l.second;
    Lru.WithoutIndex(l.second, j);
    hide PagesOf, Distinct, DropSecond, Lru.Without;
  }

  lemma DropSecondElements(env: Env, j: nat)
    requires j < |env.second| && Elements(env) <= UpTo(env.A + env.S)
    ensures var env' := DropSecond(env, j);
            && Elements(env') <= UpTo(env.A + env.S) && Capacity(env') == Capacity(env)
            && |env'.va| == |env.va| && env'.A == env.A && env'.S == env.S
  {
    hide UpTo;
    var env' := DropSecond(env, j);
    assert env.second == env.second[..j] + [env.second[j]] + env.second[j + 1..];
    assert Elements(env') == Elements(env);
  }

  lemma DropActivePages(env: Env, i: nat)
    requires i < |env.active|
    ensures var l, l' := ListsOf(env), ListsOf(DropActive(env, i));
            && |l.active| == |env.active| && |l.second| == |env.second| && l'.nIn == l.nIn
            && (if l.second == [] then l'.active == l.active[..i] + l.active[i + 1..] && l'.second == []
                else l'.active == l.active[..i] + l.active[i + 1..] + [l.second[0]] && l'.second == l.second[1..])
  {
  }

  lemma DropSecondPages(env: Env, j: nat)
    requires j < |env.second|
    ensures var l, l' := ListsOf(env), ListsOf(DropSecond(env, j));
            && |l.active| == |env.active| && |l.second| == |env.second| && l'.nIn == l.nIn
            && l'.active == l.active && l'.second == l.second[..j] + l.second[j + 1..]
  {
  }

  // ---------- loading ----------

  /** initialize_environment: all elements are free, the element with index 0 last. */
  function NewEnv(dir: Frame, A: nat, S: nat): Env {
    Env(dir, 0, A, S, seq(A + S, i => Vpn(0, 0)), Down(A + S), [], [], 0, 0)
  }

  function Down(n: nat): seq<nat> {
    if n == 0 then [] else [n - 1] + Down(n - 1)
  }

  /** A loaded page goes to ActiveList while that leaves room for the stack page, then to SecondList. */
  function LoadInsert(env: Env, v: Vpn, cap: nat): Env
    requires env.work != []
  {
    var x, env1 := Lru.Last(env.work), TakeFree(env, v);
    if |env.active| < cap then env1.(active := [x] + env.active) else env1.(second := [x] + env.second)
  }

  /** The discipline while loading: at most n pages in ActiveList, SecondList in use only if there are n. */
  ghost predicate LoadOk(env: Env, n: nat) {
    && |env.va| == env.A + env.S && Elements(env) == UpTo(env.A + env.S) && env.A >= 1
    && Distinct(Pages(env)) && |env.active| <= n && (env.second != [] ==> |env.active| == n)
    && WorkInOrder(env)
  }

  /** The free elements are still in their first order. */
  ghost predicate WorkInOrder(env: Env) {
    |env.work| <= env.A + env.S && env.work == Take(Down(env.A + env.S), |env.work|)
  }

  lemma {:induction false} DownAt(n: nat, i: nat)
    requires i < n
    ensures |Down(n)| == n && Down(n)[i] == n - 1 - i
  {
    DownLength(n);
    if i > 0 {
      DownAt(n - 1, i - 1);
    }
  }

  /** The next free element is the one with index page_last_WS_index, the number of pages loaded so far. */
  lemma NextElement(env: Env, n: nat)
    requires LoadOk(env, n) && env.work != []
    ensures Lru.Last(env.work) == env.A + env.S - |env.work|
  {
    DownLength(env.A + env.S);
    DownAt(env.A + env.S, |env.work| - 1);
  }

  /** The elements that hold pages are the first ones. */
  lemma UsedElements(env: Env, n: nat, x: nat)
    requires LoadOk(env, n) && (x in env.active || x in env.second)
    ensures x < env.A + env.S - |env.work|
  {
    hide Distinct, PagesOf, UpTo, Elements;
    ElementOnce(env, x);
    DownLength(env.A + env.S);
    var N := env.A + env.S;
    forall y | N - |env.work| <= y < N ensures y in env.work {
      DownAt(N, N - 1 - y);
      assert env.work[N - 1 - y] == y;
    }
  }

  lemma {:induction false} DownElements(n: nat)
    ensures multiset(Down(n)) == UpTo(n)
  {
    if n > 0 {
      DownElements(n - 1);
    }
  }

  lemma NewEnvOk(dir: Frame, A: nat, S: nat)
    requires A >= 1
    ensures LoadOk(NewEnv(dir, A, S), A - 1) && Pages(NewEnv(dir, A, S)) == []
    ensures |NewEnv(dir, A, S).work| == A + S
  {
    DownElements(A + S);
    DownLength(A + S);
    assert Down(A + S)[..A + S] == Down(A + S);
    EmptyLists(NewEnv(dir, A, S));
    hide UpTo, Down, Elements, Pages;
  }

  lemma EmptyLists(env: Env)
    requires env.active == [] && env.second == []
    ensures Elements(env) == multiset(env.work) && Pages(env) == []
  {
  }

  lemma {:induction false} DownLength(n: nat)
    ensures |Down(n)| == n
  {
    if n > 0 {
      DownLength(n - 1);
    }
  }

  lemma LoadInsertOk(env: Env, v: Vpn, cap: nat)
    requires LoadOk(env, cap) && env.work != [] && v !in Pages(env)
    ensures var env' := LoadInsert(env, v, cap);
            && LoadOk(env', cap) && |env'.work| == |env.work| - 1
            && (forall u :: u in Pages(env') <==> u in Pages(env) || u == v)
            && env'.A == env.A && env'.S == env.S && env'.dir == env.dir && env'.ddir == env.ddir
  {
    hide LoadInsert, Elements, UpTo, PagesOf, Distinct, WorkInOrder;
    LoadShape(env, v, cap);
    LoadFields(env, v, cap);
    LoadWork(env, v, cap);
    LoadSizes(env, v, cap);
    LoadLists(ListsOf(env), ListsOf(LoadInsert(env, v, cap)), v, |env.active| < cap);
  }

  lemma LoadSizes(env: Env, v: Vpn, cap: nat)
    requires env.work != []
    ensures var env' := LoadInsert(env, v, cap);
            if |env.active| < cap then |env'.active| == |env.active| + 1 && env'.second == env.second
            else env'.active == env.active && env'.second != []
  {
  }

  lemma LoadLists(l: Lru.Lists<Vpn>, l': Lru.Lists<Vpn>, v: Vpn, room: bool)
    requires Distinct(l.All()) && v !in l.All()
    requires if room then l'.active == [v] + l.active && l'.second == l.second
             else l'.active == l.active && l'.second == [v] + l.second
    ensures Distinct(l'.All()) && forall u :: u in l'.All() <==> u in l.All() || u == v
  {
    hide Distinct;
    if room {
      assert l'.All() == [v] + l.All();
      Lru.DistinctPush(l.All(), v);
    } else {
      LoadSecond(l.active, l.second, v);
    }
  }

  /** On the pages: Lru.Load. */
  lemma LoadInsertLists(env: Env, v: Vpn, cap: nat)
    requires env.work != [] && |env.va| == env.A + env.S && Elements(env) == UpTo(env.A + env.S)
    ensures ListsOf(LoadInsert(env, v, cap)) == Lru.Load(ListsOf(env), cap, v)
  {
    LoadShape(env, v, cap);
    LoadFields(env, v, cap);
    ListLengths(env);
  }

  lemma LoadWork(env: Env, v: Vpn, cap: nat)
    requires WorkInOrder(env) && env.work != []
    ensures WorkInOrder(LoadInsert(env, v, cap))
  {
    DownLength(env.A + env.S);
    assert LoadInsert(env, v, cap).work == Lru.Front(env.work);
  }

  lemma LoadShape(env: Env, v: Vpn, cap: nat)
    requires env.work != [] && |env.va| == env.A + env.S && Elements(env) == UpTo(env.A + env.S)
    ensures var env', l, l' := LoadInsert(env, v, cap), ListsOf(env), ListsOf(LoadInsert(env, v, cap));
            && Elements(env') == Elements(env) && |env'.va| == |env.va|
            && (if |env.active| < cap then l'.active == [v] + l.active && l'.second == l.second
                else l'.active == l.active && l'.second == [v] + l.second)
  {
    var x, env' := Lru.Last(env.work), LoadInsert(env, v, cap);
    ElementOnce(env, x);
    LoadElements(env, v, cap);
    hide Elements, UpTo;
    LoadedPage(env, env', x, v);
    assert env'.va == TakeFree(env, v).va;
    if |env.active| < cap {
      assert env'.active == [x] + env.active && env'.second == env.second;
    } else {
      assert env'.active == env.active && env'.second == [x] + env.second;
    }
  }

  lemma LoadedPage(env: Env, env': Env, x: nat, v: Vpn)
    requires x < |env.va| && env'.va == env.va[x := v] && x !in env.active && x !in env.second
    ensures PagesOf(env', env.active) == PagesOf(env, env.active)
    ensures PagesOf(env', env.second) == PagesOf(env, env.second)
    ensures PagesOf(env', [x] + env.active) == [v] + PagesOf(env, env.active)
    ensures PagesOf(env', [x] + env.second) == [v] + PagesOf(env, env.second)
  {
    PagesSame(env, env', env.active);
    PagesSame(env, env', env.second);
    assert PagesOf(env', [x] + env.active) == [v] + PagesOf(env', env.active);
    assert PagesOf(env', [x] + env.second) == [v] + PagesOf(env', env.second);
  }

  lemma LoadElements(env: Env, v: Vpn, cap: nat)
    requires env.work != []
    ensures Elements(LoadInsert(env, v, cap)) == Elements(env)
  {
    assert env.work == Lru.Front(env.work) + [Lru.Last(env.work)];
  }

  lemma LoadSecond(a: seq<Vpn>, b: seq<Vpn>, v: Vpn)
    requires Distinct(a + b) && v !in a + b
    ensures Distinct(a + ([v] + b))
    ensures forall u :: u in a + ([v] + b) <==> u in a + b || u == v
  {
    var q, r := a + b, a + ([v] + b);
    assert forall u :: u in q <==> u in a || u in b;
    assert forall u :: u in r <==> u in a || u == v || u in b;
    forall i, j | 0 <= i < j < |r| ensures r[i] != r[j] {
      assert i != |a| ==> r[i] == q[if i < |a| then i else i - 1] && r[i] in q;
      assert j != |a| ==> r[j] == q[if j < |a| then j else j - 1] && r[j] in q;
    }
  }

  /** After the stack page, the discipline of the handler holds. */
  lemma LoadDone(env: Env, v: Vpn)
    requires env.A >= 1 && LoadOk(env, env.A - 1) && env.work != [] && v !in Pages(env)
    ensures var env' := LoadInsert(env, v, env.A);
            && EnvOk(env') && env'.A == env.A && env'.S == env.S && env'.dir == env.dir && env'.ddir == env.ddir
            && ListsOf(env').active == [v] + ListsOf(env).active && ListsOf(env').second == ListsOf(env).second
            && ListsOf(env').nIn == ListsOf(env).nIn && Capacity(env') == env.A + env.S
  {
    hide EnvOk, LoadInsert, Elements, UpTo, PagesOf, ListsOf, Lru.Ok, WorkInOrder, Distinct, Capacity;
    var env', l := LoadInsert(env, v, env.A), ListsOf(env);
    var l' := Lru.Lists([v] + l.active, l.second, env'.nIn);
    LoadShape(env, v, env.A);
    ListLengths(env);
    LoadFields(env, v, env.A);
    LoadCounts(env, env');
    DoneIsOk(l, l', env.A, env.S, v, |env.work|);
    ListsAre(env', l');
    EnvOkFrom(env, env', l');
  }

  lemma ListsAre(env: Env, l: Lru.Lists<Vpn>)
    requires ListsOf(env).active == l.active && ListsOf(env).second == l.second && env.nIn == l.nIn
    ensures ListsOf(env) == l && ListsOf(env).nIn == env.nIn
  {
  }

  lemma LoadCounts(env: Env, env': Env)
    requires Elements(env) == UpTo(env.A + env.S) && Elements(env') == Elements(env)
    requires env'.A == env.A && env'.S == env.S
    ensures |env.work| + |env.active| + |env.second| == env.A + env.S && Capacity(env') == env.A + env.S
    ensures Elements(env') <= UpTo(env.A + env.S)
  {
    hide Elements, UpTo;
    ElementCount(env);
    ElementCount(env');
  }

  lemma DoneIsOk(l: Lru.Lists<Vpn>, l': Lru.Lists<Vpn>, A: nat, S: nat, v: Vpn, free: nat)
    requires A >= 1 && Distinct(l.All()) && v !in l.All() && |l.active| <= A - 1
    requires l.second != [] ==> |l.active| == A - 1
    requires free >= 1 && free + |l.active| + |l.second| == A + S
    requires l'.active == [v] + l.active && l'.second == l.second
    ensures Lru.Ok(l', A, S)
  {
    assert l'.All() == [v] + l.All();
    Lru.DistinctPush(l.All(), v);
  }

  lemma LoadFields(env: Env, v: Vpn, cap: nat)
    requires env.work != []
    ensures var env' := LoadInsert(env, v, cap);
            && env'.A == env.A && env'.S == env.S && env'.dir == env.dir && env'.ddir == env.ddir
            && |env'.va| == |env.va| && |env'.work| == |env.work| - 1
            && env'.nIn == env.nIn && env'.nOut == env.nOut
  {
  }

  lemma ListLengths(env: Env)
    ensures |ListsOf(env).active| == |env.active| && |ListsOf(env).second| == |env.second|
    ensures ListsOf(env).nIn == env.nIn
  {
  }

  /** A resident page is the page of an element of one of the two lists. */
  lemma PageElement(env: Env, v: Vpn)
    requires v in Pages(env)
    ensures exists x :: (x in env.active || x in env.second) && PageAt(env, x) == v
  {
    var l := ListsOf(env);
    if v in l.active {
      var i :| 0 <= i < |l.active| && l.active[i] == v;
      assert env.active[i] in env.active;
    } else {
      var i :| 0 <= i < |l.second| && l.second[i] == v;
      assert env.second[i] in env.second;
    }
  }

  /** The first elements are the ones that hold pages. */
  lemma UsedInLists(env: Env, n: nat, x: nat)
    requires LoadOk(env, n) && x < env.A + env.S - |env.work|
    ensures x in env.active || x in env.second
  {
    hide LoadOk, UpTo;
    NotFree(env, n, x);
    ElementSomewhere(env, n, x);
  }

  lemma NotFree(env: Env, n: nat, x: nat)
    requires LoadOk(env, n) && x < env.A + env.S - |env.work|
    ensures x !in env.work
  {
    hide Elements, Pages, Distinct, UpTo;
    var N := env.A + env.S;
    DownLength(N);
    forall i | 0 <= i < |env.work| ensures env.work[i] != x {
      DownAt(N, i);
    }
  }

  lemma ElementSomewhere(env: Env, n: nat, x: nat)
    requires LoadOk(env, n) && x < env.A + env.S
    ensures x in env.work || x in env.active || x in env.second
  {
    hide Pages, Distinct, WorkInOrder, UpTo;
    UpToCounts(env.A + env.S, x);
    assert x in Elements(env);
  }

  lemma ListedPage(env: Env, x: nat)
    requires x in env.active || x in env.second
    ensures PageAt(env, x) in Pages(env)
  {
    var l := ListsOf(env);
    if x in env.active {
      var i :| 0 <= i < |env.active| && env.active[i] == x;
      assert l.active[i] == PageAt(env, x);
    } else {
      var i :| 0 <= i < |env.second| && env.second[i] == x;
      assert l.second[i] == PageAt(env, x);
    }
  }
}

/** The two-list page replacement of kern/trap.c, on the pages alone: ActiveList, SecondList and
    the number of placements.  A is ActiveListSize and S is SecondListSize. */
module Lru {
  import opened Seqs

  datatype Lists<P> = Lists(active: seq<P>, second: seq<P>, nIn: nat) {
    /** The resident pages, ActiveList first. */
    function All(): seq<P> { active + second }
  }

  /** What every state of the handler satisfies: the lists share no page, neither is over its
      capacity, and SecondList is used only when ActiveList is full. */
  predicate Ok<P(==)>(l: Lists<P>, A: nat, S: nat) {
    && A >= 1 && Distinct(l.All())
    && |l.active| <= A && |l.second| <= S
    && (l.second != [] ==> |l.active| == A)
  }

  function Last<T>(q: seq<T>): T
    requires q != []
  {
    q[|q| - 1]
  }

  function Front<T>(q: seq<T>): seq<T>
    requires q != []
  {
    q[..|q| - 1]
  }

  function Without<P(==)>(q: seq<P>, p: P): seq<P> {
    if q == [] then [] else if q[0] == p then Without(q[1..], p) else [q[0]] + Without(q[1..], p)
  }

  // ---------- the handler ----------

  /** LIST_INSERT_HEAD on ActiveList, its last page going to SecondList if it is full (Placement). */
  function Place<P>(l: Lists<P>, A: nat, p: P): Lists<P>
    requires A >= 1
  {
    if |l.active| < A then Lists([p] + l.active, l.second, l.nIn + 1)
    else Lists([p] + Front(l.active), [Last(l.active)] + l.second, l.nIn + 1)
  }

  /** The page in SecondList changes places with the last page of ActiveList. */
  function Promote<P(==)>(l: Lists<P>, p: P): Lists<P>
    requires l.active != []
  {
    Lists([p] + Front(l.active), [Last(l.active)] + Without(l.second, p), l.nIn)
  }

  /** The victim leaves: the last of SecondList, or of ActiveList when there is no SecondList. */
  function Evict<P>(l: Lists<P>, S: nat): Lists<P>
    requires if S > 0 then l.second != [] else l.active != []
  {
    if S > 0 then l.(second := Front(l.second)) else l.(active := Front(l.active))
  }

  /** page_fault_handler. */
  function Fault<P(==)>(l: Lists<P>, A: nat, S: nat, p: P): Lists<P>
    requires Ok(l, A, S)
  {
    if p in l.second then Promote(l, p)
    else if |l.active| + |l.second| < A + S then Place(l, A, p)
    else Place(Evict(l, S), A, p)
  }

  /** A reference: pages of ActiveList are PRESENT and do not fault. */
  function Access<P(==)>(l: Lists<P>, A: nat, S: nat, p: P): Lists<P>
    requires Ok(l, A, S)
  {
    if p in l.active then l else Fault(l, A, S, p)
  }

  // ---------- one move-to-front list ----------

  /** Move p to the front of q, or push it, and keep the first cap pages. */
  function MoveToFront<P(==)>(q: seq<P>, cap: nat, p: P): seq<P> {
    Take([p] + Without(q, p), cap)
  }

  lemma {:induction false} WithoutAbsent<P>(q: seq<P>, p: P)
    requires p !in q
    ensures Without(q, p) == q
  {
    if q != [] {
      WithoutAbsent(q[1..], p);
    }
  }

  lemma {:induction false} WithoutConcat<P>(q: seq<P>, r: seq<P>, p: P)
    ensures Without(q + r, p) == Without(q, p) + Without(r, p)
  {
    if q == [] {
      assert q + r == r;
    } else {
      assert (q + r)[1..] == q[1..] + r;
      WithoutConcat(q[1..], r, p);
    }
  }

  /** Where an element stands once, removing it there is removing it. */
  lemma WithoutIndex<P>(q: seq<P>, i: nat)
    requires Distinct(q) && i < |q|
    ensures Without(q, q[i]) == q[..i] + q[i + 1..]
  {
    hide Distinct;
    var p, a, b := q[i], q[..i], q[i + 1..];
    assert q == a + ([p] + b);
    DistinctAppend(a, [p] + b);
    DistinctAppend([p], b);
    assert p in [p] && p in [p] + b;
    WithoutConcat(a, [p] + b, p);
    WithoutConcat([p], b, p);
    WithoutAbsent(a, p);
    WithoutAbsent(b, p);
    assert Without([p], p) == [];
  }

  lemma {:induction false} WithoutMembers<P>(q: seq<P>, p: P)
    ensures forall x :: x in Without(q, p) <==> x in q && x != p
    ensures |Without(q, p)| <= |q|
  {
    if q != [] {
      WithoutMembers(q[1..], p);
      assert forall x :: x in q <==> x == q[0] || x in q[1..];
      var r := Without(q[1..], p);
      assert forall x :: x in [q[0]] + r <==> x == q[0] || x in r;
    }
  }

  lemma {:induction false} WithoutDistinct<P>(q: seq<P>, p: P)
    requires Distinct(q)
    ensures Distinct(Without(q, p))
  {
    if q != [] {
      var t := q[1..];
      assert forall k :: 0 <= k < |t| ==> t[k] == q[k + 1];
      WithoutDistinct(t, p);
      WithoutMembers(t, p);
      assert q[0] !in t;
      if q[0] != p {
        DistinctPush(Without(t, p), q[0]);
      }
    }
  }

  /** Removing a page that is there shortens a list without duplicates by one. */
  lemma {:induction false} WithoutLength<P>(q: seq<P>, p: P)
    requires Distinct(q) && p in q
    ensures |Without(q, p)| == |q| - 1
  {
    var t := q[1..];
    assert forall k :: 0 <= k < |t| ==> t[k] == q[k + 1];
    if q[0] == p {
      assert p !in t;
      WithoutAbsent(t, p);
    } else {
      WithoutLength(t, p);
    }
  }

  lemma DistinctAppend<P>(q: seq<P>, r: seq<P>)
    requires Distinct(q + r)
    ensures Distinct(q) && Distinct(r) && forall x :: x in q ==> x !in r
  {
    var s := q + r;
    forall i, j | 0 <= i < j < |q| ensures q[i] != q[j] { assert s[i] == q[i] && s[j] == q[j]; }
    forall i, j | 0 <= i < j < |r| ensures r[i] != r[j] { assert s[|q| + i] == r[i] && s[|q| + j] == r[j]; }
    forall i, j | 0 <= i < |q| && 0 <= j < |r| ensures q[i] != r[j] { assert s[i] == q[i] && s[|q| + j] == r[j]; }
  }

  lemma DistinctPush<P>(q: seq<P>, p: P)
    requires Distinct(q) && p !in q
    ensures Distinct([p] + q)
  {
  }

  /** The two lists are one move-to-front list: a fault moves the page to the front or pushes it
      there, the victim is the last page, and ActiveList is always the first A pages. */
  lemma FaultIsMoveToFront<P>(l: Lists<P>, A: nat, S: nat, p: P)
    requires Ok(l, A, S) && p !in l.active
    ensures var l' := Fault(l, A, S, p);
            && l'.All() == MoveToFront(l.All(), A + S, p)
            && l'.active == Take(l'.All(), A)
            && l'.nIn == l.nIn + (if p in l.All() then 0 else 1)
            && Ok(l', A, S)
  {
    var l' := Fault(l, A, S, p);
    DistinctAppend(l.active, l.second);
    WithoutAbsent(l.active, p);
    WithoutConcat(l.active, l.second, p);
    FaultLists(l, A, S, p);
    WithoutDistinct(l.All(), p);
    WithoutMembers(l.All(), p);
    DistinctPush(Without(l.All(), p), p);
    TakeDistinct([p] + Without(l.All(), p), A + S);
  }

  /** The lists after a fault, element by element. */
  lemma FaultLists<P>(l: Lists<P>, A: nat, S: nat, p: P)
    requires Ok(l, A, S) && p !in l.active
    ensures var l' := Fault(l, A, S, p);
            && l'.All() == Take([p] + (l.active + Without(l.second, p)), A + S)
            && l'.active == Take(l'.All(), A)
            && |l'.active| <= A && |l'.second| <= S && (l'.second != [] ==> |l'.active| == A)
  {
    var l' := Fault(l, A, S, p);
    DistinctAppend(l.active, l.second);
    if p in l.second {
      WithoutLength(l.second, p);
      hide Distinct, Without;
      PromoteLists(l, A, S, p);
    } else {
      WithoutAbsent(l.second, p);
      hide Distinct, Without;
      if |l.active| + |l.second| < A + S {
        PlaceLists(l, A, S, p);
      } else {
        EvictLists(l, A, S, p);
      }
    }
    assert l'.active == Take(l'.All(), A);
  }

  lemma PromoteLists<P>(l: Lists<P>, A: nat, S: nat, p: P)
    requires |l.active| == A >= 1 && |l.second| <= S && |Without(l.second, p)| == |l.second| - 1
    ensures var l' := Promote(l, p);
            && l'.All() == Take([p] + (l.active + Without(l.second, p)), A + S)
            && |l'.active| == A && |l'.second| <= S
  {
    assert l.active == Front(l.active) + [Last(l.active)];
    assert Promote(l, p).All() == [p] + (l.active + Without(l.second, p));
  }

  lemma PlaceLists<P>(l: Lists<P>, A: nat, S: nat, p: P)
    requires A >= 1 && |l.active| <= A && (l.second != [] ==> |l.active| == A) && |l.active| + |l.second| < A + S
    ensures var l' := Place(l, A, p);
            && l'.All() == Take([p] + (l.active + l.second), A + S)
            && |l'.active| <= A && |l'.second| <= S && (l'.second != [] ==> |l'.active| == A)
  {
    if |l.active| == A {
      assert l.active == Front(l.active) + [Last(l.active)];
    }
    assert Place(l, A, p).All() == [p] + (l.active + l.second);
  }

  lemma EvictLists<P>(l: Lists<P>, A: nat, S: nat, p: P)
    requires Ok(l, A, S) && |l.active| + |l.second| >= A + S
    ensures Place(Evict(l, S), A, p).All() == Take([p] + (l.active + l.second), A + S)
  {
    var e := Evict(l, S);
    assert e.All() == Front(l.All());
    if |e.active| == A {
      assert e.active == Front(e.active) + [Last(e.active)];
    }
    assert Place(e, A, p).All() == [p] + e.All();
    assert [p] + Front(l.All()) == ([p] + l.All())[..A + S];
  }

  lemma TakeDistinct<P>(q: seq<P>, n: nat)
    requires Distinct(q)
    ensures Distinct(Take(q, n))
  {
  }

  // ---------- runs ----------

  /** The lists after a reference string. */
  function Run<P(==)>(l: Lists<P>, A: nat, S: nat, refs: seq<P>): (r: Lists<P>)
    requires Ok(l, A, S)
    ensures Ok(r, A, S)
  {
    if refs == [] then l
    else
      var m := Run(l, A, S, Front(refs));
      AccessOk(m, A, S, Last(refs));
      Access(m, A, S, Last(refs))
  }

  lemma AccessOk<P>(l: Lists<P>, A: nat, S: nat, p: P)
    requires Ok(l, A, S)
    ensures Ok(Access(l, A, S, p), A, S)
  {
    if p !in l.active {
      FaultIsMoveToFront(l, A, S, p);
    }
  }

  function Empty<P>(): Lists<P> { Lists([], [], 0) }

  lemma {:induction false} TakeWithout<P>(q: seq<P>, n: nat, p: P)
    requires p !in Take(q, n)
    ensures Take(Without(q, p), n) == Take(q, n)
  {
    if |q| <= n {
      WithoutAbsent(q, p);
    } else {
      assert q == q[..n] + q[n..];
      WithoutConcat(q[..n], q[n..], p);
      WithoutAbsent(q[..n], p);
      assert Without(q, p)[..n] == q[..n];
    }
  }

  /** Truncating before or after moving to the front is the same. */
  lemma TakeMoveToFront<P>(q: seq<P>, c1: nat, c2: nat, p: P)
    requires 1 <= c1 <= c2 && Distinct(q) && |q| <= c2
    ensures MoveToFront(Take(q, c1), c1, p) == Take(MoveToFront(q, c2, p), c1)
  {
    var t := Take(q, c1);
    if p in t {
      var r := q[|t|..];
      assert q == t + r;
      DistinctAppend(t, r);
      WithoutConcat(t, r, p);
      WithoutAbsent(r, p);
      WithoutLength(t, p);
      assert [p] + Without(q, p) == [p] + Without(t, p) + r;
    } else {
      WithoutAbsent(t, p);
      TakeWithout(q, c1, p);
      assert Take(Without(q, p), c1) == t;
      assert Take([p] + t, c1) == Take([p] + Without(q, p), c1);
    }
  }

  /** l1, with the smaller second list, keeps a prefix of what l2 keeps, their active lists are the
      same, and l2 has placed no more pages. */
  ghost predicate Within<P>(l1: Lists<P>, l2: Lists<P>, n: nat) {
    && l1.All() == Take(l2.All(), n) && l1.active == l2.active && l2.nIn <= l1.nIn
    && (forall p :: p in l1.All() ==> p in l2.All())
  }

  /** No Belady anomaly in SecondListSize: with the same ActiveListSize and the same references, lists
      that start one within the other stay so. */
  lemma {:induction false} NoBeladyFrom<P>(m1: Lists<P>, m2: Lists<P>, A: nat, S1: nat, S2: nat, refs: seq<P>)
    requires Ok(m1, A, S1) && Ok(m2, A, S2) && S1 <= S2 && Within(m1, m2, A + S1)
    ensures Within(Run(m1, A, S1, refs), Run(m2, A, S2, refs), A + S1)
  {
    if refs != [] {
      NoBeladyFrom(m1, m2, A, S1, S2, Front(refs));
      SameActive(Run(m1, A, S1, Front(refs)), Run(m2, A, S2, Front(refs)), A, S1, S2, Last(refs));
    }
    TakeMembers(Run(m2, A, S2, refs).All(), A + S1);
  }

  /** In particular lists that start empty: the resident set with a smaller second list is contained in
      that with a larger one, and the number of placements never grows with the size. */
  lemma NoBelady<P>(A: nat, S1: nat, S2: nat, refs: seq<P>)
    requires A >= 1 && S1 <= S2
    ensures Within(Run(Empty<P>(), A, S1, refs), Run(Empty<P>(), A, S2, refs), A + S1)
  {
    NoBeladyFrom(Empty<P>(), Empty<P>(), A, S1, S2, refs);
  }

  // ---------- lists seeded differently ----------

  /** a is b with some elements left out. */
  predicate Sub<P(==)>(a: seq<P>, b: seq<P>) {
    if a == [] then true
    else if b == [] then false
    else if a[0] == b[0] then Sub(a[1..], b[1..])
    else Sub(a, b[1..])
  }

  /** l1, with room for n pages, and l2, with more: the active lists are the same, l1's second list is l2's
      with some pages left out, none unless l1 is full, and l2 has placed no more pages. */
  ghost predicate Nested<P>(l1: Lists<P>, l2: Lists<P>, n: nat) {
    && l1.active == l2.active && Sub(l1.second, l2.second)
    && (|l1.active| + |l1.second| == n || l1.second == l2.second)
    && l2.nIn <= l1.nIn
  }

  lemma {:induction false} SubRefl<P>(a: seq<P>)
    ensures Sub(a, a)
  {
    if a != [] {
      SubRefl(a[1..]);
    }
  }

  lemma {:induction false} SubMembers<P>(a: seq<P>, b: seq<P>)
    requires Sub(a, b)
    ensures |a| <= |b| && forall x :: x in a ==> x in b
  {
    if a != [] {
      assert a == [a[0]] + a[1..] && b == [b[0]] + b[1..];
      if a[0] == b[0] {
        SubMembers(a[1..], b[1..]);
      } else {
        SubMembers(a, b[1..]);
      }
    }
  }

  lemma SubPush<P>(z: P, a: seq<P>, b: seq<P>)
    requires Sub(a, b)
    ensures Sub([z] + a, [z] + b)
  {
    assert ([z] + a)[1..] == a && ([z] + b)[1..] == b;
  }

  lemma {:induction false} SubSkip<P>(z: P, a: seq<P>, b: seq<P>)
    requires Sub(a, b)
    ensures Sub(a, [z] + b)
    decreases |b|, 1
  {
    assert ([z] + b)[1..] == b;
    if a != [] && a[0] == z {
      SubTail(a, b);
    }
  }

  lemma {:induction false} SubTail<P>(a: seq<P>, b: seq<P>)
    requires Sub(a, b) && a != []
    ensures Sub(a[1..], b)
    decreases |b|, 0
  {
    if a[0] == b[0] {
      assert b == [b[0]] + b[1..];
      SubSkip(b[0], a[1..], b[1..]);
    } else {
      SubTail(a, b[1..]);
      assert b == [b[0]] + b[1..];
      SubSkip(b[0], a[1..], b[1..]);
    }
  }

  lemma {:induction false} SubFront<P>(a: seq<P>, b: seq<P>)
    requires Sub(a, b) && a != []
    ensures b != [] && Sub(Front(a), b) && Sub(Front(a), Front(b))
  {
    if |a| > 1 || a[0] != b[0] {
      var b' := b[1..];
      if a[0] == b[0] {
        SubFront(a[1..], b');
        assert Front(a)[0] == a[0] && Front(a)[1..] == Front(a[1..]);
      } else {
        SubFront(a, b');
      }
      assert Front(b)[0] == b[0] && Front(b)[1..] == Front(b');
    }
  }

  lemma WithoutHead<P>(q: seq<P>, p: P)
    requires q != []
    ensures Without(q, p) == (if q[0] == p then [] else [q[0]]) + Without(q[1..], p)
  {
    assert q == [q[0]] + q[1..];
    WithoutConcat([q[0]], q[1..], p);
    if q[0] != p {
      WithoutAbsent([q[0]], p);
    } else {
      assert Without([p], p) == [];
    }
  }

  lemma {:induction false} SubWithout<P>(a: seq<P>, b: seq<P>, p: P)
    requires Sub(a, b)
    ensures Sub(Without(a, p), Without(b, p))
  {
    if a != [] {
      WithoutHead(b, p);
      if a[0] == b[0] {
        WithoutHead(a, p);
        SubWithout(a[1..], b[1..], p);
        if a[0] != p {
          SubPush(a[0], Without(a[1..], p), Without(b[1..], p));
        }
      } else {
        SubWithout(a, b[1..], p);
        if b[0] != p {
          SubSkip(b[0], Without(a, p), Without(b[1..], p));
        }
      }
    } else {
      WithoutAbsent(a, p);
    }
  }

  /** One reference keeps the lists nested. */
  lemma NestedStep<P>(m1: Lists<P>, m2: Lists<P>, A: nat, S1: nat, S2: nat, p: P)
    requires Ok(m1, A, S1) && Ok(m2, A, S2) && S1 <= S2 && Nested(m1, m2, A + S1)
    ensures Nested(Access(m1, A, S1, p), Access(m2, A, S2, p), A + S1)
  {
    if p !in m1.active {
      SubMembers(m1.second, m2.second);
      if p in m2.second {
        PromoteNested(m1, m2, A, S1, S2, p);
      } else {
        PlaceNested(m1, m2, A, S1, S2, p);
      }
    }
  }

  lemma PromoteNested<P>(m1: Lists<P>, m2: Lists<P>, A: nat, S1: nat, S2: nat, p: P)
    requires Ok(m1, A, S1) && Ok(m2, A, S2) && S1 <= S2 && Nested(m1, m2, A + S1)
    requires p !in m1.active && p in m2.second
    ensures Nested(Fault(m1, A, S1, p), Fault(m2, A, S2, p), A + S1)
  {
    SubWithout(m1.second, m2.second, p);
    var z := Last(m1.active);
    if p in m1.second {
      DistinctAppend(m1.active, m1.second);
      WithoutLength(m1.second, p);
      hide Without, Sub, Distinct;
      SubPush(z, Without(m1.second, p), Without(m2.second, p));
    } else {
      WithoutAbsent(m1.second, p);
      hide Without, Distinct;
      if S1 > 0 {
        SubFront(m1.second, Without(m2.second, p));
        hide Sub;
        SubPush(z, Front(m1.second), Without(m2.second, p));
      }
    }
  }

  lemma PlaceNested<P>(m1: Lists<P>, m2: Lists<P>, A: nat, S1: nat, S2: nat, p: P)
    requires Ok(m1, A, S1) && Ok(m2, A, S2) && S1 <= S2 && Nested(m1, m2, A + S1)
    requires p !in m1.active && p !in m1.second && p !in m2.second
    ensures Nested(Fault(m1, A, S1, p), Fault(m2, A, S2, p), A + S1)
  {
    hide Distinct;
    if |m1.active| + |m1.second| < A + S1 {
      SubRefl(Place(m1, A, p).second);
    } else if S1 > 0 {
      var z := Last(m1.active);
      SubFront(m1.second, m2.second);
      hide Sub;
      SubPush(z, Front(m1.second), m2.second);
      SubPush(z, Front(m1.second), Front(m2.second));
    }
  }

  /** No Belady anomaly for nested lists, whatever was in them at the start. */
  lemma {:induction false} NestedRun<P>(m1: Lists<P>, m2: Lists<P>, A: nat, S1: nat, S2: nat, refs: seq<P>)
    requires Ok(m1, A, S1) && Ok(m2, A, S2) && S1 <= S2 && Nested(m1, m2, A + S1)
    ensures Nested(Run(m1, A, S1, refs), Run(m2, A, S2, refs), A + S1)
  {
    if refs != [] {
      hide Nested;
      NestedRun(m1, m2, A, S1, S2, Front(refs));
      NestedStep(Run(m1, A, S1, Front(refs)), Run(m2, A, S2, Front(refs)), A, S1, S2, Last(refs));
    }
  }

  /** Nested lists: what the smaller one keeps the larger one keeps, too. */
  lemma NestedContained<P>(l1: Lists<P>, l2: Lists<P>, n: nat)
    requires Nested(l1, l2, n)
    ensures l1.active == l2.active && l2.nIn <= l1.nIn && forall p :: p in l1.All() ==> p in l2.All()
  {
    SubMembers(l1.second, l2.second);
  }

  // ---------- seeding at load time ----------

  /** A loaded page goes to ActiveList while that holds fewer than cap pages, else to SecondList. */
  function Load<P>(l: Lists<P>, cap: nat, p: P): Lists<P> {
    if |l.active| < cap then l.(active := [p] + l.active) else l.(second := [p] + l.second)
  }

  /** The lists after loading some pages, in order. */
  function Loaded<P>(ps: seq<P>, cap: nat): Lists<P> {
    if ps == [] then Empty() else Load(Loaded(Front(ps), cap), cap, Last(ps))
  }

  lemma {:induction false} LoadedSizes<P>(ps: seq<P>, cap: nat)
    ensures var l := Loaded(ps, cap);
            && |l.active| + |l.second| == |ps| && |l.active| == (if |ps| < cap then |ps| else cap) && l.nIn == 0
  {
    if ps != [] {
      LoadedSizes(Front(ps), cap);
    }
  }

  /** How many of the references are to pages that are not resident when their turn comes. */
  function Missed<P(==)>(l: Lists<P>, A: nat, S: nat, refs: seq<P>): nat
    requires Ok(l, A, S)
  {
    if refs == [] then 0
    else Missed(l, A, S, Front(refs)) + if Last(refs) in Run(l, A, S, Front(refs)).All() then 0 else 1
  }

  /** Each of them is placed once, and nothing else is. */
  lemma {:induction false} PlacedOnce<P>(l: Lists<P>, A: nat, S: nat, refs: seq<P>)
    requires Ok(l, A, S)
    ensures Run(l, A, S, refs).nIn == l.nIn + Missed(l, A, S, refs)
  {
    if refs != [] {
      PlacedOnce(l, A, S, Front(refs));
      var m, p := Run(l, A, S, Front(refs)), Last(refs);
      assert p in m.All() <==> p in m.active || p in m.second;
    }
  }

  /** The first cap pages loaded are in ActiveList, all others in SecondList, each list newest first. */
  lemma {:induction false} LoadedAt<P>(ps: seq<P>, cap: nat, i: nat)
    requires i < |ps|
    ensures var l, n := Loaded(ps, cap), if |ps| < cap then |ps| else cap;
            && |l.active| == n && |l.second| == |ps| - n
            && if i < cap then l.active[n - 1 - i] == ps[i] else l.second[|ps| - 1 - i] == ps[i]
  {
    LoadedSizes(ps, cap);
    LoadedSizes(Front(ps), cap);
    if i < |ps| - 1 {
      LoadedAt(Front(ps), cap, i);
      assert Front(ps)[i] == ps[i];
    }
  }

  /** The lists after loading a program with room for n pages, and with more room, and then p. */
  lemma SeededNested<P>(ps1: seq<P>, ps2: seq<P>, A: nat, n: nat, p: P)
    requires 1 <= A <= n && |ps1| <= |ps2| && ps1 == ps2[..|ps1|] && (|ps1| < |ps2| ==> |ps1| == n - 1)
    ensures var l1, l2 := Load(Loaded(ps1, A - 1), A, p), Load(Loaded(ps2, A - 1), A, p);
            Nested(l1, l2, n) && l1.nIn == 0 && l2.nIn == 0
  {
    hide Loaded, Sub;
    LoadedSizes(ps1, A - 1);
    LoadedSizes(ps2, A - 1);
    if |ps1| < |ps2| {
      LoadedNested(ps2, |ps1|, A - 1);
    } else {
      assert ps1 == ps2;
      SubRefl(Loaded(ps1, A - 1).second);
    }
  }

  /** Loading more pages once ActiveList is full only adds to SecondList. */
  lemma {:induction false} LoadedNested<P>(ps: seq<P>, n: nat, cap: nat)
    requires cap <= n <= |ps|
    ensures Loaded(ps[..n], cap).active == Loaded(ps, cap).active
    ensures Sub(Loaded(ps[..n], cap).second, Loaded(ps, cap).second)
  {
    if n == |ps| {
      assert ps[..n] == ps;
      SubRefl(Loaded(ps, cap).second);
    } else {
      assert Front(ps)[..n] == ps[..n];
      LoadedNested(Front(ps), n, cap);
      LoadedSizes(Front(ps), cap);
      SubSkip(Last(ps), Loaded(ps[..n], cap).second, Loaded(Front(ps), cap).second);
    }
  }

  lemma SameActive<P>(m1: Lists<P>, m2: Lists<P>, A: nat, S1: nat, S2: nat, p: P)
    requires S1 <= S2 && Ok(m1, A, S1) && Ok(m2, A, S2)
    requires m1.All() == Take(m2.All(), A + S1) && m1.active == m2.active && m2.nIn <= m1.nIn
    ensures var l1, l2 := Access(m1, A, S1, p), Access(m2, A, S2, p);
            l1.All() == Take(l2.All(), A + S1) && l1.active == l2.active && l2.nIn <= l1.nIn
  {
    if p !in m1.active {
      FaultIsMoveToFront(m1, A, S1, p);
      FaultIsMoveToFront(m2, A, S2, p);
      SameFront(m1, m2, Fault(m1, A, S1, p), Fault(m2, A, S2, p), A, S1, S2, p);
    }
  }

  lemma SameFront<P>(m1: Lists<P>, m2: Lists<P>, l1: Lists<P>, l2: Lists<P>, A: nat, S1: nat, S2: nat, p: P)
    requires A >= 1 && S1 <= S2 && Distinct(m2.All()) && |m2.All()| <= A + S2 && m2.nIn <= m1.nIn
    requires m1.All() == Take(m2.All(), A + S1)
    requires l1.All() == MoveToFront(m1.All(), A + S1, p) && l1.active == Take(l1.All(), A)
    requires l2.All() == MoveToFront(m2.All(), A + S2, p) && l2.active == Take(l2.All(), A)
    requires l1.nIn == m1.nIn + (if p in m1.All() then 0 else 1) && l2.nIn == m2.nIn + (if p in m2.All() then 0 else 1)
    ensures l1.All() == Take(l2.All(), A + S1) && l1.active == l2.active && l2.nIn <= l1.nIn
  {
    TakeMoveToFront(m2.All(), A + S1, A + S2, p);
    TakeTake(l2.All(), A, A + S1);
    TakeMembers(m2.All(), A + S1);
  }

  lemma TakeMembers<P>(q: seq<P>, n: nat)
    ensures forall x :: x in Take(q, n) ==> x in q
  {
  }

  lemma TakeTake<P>(q: seq<P>, a: nat, b: nat)
    requires a <= b
    ensures Take(Take(q, b), a) == Take(q, a)
  {
  }

  // ---------- the order of the list is the order of the last faults ----------

  /** The references that fault. */
  function Faults<P(==)>(l: Lists<P>, A: nat, S: nat, refs: seq<P>): seq<P>
    requires Ok(l, A, S)
  {
    if refs == [] then []
    else
      var p := Last(refs);
      Faults(l, A, S, Front(refs)) + if p in Run(l, A, S, Front(refs)).active then [] else [p]
  }

  /** The time of the last fault on p, -1 if there was none. */
  function LastFault<P(==)>(faults: seq<P>, p: P): int {
    if faults == [] then -1
    else if Last(faults) == p then |faults| - 1
    else LastFault(Front(faults), p)
  }

  lemma {:induction false} LastFaultBound<P>(faults: seq<P>, p: P)
    ensures -1 <= LastFault(faults, p) < |faults|
    ensures p in faults <==> LastFault(faults, p) >= 0
  {
    if faults != [] {
      LastFaultBound(Front(faults), p);
      assert faults == Front(faults) + [Last(faults)];
    }
  }

  lemma LastFaultPush<P>(faults: seq<P>, p: P, x: P)
    ensures LastFault(faults + [p], x) == if x == p then |faults| else LastFault(faults, x)
  {
    assert Front(faults + [p]) == faults;
  }

  /** q lists its pages newest first by the time t, and everything not in q is older than everything in q. */
  ghost predicate NewestFirst<P(!new)>(q: seq<P>, t: P -> int) {
    && (forall i, j :: 0 <= i < j < |q| ==> t(q[i]) > t(q[j]))
    && (forall x, y :: x !in q && y in q ==> t(x) < t(y))
  }

  /** Where p stands in q, |q| if nowhere. */
  function Position<P(==)>(q: seq<P>, p: P): nat {
    if q == [] || q[0] == p then 0 else 1 + Position(q[1..], p)
  }

  /** The time of the last fault on each page.  Pages that have not faulted since come before time 0: the
      ones resident at the start in the order they had then, and all others before those. */
  ghost function Times<P(!new)>(start: seq<P>, faults: seq<P>): P -> int {
    p => if LastFault(faults, p) >= 0 then LastFault(faults, p) else -1 - Position(start, p)
  }

  lemma {:induction false} PositionOf<P>(q: seq<P>, i: nat)
    requires Distinct(q) && i < |q|
    ensures Position(q, q[i]) == i
  {
    if i > 0 {
      var r := q[1..];
      assert forall j :: 0 <= j < |r| ==> r[j] == q[j + 1];
      PositionOf(r, i - 1);
    }
  }

  lemma {:induction false} PositionAbsent<P>(q: seq<P>, p: P)
    requires p !in q
    ensures Position(q, p) == |q|
  {
    if q != [] {
      PositionAbsent(q[1..], p);
    }
  }

  /** At the start the order is the one of the list. */
  lemma StartNewest<P(!new)>(q: seq<P>)
    requires Distinct(q)
    ensures NewestFirst(q, Times(q, []))
  {
    forall i | 0 <= i < |q| ensures Position(q, q[i]) == i {
      PositionOf(q, i);
    }
    forall x | x !in q ensures Position(q, x) == |q| {
      PositionAbsent(q, x);
    }
  }

  lemma {:induction false} WithoutNewest<P(!new)>(q: seq<P>, p: P, t: P -> int)
    requires forall i, j :: 0 <= i < j < |q| ==> t(q[i]) > t(q[j])
    ensures var r := Without(q, p); forall i, j :: 0 <= i < j < |r| ==> t(r[i]) > t(r[j])
  {
    if q != [] {
      var s, r := q[1..], Without(q, p);
      assert forall k :: 0 <= k < |s| ==> s[k] == q[k + 1];
      WithoutNewest(s, p, t);
      WithoutMembers(s, p);
      if q[0] != p {
        var w := Without(s, p);
        assert forall k :: 0 < k < |r| ==> r[k] == w[k - 1];
        forall k | 0 <= k < |w| ensures t(q[0]) > t(w[k]) {
          assert w[k] in w;
          var m :| 0 <= m < |s| && s[m] == w[k];
        }
      }
    }
  }

  /** Moving p to the front at time n keeps the order. */
  lemma PushNewest<P(!new)>(q: seq<P>, p: P, t: P -> int, t': P -> int, n: int)
    requires NewestFirst(q, t) && t'(p) == n
    requires forall x :: x != p ==> t'(x) == t(x) < n
    ensures NewestFirst([p] + Without(q, p), t')
  {
    WithoutMembers(q, p);
    WithoutNewest(q, p, t);
    PushFront(q, Without(q, p), p, t, t', n);
  }

  lemma PushFront<P(!new)>(q: seq<P>, w: seq<P>, p: P, t: P -> int, t': P -> int, n: int)
    requires NewestFirst(q, t) && t'(p) == n
    requires forall x :: x != p ==> t'(x) == t(x) < n
    requires forall x :: x in w <==> x in q && x != p
    requires forall i, j :: 0 <= i < j < |w| ==> t(w[i]) > t(w[j])
    ensures NewestFirst([p] + w, t')
  {
    var r := [p] + w;
    assert forall x :: x in r <==> x == p || x in w;
    forall i, j | 0 <= i < j < |r| ensures t'(r[i]) > t'(r[j]) {
      assert r[j] == w[j - 1] && w[j - 1] in w;
      if i > 0 {
        assert r[i] == w[i - 1] && w[i - 1] in w;
      }
    }
  }

  lemma TakeNewest<P(!new)>(r: seq<P>, n: nat, t: P -> int)
    requires NewestFirst(r, t)
    ensures NewestFirst(Take(r, n), t)
  {
    var q := Take(r, n);
    assert forall i :: 0 <= i < |q| ==> q[i] == r[i] && r[i] in q;
    TakeMembers(r, n);
    forall x, y | x !in q && y in q ensures t(x) < t(y) {
      var i :| 0 <= i < |q| && q[i] == y;
      if x in r {
        var k :| 0 <= k < |r| && r[k] == x;
      }
    }
  }

  lemma PushTimes<P(!new)>(start: seq<P>, faults: seq<P>, p: P)
    ensures Times(start, faults + [p])(p) == |faults|
    ensures forall x :: x != p ==> Times(start, faults + [p])(x) == Times(start, faults)(x) < |faults|
  {
    LastFaultPush(faults, p, p);
    forall x | x != p ensures Times(start, faults + [p])(x) == Times(start, faults)(x) < |faults| {
      LastFaultPush(faults, p, x);
      LastFaultBound(faults, x);
    }
  }

  /** Over every reference string and from every start: the resident pages are those that faulted last, in
      order of their last fault, pages that have not faulted since the start following in the order they had. */
  lemma {:induction false} ResidentByLastFault<P(!new)>(l: Lists<P>, A: nat, S: nat, refs: seq<P>)
    requires Ok(l, A, S)
    ensures NewestFirst(Run(l, A, S, refs).All(), Times(l.All(), Faults(l, A, S, refs)))
  {
    hide NewestFirst, Times;
    if refs == [] {
      StartNewest(l.All());
    } else {
      var p, f := Last(refs), Faults(l, A, S, Front(refs));
      ResidentByLastFault(l, A, S, Front(refs));
      hide Fault, Ok;
      if p in Run(l, A, S, Front(refs)).active {
        assert Faults(l, A, S, refs) == f + [] == f;
      } else {
        FaultNewest(Run(l, A, S, Front(refs)), A, S, l.All(), f, p);
      }
    }
  }

  /** One fault makes its page the newest. */
  lemma FaultNewest<P(!new)>(m: Lists<P>, A: nat, S: nat, q: seq<P>, f: seq<P>, p: P)
    requires Ok(m, A, S) && p !in m.active && NewestFirst(m.All(), Times(q, f))
    ensures NewestFirst(Fault(m, A, S, p).All(), Times(q, f + [p]))
  {
    hide NewestFirst, Times, Fault;
    FaultIsMoveToFront(m, A, S, p);
    PushTimes(q, f, p);
    PushNewest(m.All(), p, Times(q, f), Times(q, f + [p]), |f|);
    TakeNewest([p] + Without(m.All(), p), A + S, Times(q, f + [p]));
  }

  /** From empty lists the time is that of the last fault and nothing else. */
  lemma ResidentFromEmpty<P(!new)>(A: nat, S: nat, refs: seq<P>)
    requires A >= 1
    ensures NewestFirst(Run(Empty<P>(), A, S, refs).All(), Times([], Faults(Empty<P>(), A, S, refs)))
    ensures forall p :: Times([], Faults(Empty<P>(), A, S, refs))(p) == LastFault(Faults(Empty<P>(), A, S, refs), p)
  {
    ResidentByLastFault(Empty<P>(), A, S, refs);
    forall p ensures Times([], Faults(Empty<P>(), A, S, refs))(p) == LastFault(Faults(Empty<P>(), A, S, refs), p) {
      LastFaultBound(Faults(Empty<P>(), A, S, refs), p);
    }
  }

  /** The page a fault evicts is the one whose last fault is the oldest of all resident pages. */
  lemma VictimIsOldest<P(!new)>(l: Lists<P>, A: nat, S: nat, refs: seq<P>, p: P)
    requires Ok(l, A, S)
    requires var m := Run(l, A, S, refs); p !in m.All() && |m.All()| == A + S
    ensures EvictsOldest(Run(l, A, S, refs), A, S, p, Times(l.All(), Faults(l, A, S, refs)))
  {
    ResidentByLastFault(l, A, S, refs);
    OldestEvicted(Run(l, A, S, refs), A, S, p, Times(l.All(), Faults(l, A, S, refs)));
  }

  /** The fault on p drops the last page of the list and no other, and that page is the oldest by t. */
  ghost predicate EvictsOldest<P(!new)>(m: Lists<P>, A: nat, S: nat, p: P, t: P -> int) {
    && Ok(m, A, S) && m.All() != []
    && Fault(m, A, S, p).All() == [p] + Front(m.All()) && Last(m.All()) !in Fault(m, A, S, p).All()
    && forall y :: y in m.All() && y != Last(m.All()) ==> t(Last(m.All())) < t(y)
  }

  lemma OldestEvicted<P(!new)>(m: Lists<P>, A: nat, S: nat, p: P, t: P -> int)
    requires Ok(m, A, S) && NewestFirst(m.All(), t) && p !in m.All() && |m.All()| == A + S
    ensures EvictsOldest(m, A, S, p, t)
  {
    FullFault(m, A, S, p);
    hide Fault, Take;
    LastIsOldest(m.All(), t, p);
  }

  lemma FullFault<P>(m: Lists<P>, A: nat, S: nat, p: P)
    requires Ok(m, A, S) && p !in m.All() && |m.All()| == A + S
    ensures Fault(m, A, S, p).All() == [p] + Front(m.All())
  {
    assert forall x :: x in m.active ==> x in m.All();
    WithoutAbsent(m.All(), p);
    FaultIsMoveToFront(m, A, S, p);
    hide *;
    TakeAll(m.All(), p, A + S);
  }

  lemma TakeAll<P>(q: seq<P>, p: P, n: nat)
    requires |q| == n && n > 0
    ensures Take([p] + q, n) == [p] + Front(q)
  {
  }

  lemma LastIsOldest<P(!new)>(q: seq<P>, t: P -> int, p: P)
    requires q != [] && Distinct(q) && NewestFirst(q, t) && p !in q
    ensures Last(q) !in [p] + Front(q) && forall y :: y in q && y != Last(q) ==> t(Last(q)) < t(y)
  {
    assert Last(q) == q[|q| - 1] && Last(q) in q;
  }

  // ---------- freeMem ----------

  /** What freeMem does with one page: a page of ActiveList is unlinked and the head of SecondList
      takes the place at the tail; a page of SecondList is unlinked.  SecondList is searched from
      inside the loop over ActiveList, so not at all if that is empty. */
  function Forget<P(==)>(l: Lists<P>, p: P): Lists<P> {
    if p in l.active then
      if l.second == [] then l.(active := Without(l.active, p))
      else l.(active := Without(l.active, p) + [l.second[0]], second := l.second[1..])
    else if l.active != [] then l.(second := Without(l.second, p))
    else l
  }

  /** freeMem deletes the page from the one list, keeping the order and the split. */
  lemma ForgetDeletes<P>(l: Lists<P>, A: nat, S: nat, p: P)
    requires Ok(l, A, S)
    ensures var l' := Forget(l, p);
            l'.All() == Without(l.All(), p) && l'.active == Take(l'.All(), A) && Ok(l', A, S)
  {
    DistinctAppend(l.active, l.second);
    WithoutConcat(l.active, l.second, p);
    WithoutDistinct(l.All(), p);
    WithoutMembers(l.second, p);
    if p in l.active {
      WithoutLength(l.active, p);
      WithoutAbsent(l.second, p);
    } else {
      WithoutAbsent(l.active, p);
    }
    ForgetSplit(l, Without(l.active, p), Without(l.second, p), p);
  }

  lemma ForgetSplit<P>(l: Lists<P>, wa: seq<P>, ws: seq<P>, p: P)
    requires wa == Without(l.active, p) && ws == Without(l.second, p)
    requires if p in l.active then ws == l.second else wa == l.active && (l.active == [] ==> l.second == [])
    ensures Forget(l, p).All() == wa + ws
  {
    if p in l.active && l.second != [] {
      assert l.second == [l.second[0]] + l.second[1..];
    }
  }

  /** freeMem on a range of pages, in order. */
  function ForgetAll<P(==)>(l: Lists<P>, ps: seq<P>): Lists<P> {
    if ps == [] then l else Forget(ForgetAll(l, Front(ps)), Last(ps))
  }

  function WithoutAll<P(==)>(q: seq<P>, ps: seq<P>): seq<P> {
    if ps == [] then q else Without(WithoutAll(q, Front(ps)), Last(ps))
  }

  /** One freeMem call just deletes the pages of its range from the one list. */
  lemma {:induction false} ForgetAllDeletes<P>(l: Lists<P>, A: nat, S: nat, ps: seq<P>)
    requires Ok(l, A, S)
    ensures var l' := ForgetAll(l, ps);
            l'.All() == WithoutAll(l.All(), ps) && l'.active == Take(l'.All(), A) && Ok(l', A, S)
  {
    if ps != [] {
      ForgetAllDeletes(l, A, S, Front(ps));
      ForgetDeletes(ForgetAll(l, Front(ps)), A, S, Last(ps));
    }
  }
}

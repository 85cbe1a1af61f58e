/** The intrusive doubly linked lists of inc/queue.h: each macro refines one operation on sequences. */
module Lists {
  import opened Seqs
  import Lru

  /** An element with its prev_next_info. */
  class Element {
    var next: Element?
    var prev: Element?

    constructor ()
      ensures next == null && prev == null
    {
      next, prev := null, null;
    }
  }

  /** The links follow the sequence in both directions and end in NULL. */
  ghost predicate Chain(q: seq<Element>)
    reads q
  {
    && Distinct(q)
    && (forall i, j :: 0 <= i < |q| && 0 <= j < |q| && j == i + 1 ==> q[i].next == q[j] && q[j].prev == q[i])
    && (|q| > 0 ==> q[0].prev == null && q[|q| - 1].next == null)
  }

  /** The elements of q that stay, in order, when those in moves go. */
  function Kept<T(==)>(q: seq<T>, moves: set<T>): seq<T> {
    if q == [] then []
    else Kept(q[..|q| - 1], moves) + if q[|q| - 1] in moves then [] else [q[|q| - 1]]
  }

  /** The elements that went, latest first. */
  function Moved<T(==)>(q: seq<T>, moves: set<T>): seq<T> {
    if q == [] then []
    else (if q[|q| - 1] in moves then [q[|q| - 1]] else []) + Moved(q[..|q| - 1], moves)
  }

  class List {
    var first: Element?
    var last: Element?
    var size: nat
    ghost var elems: seq<Element>

    ghost predicate Valid()
      reads this, elems
    {
      && Chain(elems) && size == |elems|
      && (if elems == [] then first == null && last == null
          else first == elems[0] && last == elems[|elems| - 1])
    }

    /** LIST_INIT. */
    constructor ()
      ensures Valid() && elems == []
    {
      first, last, size, elems := null, null, 0, [];
    }

    /** LIST_INSERT_HEAD. */
    method InsertHead(elm: Element)
      requires Valid() && elm !in elems
      modifies this, elems, elm
      ensures Valid() && elems == [elm] + old(elems)
    {
      elm.next := first;
      if elm.next != null {
        first.prev := elm;
      } else {
        last := elm;
      }
      first := elm;
      elm.prev := null;
      size := size + 1;
      elems := [elm] + elems;
    }

    /** LIST_INSERT_TAIL. */
    method InsertTail(elm: Element)
      requires Valid() && elm !in elems
      modifies this, elems, elm
      ensures Valid() && elems == old(elems) + [elm]
    {
      elm.prev := last;
      if elm.prev != null {
        last.next := elm;
      } else {
        first := elm;
      }
      last := elm;
      elm.next := null;
      size := size + 1;
      elems := elems + [elm];
    }

    /** LIST_INSERT_AFTER; k is where listelm stands. */
    method InsertAfter(listelm: Element, elm: Element, ghost k: nat)
      requires Valid() && elm !in elems && k < |elems| && elems[k] == listelm
      modifies this, elems, elm
      ensures Valid() && elems == old(elems)[..k + 1] + [elm] + old(elems)[k + 1..]
    {
      ghost var q := elems;
      assert k + 1 < |q| ==> q[k].next == q[k + 1];
      assert k > 0 ==> q[k].prev == q[k - 1];
      elm.next := listelm.next;
      if elm.next != null {
        listelm.next.prev := elm;
      }
      listelm.next := elm;
      elm.prev := listelm;
      if elm.next == null {
        last := elm;
      }
      size := size + 1;
      elems := q[..k + 1] + [elm] + q[k + 1..];
      ChainInserted(q, elm, k + 1);
    }

    /** LIST_INSERT_BEFORE. */
    method InsertBefore(listelm: Element, elm: Element, ghost k: nat)
      requires Valid() && elm !in elems && k < |elems| && elems[k] == listelm
      modifies this, elems, elm
      ensures Valid() && elems == old(elems)[..k] + [elm] + old(elems)[k..]
    {
      ghost var q := elems;
      assert k + 1 < |q| ==> q[k].next == q[k + 1];
      assert k > 0 ==> q[k].prev == q[k - 1];
      elm.prev := listelm.prev;
      elm.next := listelm;
      if elm.prev != null {
        elm.prev.next := elm;
      } else {
        first := elm;
      }
      listelm.prev := elm;
      size := size + 1;
      elems := q[..k] + [elm] + q[k..];
      ChainInserted(q, elm, k);
    }

    /** LIST_REMOVE; k is where elm stands. */
    method Remove(elm: Element, ghost k: nat)
      requires Valid() && k < |elems| && elems[k] == elm
      modifies this, elems
      ensures Valid() && elems == old(elems)[..k] + old(elems)[k + 1..]
      ensures elm.next == null && elm.prev == null
    {
      ghost var q := elems;
      assert k + 1 < |q| ==> q[k].next == q[k + 1];
      assert k > 0 ==> q[k].prev == q[k - 1];
      if elm.next != null {
        elm.next.prev := elm.prev;
      } else {
        last := elm.prev;
      }
      if elm.prev != null {
        elm.prev.next := elm.next;
      } else {
        first := elm.next;
      }
      elm.next := null;
      elm.prev := null;
      size := size - 1;
      elems := q[..k] + q[k + 1..];
      RemovedDistinct(q, k);
    }
  }

  /** elm is linked in before index p of what was the chain q. */
  lemma ChainInserted(q: seq<Element>, elm: Element, p: nat)
    requires Distinct(q) && elm !in q && p <= |q|
    requires forall i, j :: 0 <= i < |q| && 0 <= j < |q| && j == i + 1 && j != p ==>
        q[i].next == q[j] && q[j].prev == q[i]
    requires |q| > 0 ==> (p > 0 ==> q[0].prev == null) && (p < |q| ==> q[|q| - 1].next == null)
    requires if p > 0 then q[p - 1].next == elm && elm.prev == q[p - 1] else elm.prev == null
    requires if p < |q| then q[p].prev == elm && elm.next == q[p] else elm.next == null
    ensures Chain(q[..p] + [elm] + q[p..])
  {
    var r := q[..p] + [elm] + q[p..];
    InsertedDistinct(q, elm, p);
    hide Distinct;
    assert forall i :: 0 <= i < |r| ==> r[i] == if i < p then q[i] else if i == p then elm else q[i - 1];
  }

  lemma InsertedDistinct(q: seq<Element>, x: Element, k: nat)
    requires Distinct(q) && x !in q && k <= |q|
    ensures Distinct(q[..k] + [x] + q[k..])
  {
    var r := q[..k] + [x] + q[k..];
    assert forall i :: 0 <= i < |r| ==> r[i] == if i < k then q[i] else if i == k then x else q[i - 1];
  }

  lemma RemovedDistinct(q: seq<Element>, k: nat)
    requires Distinct(q) && k < |q|
    ensures Distinct(q[..k] + q[k + 1..]) && q[k] !in q[..k] + q[k + 1..]
  {
    var r := q[..k] + q[k + 1..];
    assert forall i :: 0 <= i < |r| ==> r[i] == if i < k then q[i] else q[i + 1];
  }

  // ---------- LIST_FOREACH ----------

  /** Two lists of elements of all share none. */
  ghost predicate Apart(s: seq<Element>, t: seq<Element>, all: set<Element>) {
    && (forall x :: x in s ==> x in all && x !in t)
    && (forall x :: x in t ==> x in all)
  }

  /** The body of such a loop: the element goes from src to the head of dst. */
  method MoveToHead(src: List, dst: List, elm: Element, ghost k: nat, ghost all: set<Element>)
    requires src.Valid() && dst.Valid() && src != dst && Apart(src.elems, dst.elems, all)
    requires k < |src.elems| && src.elems[k] == elm
    modifies src, dst, all
    ensures src.Valid() && dst.Valid() && Apart(src.elems, dst.elems, all)
    ensures src.elems == old(src.elems)[..k] + old(src.elems)[k + 1..] && dst.elems == [elm] + old(dst.elems)
  {
    ghost var q, d := src.elems, dst.elems;
    RemovedDistinct(q, k);
    assert Chain(d);
    hide Distinct;
    assert forall j :: 0 <= j < |d| ==> d[j] !in q;
    src.Remove(elm, k);
    assert forall j :: 0 <= j < |d| ==> d[j].next == old(d[j].next) && d[j].prev == old(d[j].prev);
    assert forall x :: x in src.elems ==> x in q;
    dst.InsertHead(elm);
  }

  /** One round, at element i of the list as it was at the start: the next element is saved, then the body runs. */
  method VisitOne(src: List, dst: List, elm: Element, moves: set<Element>, ghost all: set<Element>,
                  ghost q: seq<Element>, ghost d: seq<Element>, ghost i: nat) returns (saved: Element?)
    requires src.Valid() && dst.Valid() && src != dst && Apart(src.elems, dst.elems, all)
    requires Visiting(q, d, src.elems, dst.elems, i, moves) && i < |q| && elm == q[i]
    modifies src, dst, all
    ensures src.Valid() && dst.Valid() && Apart(src.elems, dst.elems, all)
    ensures Visiting(q, d, src.elems, dst.elems, i + 1, moves)
    ensures saved == if i + 1 < |q| then q[i + 1] else null
  {
    ghost var s, t := src.elems, dst.elems;
    ghost var k := |Kept(q[..i], moves)|;
    VisitAt(q, d, s, t, i, k, moves);
    NextOf(s, k);
    hide Chain, Visiting, Kept, Moved, Apart, List.Valid;
    saved := elm.next;
    if elm in moves {
      MoveToHead(src, dst, elm, k, all);
    }
    VisitNext(q, d, s, t, src.elems, dst.elems, i, k, moves);
  }

  /** LIST_FOREACH over src with a body that, for the elements it chooses, removes the element from src
      and inserts it at the head of dst, as env_free and sched_run_all do.  The macro saves the next
      element in ___ptr_next before the body runs: every element of the list as it was at the start is
      visited exactly once, in order, and the loop ends. */
  method ForEachMove(src: List, dst: List, moves: set<Element>, ghost all: set<Element>) returns (visited: seq<Element>)
    requires src.Valid() && dst.Valid() && src != dst && Apart(src.elems, dst.elems, all)
    modifies src, dst, all
    ensures src.Valid() && dst.Valid() && visited == old(src.elems)
    ensures src.elems == Kept(old(src.elems), moves)
    ensures dst.elems == Moved(old(src.elems), moves) + old(dst.elems)
  {
    ghost var q, d := src.elems, dst.elems;
    VisitStart(q, d, moves);
    visited := VisitEach(src, dst, src.first, moves, all, q, d);
    VisitEnd(q, d, src.elems, dst.elems, moves);
  }

  /** The loop itself, over a list that was q at the start. */
  method VisitEach(src: List, dst: List, start: Element?, moves: set<Element>, ghost all: set<Element>,
                   ghost q: seq<Element>, ghost d: seq<Element>) returns (visited: seq<Element>)
    requires src.Valid() && dst.Valid() && src != dst && Apart(src.elems, dst.elems, all)
    requires Visiting(q, d, src.elems, dst.elems, 0, moves) && start == if q == [] then null else q[0]
    modifies src, dst, all
    ensures src.Valid() && dst.Valid() && Visiting(q, d, src.elems, dst.elems, |q|, moves)
    ensures visited == q
  {
    hide Chain, Visiting, Kept, Moved, Apart, List.Valid;
    visited := [];
    var elm := start;
    ghost var i: nat := 0;
    while elm != null
      invariant src.Valid() && dst.Valid() && Apart(src.elems, dst.elems, all)
      invariant i <= |q| && Visiting(q, d, src.elems, dst.elems, i, moves)
      invariant elm == if i < |q| then q[i] else null
      invariant visited == q[..i]
      decreases |q| - i
    {
      visited := visited + [elm];
      elm := VisitOne(src, dst, elm, moves, all, q, d, i);
      i := i + 1;
    }
  }

  /** s and t are the two lists, q and d at the start, after the first i elements of q were visited. */
  ghost predicate Visiting(q: seq<Element>, d: seq<Element>, s: seq<Element>, t: seq<Element>, i: nat,
                           moves: set<Element>)
  {
    i <= |q| && s == Kept(q[..i], moves) + q[i..] && t == Moved(q[..i], moves) + d
  }

  lemma VisitStart(q: seq<Element>, d: seq<Element>, moves: set<Element>)
    ensures Visiting(q, d, q, d, 0, moves)
  {
    assert q[0..] == q && q[..0] == [] && [] + d == d && [] + q == q;
  }

  lemma VisitAt(q: seq<Element>, d: seq<Element>, s: seq<Element>, t: seq<Element>, i: nat, k: nat, moves: set<Element>)
    requires Visiting(q, d, s, t, i, moves) && i < |q| && k == |Kept(q[..i], moves)|
    ensures k < |s| && s[k] == q[i] && (k + 1 < |s| <==> i + 1 < |q|) && (k + 1 < |s| ==> s[k + 1] == q[i + 1])
  {
  }

  lemma VisitNext(q: seq<Element>, d: seq<Element>, s: seq<Element>, t: seq<Element>, s': seq<Element>,
                  t': seq<Element>,
                  i: nat, k: nat, moves: set<Element>)
    requires Visiting(q, d, s, t, i, moves) && i < |q| && k == |Kept(q[..i], moves)| && k < |s|
    requires s' == if q[i] in moves then s[..k] + s[k + 1..] else s
    requires t' == if q[i] in moves then [q[i]] + t else t
    ensures Visiting(q, d, s', t', i + 1, moves)
  {
    KeptNext(q, i, moves);
    var a, m, a', m' := Kept(q[..i], moves), Moved(q[..i], moves), Kept(q[..i + 1], moves), Moved(q[..i + 1], moves);
    hide Kept, Moved;
    if q[i] in moves {
      DropHead(a, a', m, m', q, d, i);
    } else {
      KeepHead(a, a', m, m', q, d, i);
    }
  }

  lemma DropHead(a: seq<Element>, a': seq<Element>, m: seq<Element>, m': seq<Element>, q: seq<Element>,
                 d: seq<Element>, i: nat)
    requires i < |q| && a' == a + [] && m' == [q[i]] + m
    ensures var s := a + q[i..]; s[..|a|] + s[|a| + 1..] == a' + q[i + 1..]
    ensures [q[i]] + (m + d) == m' + d
  {
  }

  lemma KeepHead(a: seq<Element>, a': seq<Element>, m: seq<Element>, m': seq<Element>, q: seq<Element>,
                 d: seq<Element>, i: nat)
    requires i < |q| && a' == a + [q[i]] && m' == [] + m
    ensures a + q[i..] == a' + q[i + 1..] && m + d == m' + d
  {
  }

  lemma VisitEnd(q: seq<Element>, d: seq<Element>, s: seq<Element>, t: seq<Element>, moves: set<Element>)
    requires Visiting(q, d, s, t, |q|, moves)
    ensures s == Kept(q, moves) && t == Moved(q, moves) + d && q[..|q|] == q
  {
    assert q[..|q|] == q;
  }

  lemma NextOf(q: seq<Element>, k: nat)
    requires Chain(q) && k < |q|
    ensures q[k].next == if k + 1 < |q| then q[k + 1] else null
  {
    assert k + 1 < |q| ==> q[k].next == q[k + 1];
  }

  lemma KeptNext<T>(q: seq<T>, i: nat, moves: set<T>)
    requires i < |q|
    ensures Kept(q[..i + 1], moves) == Kept(q[..i], moves) + if q[i] in moves then [] else [q[i]]
    ensures Moved(q[..i + 1], moves) == (if q[i] in moves then [q[i]] else []) + Moved(q[..i], moves)
  {
    assert q[..i + 1] == q[..i] + [q[i]];
    KeptSnoc(q[..i], q[i], moves);
  }

  lemma KeptSnoc<T>(p: seq<T>, x: T, moves: set<T>)
    ensures Kept(p + [x], moves) == Kept(p, moves) + if x in moves then [] else [x]
    ensures Moved(p + [x], moves) == (if x in moves then [x] else []) + Moved(p, moves)
  {
    var q := p + [x];
    assert q[..|q| - 1] == p && q[|q| - 1] == x;
  }

  /** No element is lost or doubled between the two lists. */
  lemma {:induction false} NothingLost<T>(q: seq<T>, moves: set<T>)
    ensures multiset(Kept(q, moves)) + multiset(Moved(q, moves)) == multiset(q)
  {
    if q != [] {
      var p, x := q[..|q| - 1], q[|q| - 1];
      NothingLost(p, moves);
      KeptSnoc(p, x, moves);
      hide Kept, Moved;
      assert q == p + [x];
      OneMore(Kept(p, moves), Moved(p, moves), p, x);
    }
  }

  lemma OneMore<T>(k: seq<T>, m: seq<T>, p: seq<T>, x: T)
    requires multiset(k) + multiset(m) == multiset(p)
    ensures multiset(k + [x]) + multiset(m) == multiset(p + [x])
    ensures multiset(k) + multiset([x] + m) == multiset(p + [x])
    ensures k + [] == k && [] + m == m
  {
  }

  // ---------- the loop of freeMem ----------

  /** No element is in two of the three lists, and all are in all. */
  ghost predicate Disjoint(a: seq<Element>, s: seq<Element>, w: seq<Element>, all: set<Element>) {
    && (forall x :: x in a ==> x in all && x !in s && x !in w)
    && (forall x :: x in s ==> x in all && x !in a && x !in w)
    && (forall x :: x in w ==> x in all && x !in a && x !in s)
  }

  ghost predicate Three(a: List, s: List, w: List, all: set<Element>)
    reads a, a.elems, s, s.elems, w, w.elems
  {
    && a.Valid() && s.Valid() && w.Valid() && a != s && a != w && s != w
    && Disjoint(a.elems, s.elems, w.elems, all)
  }

  /** A list none of whose links changed. */
  twostate lemma Untouched(l: List)
    requires old(l.Valid()) && unchanged(l)
    requires forall x :: x in old(l.elems) ==> x.next == old(x.next) && x.prev == old(x.prev)
    ensures l.Valid()
  {
  }

  /** LIST_REMOVE on one of three lists; o1 and o2 are the others. */
  method Unlink(l: List, elm: Element, ghost o1: List, ghost o2: List, ghost k: nat)
    requires l.Valid() && o1.Valid() && o2.Valid() && l != o1 && l != o2
    requires k < |l.elems| && l.elems[k] == elm
    requires forall x :: x in l.elems ==> x !in o1.elems && x !in o2.elems
    requires forall x :: x in o1.elems || x in o2.elems ==> x !in l.elems
    modifies l, l.elems
    ensures l.Valid() && o1.Valid() && o2.Valid()
    ensures l.elems == old(l.elems)[..k] + old(l.elems)[k + 1..] && elm !in l.elems
    ensures forall x :: x in l.elems ==> x in old(l.elems)
  {
    ghost var q := l.elems;
    RemovedDistinct(q, k);
    hide Distinct, Chain;
    label start:
    l.Remove(elm, k);
    Untouched@start(o1);
    Untouched@start(o2);
  }

  /** An insertion at the head or the tail of one of them. */
  method Link(l: List, elm: Element, tail: bool, ghost o1: List, ghost o2: List)
    requires l.Valid() && o1.Valid() && o2.Valid() && l != o1 && l != o2
    requires elm !in l.elems && elm !in o1.elems && elm !in o2.elems
    requires forall x :: x in o1.elems || x in o2.elems ==> x !in l.elems
    modifies l, l.elems, elm
    ensures l.Valid() && o1.Valid() && o2.Valid()
    ensures l.elems == if tail then old(l.elems) + [elm] else [elm] + old(l.elems)
  {
    hide Distinct, Chain;
    label start:
    if tail {
      l.InsertTail(elm);
    } else {
      l.InsertHead(elm);
    }
    Untouched@start(o1);
    Untouched@start(o2);
  }

  lemma StillDisjoint(a: seq<Element>, a': seq<Element>, s: seq<Element>, w: seq<Element>, all: set<Element>)
    requires Disjoint(a, s, w, all) && forall x :: x in a' ==> x in a
    ensures Disjoint(a', s, w, all) && Disjoint(s, a', w, all) && Disjoint(w, s, a', all)
  {
  }

  lemma MovedDisjoint(a: seq<Element>, s: seq<Element>, w: seq<Element>, x: Element, s': seq<Element>, a': seq<Element>,
                      all: set<Element>)
    requires Disjoint(a, s, w, all) && x in s && x !in s' && (forall y :: y in s' ==> y in s)
    requires forall y :: y in a' ==> y in a || y == x
    ensures Disjoint(a', s', w, all)
  {
  }

  /** The head of SecondList goes to the tail of ActiveList. */
  method Refill(active: List, second: List, ghost work: List, ghost all: set<Element>)
    requires Three(active, second, work, all)
    modifies active, second, all
    ensures Three(active, second, work, all)
    ensures var a, s := old(active.elems), old(second.elems);
            && active.elems == a + (if s == [] then [] else [s[0]]) && second.elems == if s == [] then [] else s[1..]
  {
    hide Chain, Distinct;
    if second.size > 0 {
      ghost var a, s, w := active.elems, second.elems, work.elems;
      var head := second.first;
      Unlink(second, head, active, work, 0);
      assert s[..0] + s[1..] == s[1..];
      Link(active, head, true, second, work);
      MovedDisjoint(a, s, w, head, second.elems, active.elems, all);
    }
  }

  /** The element of a page of ActiveList is unlinked, and the head of SecondList goes to the tail of ActiveList, which
      is the list the loop is walking along. */
  method UnlinkAndRefill(active: List, second: List, ghost work: List, elm: Element, ghost k: nat,
                         ghost all: set<Element>)
    requires Three(active, second, work, all) && k < |active.elems| && active.elems[k] == elm
    modifies active, second, all
    ensures Three(active, second, work, all)
    ensures var a, s := old(active.elems), old(second.elems);
            && active.elems == a[..k] + a[k + 1..] + (if s == [] then [] else [s[0]])
            && second.elems == if s == [] then [] else s[1..]
  {
    hide Chain, Distinct;
    ghost var a := active.elems;
    Unlink(active, elm, second, work, k);
    StillDisjoint(a, active.elems, second.elems, work.elems, all);
    Refill(active, second, work, all);
  }

  /** The element of a page of SecondList becomes the head of the free elements. */
  method UnlinkAndFree(ghost active: List, second: List, work: List, elm: Element, ghost k: nat,
                       ghost all: set<Element>)
    requires Three(active, second, work, all) && k < |second.elems| && second.elems[k] == elm
    modifies second, work, all
    ensures Three(active, second, work, all) && active.elems == old(active.elems)
    ensures second.elems == old(second.elems)[..k] + old(second.elems)[k + 1..] && elm !in second.elems
    ensures work.elems == [elm] + old(work.elems)
  {
    hide Chain, Distinct;
    ghost var s, w := second.elems, work.elems;
    Unlink(second, elm, active, work, k);
    Link(work, elm, false, active, second);
    MovedDisjoint(w, s, active.elems, elm, second.elems, work.elems,
        all) by { StillDisjoint(w, w, s, active.elems, all); }
    StillDisjoint(work.elems, work.elems, second.elems, active.elems, all);
  }

  /** The inner loop, over SecondList. */
  method SearchSecond(ghost active: List, second: List, work: List, aim: Element, ghost all: set<Element>)
    returns (found: bool)
    requires Three(active, second, work, all)
    modifies second, work, all
    ensures Three(active, second, work, all) && active.elems == old(active.elems)
    ensures found == (aim in old(second.elems))
    ensures second.elems == Lru.Without(old(second.elems), aim)
    ensures work.elems == (if found then [aim] else []) + old(work.elems)
  {
    hide Disjoint, Lru.Without, Chain, Distinct;
    ghost var s, w := second.elems, work.elems;
    IsDistinct(second);
    found := false;
    var elm, i: nat := second.first, 0;
    while elm != null
      invariant Three(active, second, work, all) && active.elems == old(active.elems) && i <= |second.elems|
      invariant elm == if i < |second.elems| then second.elems[i] else null
      invariant !found ==> second.elems == s && work.elems == w && aim !in s[..i]
      invariant found ==> aim in s && second.elems == Lru.Without(s, aim) && work.elems == [aim] + w
      invariant found ==> aim !in second.elems
      decreases if found then 0 else 1, |second.elems| - i
    {
      NextOf(second.elems, i);
      var saved := elm.next;
      if elm == aim {
        Lru.WithoutIndex(s, i);
        UnlinkAndFree(active, second, work, elm, i, all);
        found := true;
      } else {
        i := i + 1;
      }
      elm := saved;
    }
    if !found {
      Lru.WithoutAbsent(s, aim);
      assert [] + w == w;
    }
  }

  /** What the loop of freeMem makes of the list of free elements. */
  function FreeElements(a: seq<Element>, s: seq<Element>, w: seq<Element>, aim: Element): seq<Element> {
    (if aim !in a && a != [] && aim in s then [aim] else []) + w
  }

  ghost predicate Forgotten(a: seq<Element>, s: seq<Element>, w: seq<Element>, aim: Element, a': seq<Element>,
                            s': seq<Element>, w': seq<Element>)
  {
    && a' == Lru.Forget(Lru.Lists(a, s, 0), aim).active && s' == Lru.Forget(Lru.Lists(a, s, 0), aim).second
    && w' == FreeElements(a, s, w, aim)
  }

  lemma ForgotActive(a: seq<Element>, s: seq<Element>, w: seq<Element>, i: nat)
    requires Distinct(a) && i < |a|
    ensures Forgotten(a, s, w, a[i], a[..i] + a[i + 1..] + (if s == [] then [] else [s[0]]),
                      if s == [] then [] else s[1..], w)
  {
    Lru.WithoutIndex(a, i);
    hide Distinct, Lru.Without;
    assert a[..i] + a[i + 1..] + [] == a[..i] + a[i + 1..];
  }

  lemma ForgotSecond(a: seq<Element>, s: seq<Element>, w: seq<Element>, aim: Element)
    requires a != [] && aim !in a && aim in s
    ensures Forgotten(a, s, w, aim, a, Lru.Without(s, aim), [aim] + w)
  {
  }

  lemma ForgotNothing(a: seq<Element>, s: seq<Element>, w: seq<Element>, aim: Element)
    requires aim !in a && (a != [] ==> aim !in s)
    ensures Forgotten(a, s, w, aim, a, s, w)
  {
    if a != [] {
      Lru.WithoutAbsent(s, aim);
    }
    assert [] + w == w;
  }

  /** The element is in ActiveList no more. */
  lemma AimGone(a: seq<Element>, s: seq<Element>, w: seq<Element>, i: nat, all: set<Element>)
    requires Distinct(a) && Disjoint(a, s, w, all) && i < |a|
    ensures a[i] !in a[..i] + a[i + 1..] + (if s == [] then [] else [s[0]])
  {
    RemovedDistinct(a, i);
    hide Distinct;
    assert s != [] ==> s[0] in s;
  }

  lemma NotInActive(a: seq<Element>, s: seq<Element>, w: seq<Element>, aim: Element, all: set<Element>)
    requires Disjoint(a, s, w, all) && aim in s
    ensures aim !in a
  {
  }

  lemma NotSecond(s: seq<Element>, w: seq<Element>, aim: Element)
    ensures aim !in s ==> Lru.Without(s, aim) == s && [] + w == w
  {
    if aim !in s {
      Lru.WithoutAbsent(s, aim);
    }
  }

  /** What holds when the loop is at element i of ActiveList. */
  ghost predicate Looking(a: seq<Element>, s: seq<Element>, w: seq<Element>, aim: Element, a': seq<Element>,
                          s': seq<Element>, w': seq<Element>, found: bool, i: nat)
  {
    && i <= |a'|
    && if found then Forgotten(a, s, w, aim, a', s', w') && aim !in a'
       else a' == a && s' == s && w' == w && aim !in a[..i] && (i > 0 ==> aim !in s)
  }

  /** The round at an element that is not the one looked for. */
  method LookOn(ghost active: List, second: List, work: List, aim: Element, ghost i: nat, ghost all: set<Element>)
    returns (found: bool)
    requires Three(active, second, work, all) && i < |active.elems| && aim !in active.elems[..i + 1]
    modifies second, work, all
    ensures Three(active, second, work, all) && active.elems == old(active.elems)
    ensures Looking(active.elems, old(second.elems), old(work.elems), aim, active.elems, second.elems, work.elems,
        found, i + 1)
  {
    hide Chain, Lru.Without, Forgotten;
    ghost var a, s, w := active.elems, second.elems, work.elems;
    NotSecond(s, w, aim);
    if aim in s {
      NotInActive(a, s, w, aim, all);
      ForgotSecond(a, s, w, aim);
    }
    found := SearchSecond(active, second, work, aim, all);
  }

  /** The round at the element looked for; the next one was saved before. */
  method LookHere(active: List, second: List, ghost work: List, aim: Element, ghost i: nat, ghost all: set<Element>)
    requires Three(active, second, work, all) && i < |active.elems| && aim == active.elems[i]
    modifies active, second, all
    ensures Three(active, second, work, all)
    ensures Forgotten(old(active.elems), old(second.elems), work.elems, aim, active.elems, second.elems, work.elems)
    ensures aim !in active.elems
    ensures i + 1 < |old(active.elems)| ==> i < |active.elems| && active.elems[i] == old(active.elems)[i + 1]
    ensures work.elems == old(work.elems)
  {
    hide Chain, Distinct, Forgotten, Disjoint;
    ghost var a, s := active.elems, second.elems;
    IsDistinct(active);
    ForgotActive(a, s, work.elems, i);
    AimGone(a, s, work.elems, i, all);
    NextPlace(a, if s == [] then [] else [s[0]], i);
    UnlinkAndRefill(active, second, work, aim, i, all);
  }

  lemma IsDistinct(l: List)
    requires l.Valid()
    ensures Distinct(l.elems)
  {
  }

  lemma NextPlace(a: seq<Element>, t: seq<Element>, i: nat)
    requires i < |a|
    ensures var q := a[..i] + a[i + 1..] + t; i + 1 < |a| ==> i < |q| && q[i] == a[i + 1]
  {
  }

  /** The loop of freeMem for one page, over ActiveList; aim is the element that holds the page, if any does.  The body
      inserts at the tail of the list that is walked along, and unlinks the element under the loop. */
  method ForgetElement(active: List, second: List, work: List, aim: Element, ghost all: set<Element>)
    requires Three(active, second, work, all)
    modifies active, second, work, all
    ensures Three(active, second, work, all)
    ensures Forgotten(old(active.elems), old(second.elems), old(work.elems), aim, active.elems, second.elems,
        work.elems)
  {
    ghost var a, s, w := active.elems, second.elems, work.elems;
    var found, elm := false, active.first;
    ghost var i: nat := 0;
    hide Disjoint, Chain, Forgotten;
    while elm != null
      invariant Three(active, second, work, all)
      invariant Looking(a, s, w, aim, active.elems, second.elems, work.elems, found, i)
      invariant elm == if i < |active.elems| then active.elems[i] else null
      decreases if found then 0 else 1, |active.elems| - i
    {
      NextOf(active.elems, i);
      var saved := elm.next;
      if elm == aim {
        LookHere(active, second, work, aim, i, all);
        found := true;
        i := if saved == null then |active.elems| else i;
      } else {
        if !found {
          found := LookOn(active, second, work, aim, i, all);
        }
        i := i + 1;
      }
      elm := saved;
    }
    if !found {
      ForgotNothing(a, s, w, aim);
    }
  }
}

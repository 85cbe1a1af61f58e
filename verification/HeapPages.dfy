/** malloc and free of lib/uheap.c together with allocateMem and freeMem of the kernel: the pages of the blocks. */
module HeapPages {
  import opened Mmu
  import opened FrameTable
  import opened FrameDemand
  import opened Machine
  import opened FlatMemory
  import opened Freeing
  import opened Runs
  import opened PageRanges
  import LifeCycle
  import Heap

  /** The address of page v lies in block b, an address and a number of pages. */
  predicate InBlock(v: Vpn, b: (int, int)) {
    v.t < 1024 && b.0 <= Number(v) * 4096 < b.0 + b.1 * 4096
  }

  /** Every page of every live block is in the page file. */
  ghost predicate Backed(q: seq<Heap.Entry>, leaf: map<(Space, Vpn), Word>, e: nat) {
    forall b, v :: b in Heap.Live(q) && InBlock(v, b) ==> (Swap(e), v) in leaf
  }

  /** A block of the heap, as a range of pages. */
  ghost predicate HeapBlock(a: int, n: int) {
    0x8_0000 * 4096 <= a && a % 4096 == 0 && n >= 0 && a + n * 4096 <= 0xA_0000 * 4096
  }

  lemma BlockRange(a: int, n: int, v: Vpn)
    requires HeapBlock(a, n)
    ensures a >= 0 && n >= 0 && a / 4096 + n <= 0xA_0000
    ensures InBlock(v, (a, n)) <==> Inside(v, a / 4096, n)
  {
    assert a == a / 4096 * 4096;
  }

  /** Live blocks are page aligned and in the heap. */
  lemma LiveAligned(q: seq<Heap.Entry>, last: int, b: (int, int))
    requires Heap.Ok(q, last) && b in Heap.Live(q)
    ensures HeapBlock(b.0, b.1)
  {
    var k: nat :| k < |q| && q[k].live && (q[k].addr, q[k].pages) == b;
    Heap.LiveInHeap(q, last, k);
    assert q[k].addr == Heap.USER_HEAP_START + PAGE_SIZE * Heap.Sum(q[..k]);
    hide Heap.Sum;
    AlignedSum(Heap.Sum(q[..k]));
  }

  lemma AlignedSum(n: int)
    ensures (Heap.USER_HEAP_START + PAGE_SIZE * n) % 4096 == 0
  {
  }

  // ---------- malloc ----------

  /** After a malloc that found room, the pages of all blocks are in the page file if and only if there were as many
      free disk frames as pages of the new block without one: neither allocateMem nor malloc looks at the error
      code.  If so, every access to the new block is legal. */
  lemma MallocBackedIff(q: seq<Heap.Entry>, last: int, changes: nat, size: nat, q': seq<Heap.Entry>, last': int, p: int,
                        s: State, e: nat, flat: Flat)
    requires Heap.Ok(q, last) && (changes == 0 ==> Heap.AllLive(q))
    requires Heap.Mallocs(q, last, changes, size, q', last', p) && Heap.Proper(q, last, changes, size)
    requires !Heap.Refused(q, last, changes, size)
    requires Inv(s) && e in s.envs && Agrees(s, flat) && Backed(q, s.m.leaf, e)
    requires p >= 0 ==> RoomForRange(s, e, p / 4096, PagesFor(size))
    ensures HeapBlock(p, PagesFor(size))
    ensures var s', n := AllocRange(s, e, p / 4096, PagesFor(size)), Missing(s.m.leaf, e, p / 4096, PagesFor(size));
            && Inv(s') && Agrees(s', flat) && OthersKept(s, s', e) && s'.envs == s.envs
            && (Backed(q', s'.m.leaf, e) <==> n <= |s.dfree|)
            && (n <= |s.dfree| ==> forall v :: InBlock(v, (p, PagesFor(size))) ==> Legal(s', e, v))
  {
    hide Heap.Ok, Heap.Mallocs, Heap.Proper, Heap.Refused, Heap.Live, Inv, Agrees, OthersKept, RoomForRange, AllocRange,
         Missing, PagesFor, Inside, InBlock, Heap.AllLive, HeapBlock, RangeAllocated;
    var num := PagesFor(size);
    Heap.MallocAllocates(q, last, changes, size, q', last', p);
    Heap.MallocOkIff(q, last, changes, size, q', last', p);
    assert (p, num) in Heap.Live(q');
    LiveAligned(q', last', (p, num));
    BlockRange(p, num, Vpn(0, 0));
    forall v ensures InBlock(v, (p, num)) <==> Inside(v, p / 4096, num) {
      BlockRange(p, num, v);
    }
    AllocRangeInv(s, e, p / 4096, num, flat);
    var s' := AllocRange(s, e, p / 4096, num);
    AllocatedFacts(s, s', e, p / 4096, num);
    MissingNone(s'.m.leaf, e, p / 4096, num);
    BackedBoth(q, q', s.m.leaf, s'.m.leaf, e, p, num);
    if Missing(s.m.leaf, e, p / 4096, num) <= |s.dfree| {
      forall v | InBlock(v, (p, num)) ensures Legal(s', e, v) {
        LegalInHeap(s', e, v, p / 4096, num);
      }
    }
  }

  lemma AllocatedFacts(s: State, s': State, e: nat, p: nat, n: nat)
    requires RangeAllocated(s, s', e, p, n)
    ensures s'.envs == s.envs && forall x :: x in s.m.leaf ==> x in s'.m.leaf
    ensures Missing(s'.m.leaf, e, p, n) == 0 <==> Missing(s.m.leaf, e, p, n) <= |s.dfree|
  {
  }

  lemma BackedBoth(q: seq<Heap.Entry>, q': seq<Heap.Entry>, leaf: map<(Space, Vpn), Word>,
                   leaf': map<(Space, Vpn), Word>, e: nat, p: int, num: int)
    requires Heap.Live(q') == Heap.Live(q) + {(p, num)} && Backed(q, leaf, e)
    requires forall x :: x in leaf ==> x in leaf'
    ensures Backed(q', leaf', e) <==> forall v :: InBlock(v, (p, num)) ==> (Swap(e), v) in leaf'
  {
    hide InBlock, Heap.Live;
  }

  lemma LegalInHeap(s: State, e: nat, v: Vpn, a: nat, n: nat)
    requires Inside(v, a, n) && a + n <= 0xA_0000 && (Swap(e), v) in s.m.leaf
    ensures Legal(s, e, v)
  {
  }

  // ---------- free ----------

  /** free keeps the pages of all other blocks. */
  lemma FreeBacked(q: seq<Heap.Entry>, last: int, i: nat, k: nat, s: State, e: nat, flat: Flat)
    requires Heap.Ok(q, last) && i < |q| && q[i].live
    requires Inv(s) && e in s.envs && Agrees(s, flat) && Backed(q, s.m.leaf, e)
    ensures HeapBlock(q[i].addr, q[i].pages)
    ensures var p, s' := q[i].addr / 4096, FreeMem(s, e, q[i].addr / 4096, q[i].pages, k);
            && Inv(s') && e in s'.envs && Agrees(s', WithoutPages(flat, e, p, q[i].pages))
            && Heap.Ok(Heap.Freed(q, i), last) && Backed(Heap.Freed(q, i), s'.m.leaf, e)
  {
    hide Heap.Ok, Heap.Live, Inv, Agrees, Heap.Freed, FreeMem, HeapBlock, InBlock, Inside, Heap.Sum, WithoutPages;
    Heap.FreedOk(q, last, i);
    LiveAligned(q, last, (q[i].addr, q[i].pages));
    BlockRange(q[i].addr, q[i].pages, Vpn(0, 0));
    FreeMemInv(s, e, q[i].addr / 4096, q[i].pages, k, flat);
    var s' := FreeMem(s, e, q[i].addr / 4096, q[i].pages, k);
    forall b, v | b in Heap.Live(Heap.Freed(q, i)) && InBlock(v, b) ensures (Swap(e), v) in s'.m.leaf {
      BlockRange(q[i].addr, q[i].pages, v);
      OtherBlock(q, last, i, b, v);
    }
  }

  lemma OtherBlock(q: seq<Heap.Entry>, last: int, i: nat, b: (int, int), v: Vpn)
    requires Heap.Ok(q, last) && i < |q| && q[i].live && b in Heap.Live(q) && b != (q[i].addr, q[i].pages)
    requires InBlock(v, b)
    ensures !InBlock(v, (q[i].addr, q[i].pages))
  {
    var j: nat :| j < |q| && q[j].live && (q[j].addr, q[j].pages) == b;
    hide Heap.Ok;
    if i < j {
      Heap.LiveDisjoint(q, last, i, j);
    } else {
      Heap.LiveDisjoint(q, last, j, i);
    }
  }

  // ---------- runs ----------

  /** A process: the arrays of its heap, and the machine it runs on. */
  datatype Process = Process(q: seq<Heap.Entry>, last: int, changes: nat, s: State)

  datatype Event =
    | Malloc(size: nat, p: int)    // malloc, with its result
    | Release(va: int)             // free
    | Other(op: Op)                // anything else that happens on the machine

  /** malloc is called with a proper size, and frames and disk frames do not run out. */
  ghost predicate MallocStep(e: nat, x: Process, x': Process, size: nat, p: int) {
    && Heap.Mallocs(x.q, x.last, x.changes, size, x'.q, x'.last, p) && x'.changes == x.changes
    && (Heap.Refused(x.q, x.last, x.changes, size) || Heap.Proper(x.q, x.last, x.changes, size))
    && if Heap.Refused(x.q, x.last, x.changes, size) then x'.s == x.s
       else && p >= 0 && RoomForRange(x.s, e, p / 4096, PagesFor(size))
            && Missing(x.s.m.leaf, e, p / 4096, PagesFor(size)) <= |x.s.dfree|
            && x'.s == AllocRange(x.s, e, p / 4096, PagesFor(size))
  }

  ghost predicate FreesBlock(e: nat, x: Process, x': Process, i: nat) {
    && i < |x.q| && x.q[i].live && x.q[i].addr >= 0 && x.q[i].pages >= 0
    && x' == Process(Heap.Freed(x.q, i), x.last, x.changes + 1,
                     FreeMem(x.s, e, x.q[i].addr / 4096, x.q[i].pages, x.q[i].pages / 1024 + 1))
  }

  ghost predicate ReleaseStep(e: nat, x: Process, x': Process, va: int) {
    if exists i: nat :: i < |x.q| && x.q[i].live && x.q[i].addr == va then
      exists i: nat :: FreesBlock(e, x, x', i) && x.q[i].addr == va
    else x' == x
  }

  /** Others may do what they like; the process itself gives no pages back but by free. */
  ghost predicate OtherStep(e: nat, x: Process, x': Process, op: Op) {
    && Allowed(x.s, op) && x' == x.(s := Apply(x.s, op))
    && (op.e == e ==> op.Read? || op.Write? || op.Grow?)
  }

  ghost predicate Step(e: nat, x: Process, ev: Event, x': Process) {
    match ev
    case Malloc(size, p) => MallocStep(e, x, x', size, p)
    case Release(va) => ReleaseStep(e, x, x', va)
    case Other(op) => OtherStep(e, x, x', op)
  }

  ghost predicate Good(e: nat, x: Process) {
    && Heap.Ok(x.q, x.last) && (x.changes == 0 ==> Heap.AllLive(x.q))
    && Inv(x.s) && e in x.s.envs && Backed(x.q, x.s.m.leaf, e)
  }

  lemma NothingAgrees(s: State)
    ensures Agrees(s, map[])
  {
  }

  lemma StepGood(e: nat, x: Process, ev: Event, x': Process)
    requires Good(e, x) && Step(e, x, ev, x')
    ensures Good(e, x')
  {
    hide Heap.Ok, Heap.Mallocs, Heap.Proper, Heap.Refused, Heap.AllLive, Inv, Agrees, OthersKept, RoomForRange,
         AllocRange, Missing, Backed, FreeMem, Apply, Allowed, HeapBlock, Legal, Heap.Freed;
    NothingAgrees(x.s);
    match ev
    case Malloc(size, p) =>
      Heap.MallocOkIff(x.q, x.last, x.changes, size, x'.q, x'.last, p);
      if Heap.Refused(x.q, x.last, x.changes, size) {
        RefusedSame(x.q, x.last, x.changes, size, x'.q, x'.last, p);
      } else {
        MallocBackedIff(x.q, x.last, x.changes, size, x'.q, x'.last, p, x.s, e, map[]);
      }
    case Release(va) =>
      if exists i: nat :: i < |x.q| && x.q[i].live && x.q[i].addr == va {
        var i: nat :| FreesBlock(e, x, x', i) && x.q[i].addr == va;
        FreeBacked(x.q, x.last, i, x.q[i].pages / 1024 + 1, x.s, e, map[]);
      }
    case Other(op) =>
      OtherKeeps(x.s, op, e);
      BackedSame(x.q, x.s.m.leaf, x'.s.m.leaf, e);
  }

  lemma RefusedSame(q: seq<Heap.Entry>, last: int, changes: nat, size: nat, q': seq<Heap.Entry>, last': int, p: int)
    requires Heap.Mallocs(q, last, changes, size, q', last', p) && Heap.Refused(q, last, changes, size)
    ensures q' == q && last' == last
  {
  }

  lemma BackedSame(q: seq<Heap.Entry>, leaf: map<(Space, Vpn), Word>, leaf': map<(Space, Vpn), Word>, e: nat)
    requires Backed(q, leaf, e) && forall v :: (Swap(e), v) in leaf ==> (Swap(e), v) in leaf'
    ensures Backed(q, leaf', e)
  {
    hide Heap.Live, InBlock;
  }

  /** Nothing else takes a page out of the page file. */
  lemma OtherKeeps(s: State, op: Op, e: nat)
    requires Inv(s) && Allowed(s, op) && e in s.envs && (op.e == e ==> op.Read? || op.Write? || op.Grow?)
    ensures Inv(Apply(s, op)) && e in Apply(s, op).envs
    ensures forall v :: (Swap(e), v) in s.m.leaf ==> (Swap(e), v) in Apply(s, op).m.leaf
  {
    hide Inv, Agrees, Touch, PfAdd, RoomToTouch, FreeMem, LifeCycle.Create, LifeCycle.Destroy, SetPerms, CanHaveTable;
    NothingAgrees(s);
    StepOk(s, op, map[]);
    if op.e == e {
      if op.Grow? {
        AddInv(s, e, op.v, map[]);
      } else {
        TouchInv(s, e, op.v, op.junk);
        if op.Write? {
          StoreKeeps(s, e, op.v, op.i, op.w, op.junk);
        }
      }
    }
  }

  lemma StoreKeeps(s: State, e: nat, v: Vpn, i: nat, w: Word, junk: Block)
    ensures var s', s1 := Store(s, e, v, i, w, junk), Touch(s, e, v, junk);
            s'.envs == s1.envs && forall k :: k in s1.m.leaf ==> k in s'.m.leaf
  {
    hide Touch;
  }

  /** In every run, after every event: every access to a page of a live block is legal. */
  lemma {:induction false} BlocksLegal(e: nat, run: seq<Process>, evs: seq<Event>, n: nat)
    requires |run| == |evs| + 1 && n < |run| && Good(e, run[0])
    requires forall i :: 0 <= i < |evs| ==> Step(e, run[i], evs[i], run[i + 1])
    ensures Good(e, run[n])
    ensures forall b, v :: b in Heap.Live(run[n].q) && InBlock(v, b) ==> Legal(run[n].s, e, v)
    decreases n
  {
    hide Good, Step, Heap.Live, InBlock, Legal;
    if n > 0 {
      BlocksLegal(e, run, evs, n - 1);
      StepGood(e, run[n - 1], evs[n - 1], run[n]);
    }
    GoodLegal(e, run[n]);
  }

  lemma GoodLegal(e: nat, x: Process)
    requires Good(e, x)
    ensures forall b, v :: b in Heap.Live(x.q) && InBlock(v, b) ==> Legal(x.s, e, v)
  {
    hide Heap.Ok, Inv, Heap.Live, Legal, InBlock, Inside, HeapBlock;
    forall b, v | b in Heap.Live(x.q) && InBlock(v, b) ensures Legal(x.s, e, v) {
      LiveAligned(x.q, x.last, b);
      BlockRange(b.0, b.1, v);
      LegalInHeap(x.s, e, v, b.0 / 4096, b.1);
    }
  }
}

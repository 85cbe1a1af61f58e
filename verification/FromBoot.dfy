/** Programs created right after boot: how many fit, and states in which something is lost. */
module FromBoot {
  import opened Mmu
  import opened FrameTable
  import opened FrameDemand
  import opened Memory
  import opened Machine
  import opened FlatMemory
  import opened Freeing
  import opened LifeCycle
  import opened ProgramLoading
  import opened LoadRoom
  import opened KernelFacts
  import opened PageRanges
  import opened Programs
  import HeapPages
  import Heap
  import Lru
  import WS = WorkingSet

  /** Right after boot every program can be created that takes few enough steps: two frames for each page loaded or
      written, five for the directories and the stack page, and as many disk frames as pages written. */
  lemma CreatesAfterBoot(n: nat, kernelEnd: nat, file: seq<Block>, e: nat, A: nat, S: nat, ops: seq<Step>)
    requires IO_HOLE_END <= kernelEnd <= n && A >= 1
    requires |file| >= 1 && forall d :: 0 <= d < |file| ==> |file[d]| == NPTENTRIES
    requires 2 * |ops| + 5 <= (n - kernelEnd) + (IO_HOLE - 3) && |ops| + 1 <= |file| - 1
    ensures Inv(BootState(n, kernelEnd, file)) && RoomToCreate(BootState(n, kernelEnd, file), e, A, S, ops)
  {
    hide Inv, RoomToCreate, Descending, DiskList, DiskContents, BootOwn;
    BootStateInv(n, kernelEnd, file);
    DescendingAt(kernelEnd, n);
    DescendingAt(3, IO_HOLE);
    DiskListAt(|file|);
    EnoughToCreate(BootState(n, kernelEnd, file), e, A, S, ops);
  }

  // ---------- segments that are not there ----------

  /** The smallest machine, with a page file of k disk frames after the unused first one. */
  ghost function Small(k: nat): State { BootState(IO_HOLE_END, IO_HOLE_END, Copies(ZeroBlock(), k + 1)) }

  /** One segment of less than a page, and no room in memory but for the stack page. */
  ghost predicate Tiny(seg: ProgramSegment) {
    && SegmentOk(seg) && seg.start == 0x800 && seg.size == 1
  }

  lemma TinySteps(seg: ProgramSegment, zeroPage: Block)
    requires Tiny(seg) && |zeroPage| == NPTENTRIES
    ensures WellFormed([seg]) && MemPages(seg) == 1 && |Steps(Plans([seg], zeroPage, []), 0)| <= 3
  {
    TinySizes(seg);
    assert [seg][1..] == [];
    hide Steps, SegmentSteps, Plans, Plan, Words, FirstBytes, LastBytes, WholeBytes, SegPage;
    TinyFile(seg, zeroPage);
    PlansTail([seg], zeroPage, [], 0);
    NoSteps(zeroPage, JunkTail([]), 0);
    StepCount(Plan(seg, zeroPage, JunkAt([], 0)), 0);
  }

  lemma TinySizes(seg: ProgramSegment)
    requires Tiny(seg)
    ensures MemPages(seg) == 1 && LastPage(seg) <= 1 && WholePages(seg) == 0 && ZeroPages(seg) <= 1
    ensures seg.start + Extent(seg) <= STACK_NUMBER
  {
  }

  lemma TinyFile(seg: ProgramSegment, zeroPage: Block)
    requires Tiny(seg) && |zeroPage| == NPTENTRIES
    ensures var plan := Plan(seg, zeroPage, JunkAt([], 0)); |plan.file| <= 3 && LoadCount(plan, 0) == 0
  {
    TinySizes(seg);
    hide Words, FirstBytes, LastBytes, WholeBytes, SegPage, PageBlock, LastPage, FilePages, FirstWhole, WholePages,
         ZeroPages;
  }

  /** A created program has the page of its segment if and only if it is right. */
  lemma TinyCreated(seg: ProgramSegment, zeroPage: Block)
    requires Tiny(seg) && |zeroPage| == NPTENTRIES
    ensures var s := Create(Small(4), 0, 1, 0, Plans([seg], zeroPage, []), zeroPage);
            Inv(s) && (HasPage(s, 0, seg, 0) <==> Right(seg, zeroPage, 0))
  {
    hide Inv, RoomToCreate, Create, HasPage, Right, WellFormed, Steps, Plans, MemPages, Tiny, OthersKept, Agrees,
         WordAgrees;
    TinySteps(seg, zeroPage);
    CreatesAfterBoot(IO_HOLE_END, IO_HOLE_END, Copies(ZeroBlock(), 5), 0, 1, 0, Steps(Plans([seg], zeroPage, []), 0));
    SmallAgrees(4);
    CreateProgram(Small(4), 0, 1, 0, [seg], zeroPage, [], map[]);
    assert [seg][0] == seg;
  }

  lemma SmallAgrees(k: nat)
    ensures Small(k).envs == map[] && Agrees(Small(k), map[])
  {
  }

  /** A page of zeros, and a zero page that starts with a word that is not zero: the page is not there. */
  lemma ZeroPageLost()
    ensures var zeroPage, seg := ZeroBlock()[0 := Construct(1)], ProgramSegment(0x800, 0, [], 0, 1, false);
            var s := Create(Small(4), 0, 1, 0, Plans([seg], zeroPage, []), zeroPage);
            Inv(s) && !HasPage(s, 0, seg, 0)
  {
    var zeroPage, seg := ZeroBlock()[0 := Construct(1)], ProgramSegment(0x800, 0, [], 0, 1, false);
    assert zeroPage[0] != ZeroBlock()[0];
    hide Inv, HasPage, Create, Small, Plans;
    TinyCreated(seg, zeroPage);
  }

  /** One byte of file contents that starts inside a page: the page file has something else in its place. */
  lemma StartsInside()
    ensures var seg := ProgramSegment(0x800, 4, [7], 1, 1, false);
            var s := Create(Small(4), 0, 1, 0, Plans([seg], ZeroBlock(), []), ZeroBlock());
            Inv(s) && !HasPage(s, 0, seg, 0)
  {
    var seg := ProgramSegment(0x800, 4, [7], 1, 1, false);
    assert !RepeatsAt(seg, 4);
    assert Misplaced(seg) && FirstWord(seg) == 1 && !Repeats(seg);
    hide Inv, HasPage, Create, Small, Plans, Repeats;
    TinyCreated(seg, ZeroBlock());
  }

  // ---------- no disk frame left ----------

  /** An environment without segments, in a machine with one disk frame: its stack page takes it. */
  ghost function Full(): State { Create(Small(1), 0, 1, 0, [], ZeroBlock()) }

  lemma FullIs()
    ensures Inv(Full()) && 0 in Full().envs && Full().dfree == [] && |Full().m.free| > 0 && Full().envs[0].ddir != 0
    ensures forall v: Vpn :: v != STACK_PAGE ==> (Swap(0), v) !in Full().m.leaf
  {
    FullIsCreated();
    hide *;
    var s, s' := Small(1), Create(Small(1), 0, 1, 0, [], ZeroBlock());
    NothingToLoad();
    EmptyFits();
    SmallAgrees(1);
    BlankSize();
    CreateInv(s, 0, 1, 0, [], ZeroBlock(), map[]);
    CreateTakes(s, 0, 1, 0, [], ZeroBlock());
    SmallDisk();
    StackTakesAll(s, s');
    FullFrames(s, s');
  }

  lemma FullIsCreated()
    ensures Full() == Create(Small(1), 0, 1, 0, [], ZeroBlock())
  {
    hide Create, Small;
  }

  lemma BlankSize()
    ensures |ZeroBlock()| == NPTENTRIES
  {
  }

  lemma FullFrames(s: State, s': State)
    requires Takes(s, s', 0, 5, 1) && |s.m.free| >= 157
    ensures |s'.m.free| > 0
  {
  }

  lemma NothingToLoad()
    ensures Steps([], 0) == [] && ProgramOk([]) && Covered([]) && FileImage([]) == map[]
  {
  }

  lemma EmptyFits()
    ensures Inv(Small(1)) && RoomToCreate(Small(1), 0, 1, 0, [])
  {
    hide Inv, RoomToCreate;
    CreatesAfterBoot(IO_HOLE_END, IO_HOLE_END, Copies(ZeroBlock(), 2), 0, 1, 0, []);
  }

  lemma SmallDisk()
    ensures Small(1).disk.Keys == {Decode(1)} && |Small(1).m.free| >= 157
  {
    hide Decode;
    DescendingAt(IO_HOLE_END, IO_HOLE_END);
    DescendingAt(3, IO_HOLE);
    hide Descending;
    var file := Copies(ZeroBlock(), 2);
    assert DiskContents(file, 1) == map[];
    assert DiskContents(file, 2) == map[][Decode(1) := file[1]];
  }

  lemma StackTakesAll(s: State, s': State)
    requires Inv(s') && OthersKept(s, s', 0) && s.disk.Keys == {Decode(1)} && 0 in s'.envs
    requires InPf(s', 0, map[STACK_PAGE := ZeroBlock()])
    ensures s'.dfree == [] && s'.envs[0].ddir != 0
    ensures forall v: Vpn :: v != STACK_PAGE ==> (Swap(0), v) !in s'.m.leaf
  {
    assert EnvInv(s', 0);
    hide Decode, WS.EnvOk, Linked, MemOk, Injective, Blocks, OwnerEnv;
    HasMember(s'.dfree);
    assert (Swap(0), STACK_PAGE) in s'.m.leaf;
  }

  lemma HasMember(q: seq<Word>)
    ensures q != [] ==> exists w :: w in q
  {
    if q != [] {
      assert q[0] in q;
    }
  }

  /** malloc of one page there returns a block without a page in the page file. */
  lemma OutOfDiskFrames()
    ensures var q', last := [Heap.Entry(Heap.USER_HEAP_START, 1, true)], Heap.USER_HEAP_START;
            && Heap.Ok([], last) && Heap.Mallocs([], last, 0, 4096, q', last + 4096, last)
            && HeapPages.Backed([], Full().m.leaf, 0)
            && !HeapPages.Backed(q', AllocRange(Full(), 0, last / 4096, 1).m.leaf, 0)
  {
    hide Inv, Full, OthersKept, Agrees, Heap.Ok, HeapPages.Backed, Heap.Mallocs, AllocRange, Missing;
    var last := Heap.USER_HEAP_START;
    var q' := [Heap.Entry(last, 1, true)];
    FullIs();
    FirstBlock(q');
    NoAgreement(Full());
    OneMissing(Full(), 0, last / 4096);
    HeapPages.MallocBackedIff([], last, 0, 4096, q', last + 4096, last, Full(), 0, map[]);
  }

  lemma NoAgreement(s: State)
    ensures Agrees(s, map[])
  {
  }

  /** malloc of one page in an empty heap. */
  lemma FirstBlock(q': seq<Heap.Entry>)
    requires q' == [Heap.Entry(Heap.USER_HEAP_START, 1, true)]
    ensures var last := Heap.USER_HEAP_START;
            && Heap.Ok([], last) && Heap.AllLive([]) && Heap.Live([]) == {} && PagesFor(4096) == 1
            && Heap.Mallocs([], last, 0, 4096, q', last + 4096, last) && Heap.Proper([], last, 0, 4096)
            && !Heap.Refused([], last, 0, 4096)
    ensures forall leaf, e :: HeapPages.Backed([], leaf, e)
  {
  }

  lemma OneMissing(s: State, e: nat, p: nat)
    requires e in s.envs && s.envs[e].ddir != 0 && s.m.free != []
    requires forall v: Vpn :: v != STACK_PAGE ==> (Swap(e), v) !in s.m.leaf
    requires p == 0x8_0000
    ensures Missing(s.m.leaf, e, p, 1) == 1 && RoomForRange(s, e, p, 1)
  {
    assert Missing(s.m.leaf, e, p, 0) == 0 && AllocRange(s, e, p, 0) == s && RoomForRange(s, e, p, 0);
    assert Nth(p + 1 - 1) != STACK_PAGE;
  }
}

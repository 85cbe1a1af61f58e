/** The imperative half of kern/memory_manager.c: reference counts, the free list, and page
    directories and tables kept as words in physical frames. */
module Memory {
  import opened Seqs
  import opened Mmu
  import opened FrameTable
  import opened FrameDemand

  /** The word in directory entry d of space sp. */
  ghost function DirWord(own: map<Owner, Frame>, sp: Space, d: nat): Word {
    if Table(sp, d) in own then TableEntry(sp.Ram?, own[Table(sp, d)]) else ZERO
  }

  /** Page tables are entered with PERM_PRESENT | PERM_USER | PERM_WRITEABLE, tables of the page
      file with PERM_PRESENT. */
  function TableEntry(inRam: bool, f: Frame): Word {
    if inRam then Construct(f) else ZERO.(present := true, frame := f)
  }

  ghost function LeafWord(leaf: map<(Space, Vpn), Word>, sp: Space, v: Vpn): Word {
    if (sp, v) in leaf then leaf[(sp, v)] else ZERO
  }

  /** The words in the frames are the two-level tables: every directory entry is 0 or points at its
      table, and every table entry is the entry of its page. */
  ghost predicate WordsOk(mem: seq<Block>, own: map<Owner, Frame>, leaf: map<(Space, Vpn), Word>) {
    && (forall f :: 0 <= f < |mem| ==> |mem[f]| == NPTENTRIES)
    && (forall o :: o in own ==> own[o] < |mem|)
    && (forall sp, d :: Dir(sp) in own && 0 <= d < USER_PDX ==> mem[own[Dir(sp)]][d] == DirWord(own, sp, d))
    && (forall sp, d: nat, t :: Table(sp, d) in own && 0 <= t < NPTENTRIES ==>
          mem[own[Table(sp, d)]][t] == LeafWord(leaf, sp, Vpn(d, t)))
  }

  /** Writing one entry of a table changes one page's entry. */
  lemma WriteLeafOk(mem: seq<Block>, own: map<Owner, Frame>, leaf: map<(Space, Vpn), Word>,
                    leaf': map<(Space, Vpn), Word>, sp: Space, v: Vpn, w: Word)
    requires WordsOk(mem, own, leaf) && Exclusive(own)
    requires Table(sp, v.d) in own && v.t < NPTENTRIES
    requires leaf' == if w == ZERO then leaf - {(sp, v)} else leaf[(sp, v) := w]
    ensures var f := own[Table(sp, v.d)]; WordsOk(mem[f := mem[f][v.t := w]], own, leaf')
  {
    var f := own[Table(sp, v.d)];
    var mem' := mem[f := mem[f][v.t := w]];
    forall sp1, d1: nat, t1 | Table(sp1, d1) in own && 0 <= t1 < NPTENTRIES
      ensures mem'[own[Table(sp1, d1)]][t1] == LeafWord(leaf', sp1, Vpn(d1, t1))
    {
      if own[Table(sp1, d1)] == f {
        assert Table(sp1, d1) == Table(sp, v.d);
      }
    }
    forall sp1, d1 | Dir(sp1) in own && 0 <= d1 < USER_PDX
      ensures mem'[own[Dir(sp1)]][d1] == DirWord(own, sp1, d1)
    {
      assert own[Dir(sp1)] != f;
    }
  }

  /** Writing a frame that holds no directory and no table changes no entry. */
  lemma WriteDataOk(mem: seq<Block>, own: map<Owner, Frame>, leaf: map<(Space, Vpn), Word>, f: Frame, b: Block)
    requires WordsOk(mem, own, leaf) && f < |mem| && |b| == NPTENTRIES
    requires forall o :: o in own && own[o] == f ==> o.Page?
    ensures WordsOk(mem[f := b], own, leaf)
  {
    var mem' := mem[f := b];
    forall sp, d: nat | Table(sp, d) in own ensures own[Table(sp, d)] != f {
      assert !Table(sp, d).Page?;
    }
    forall sp | Dir(sp) in own ensures own[Dir(sp)] != f {
      assert !Dir(sp).Page?;
    }
  }

  /** A zeroed frame entered in a directory is an empty table. */
  lemma NewTableOk(mem: seq<Block>, own: map<Owner, Frame>, leaf: map<(Space, Vpn), Word>, sp: Space, d: nat, f: Frame)
    requires WordsOk(mem, own, leaf) && Exclusive(own)
    requires Dir(sp) in own && d < USER_PDX && Table(sp, d) !in own && f < |mem| && f !in own.Values
    requires forall k :: k in leaf ==> Table(k.0, k.1.d) in own
    ensures var x := own[Dir(sp)];
            WordsOk(mem[x := mem[x][d := TableEntry(sp.Ram?, f)]][f := ZeroBlock()], own[Table(sp, d) := f], leaf)
  {
    var x := own[Dir(sp)];
    var mem' := mem[x := mem[x][d := TableEntry(sp.Ram?, f)]][f := ZeroBlock()];
    var own' := own[Table(sp, d) := f];
    forall o | o in own ensures own[o] != f {
      assert own[o] in own.Values;
    }
    forall sp1, d1 | Dir(sp1) in own' && 0 <= d1 < USER_PDX
      ensures mem'[own'[Dir(sp1)]][d1] == DirWord(own', sp1, d1)
    {
      if own[Dir(sp1)] == x { assert Dir(sp1) == Dir(sp); }
    }
    forall sp1, d1: nat, t1 | Table(sp1, d1) in own' && 0 <= t1 < NPTENTRIES
      ensures mem'[own'[Table(sp1, d1)]][t1] == LeafWord(leaf, sp1, Vpn(d1, t1))
    {
      if Table(sp1, d1) != Table(sp, d) {
        assert own[Table(sp1, d1)] != x;
      }
    }
  }

  /** A use that is not a directory or a table does not affect the tables. */
  lemma PageUseOk(mem: seq<Block>, own: map<Owner, Frame>, own': map<Owner, Frame>, leaf: map<(Space, Vpn), Word>)
    requires WordsOk(mem, own, leaf)
    requires forall o :: o in own' ==> own'[o] < |mem|
    requires forall o: Owner :: !o.Page? ==> (o in own <==> o in own') && (o in own ==> own[o] == own'[o])
    ensures WordsOk(mem, own', leaf)
  {
    forall sp, d | Dir(sp) in own' && 0 <= d < USER_PDX ensures mem[own'[Dir(sp)]][d] == DirWord(own', sp, d) {
      assert Dir(sp) in own && own[Dir(sp)] == own'[Dir(sp)];
      assert Table(sp, d) in own <==> Table(sp, d) in own';
    }
    forall sp, d: nat, t | Table(sp, d) in own' && 0 <= t < NPTENTRIES
      ensures mem[own'[Table(sp, d)]][t] == LeafWord(leaf, sp, Vpn(d, t))
    {
      assert Table(sp, d) in own && own[Table(sp, d)] == own'[Table(sp, d)];
    }
  }

  /** What the processor asks of an entry on the way of a user access that may write (section 4.6 of the Intel SDM,
      Volume 3A). */
  predicate UserBits(w: Word) { w.present && w.writeable && w.user }

  /** From directory x, both entries on the way to page v let the user through, and f is the frame at the end. */
  predicate Reaches(mem: seq<Block>, x: Frame, v: Vpn, f: Frame) {
    && x < |mem| && v.d < |mem[x]| && UserBits(mem[x][v.d])
    && var tbl := mem[x][v.d].frame;
       tbl < |mem| && v.t < |mem[tbl]| && UserBits(mem[tbl][v.t]) && mem[tbl][v.t].frame == f
  }

  /** Every directory entry, bit by bit: a page table is entered PRESENT, writeable and the user's, a table of the
      page file PRESENT only, with no other bit set; an entry without a table is 0. */
  lemma TableBits(mem: seq<Block>, own: map<Owner, Frame>, leaf: map<(Space, Vpn), Word>, sp: Space, d: nat)
    requires WordsOk(mem, own, leaf) && Dir(sp) in own && d < USER_PDX
    ensures own[Dir(sp)] < |mem| && d < |mem[own[Dir(sp)]]|
    ensures var w := mem[own[Dir(sp)]][d];
            if Table(sp, d) in own then
              && w.frame == own[Table(sp, d)] && w.present && (w.writeable <==> sp.Ram?) && (w.user <==> sp.Ram?)
              && !w.pwt && !w.pcd && !w.used && !w.modified && w.hi == 0
            else !w.present && w == ZERO
  {
  }

  /** A user access gets through if and only if the page's entry lets it, and ends at the frame of that entry. */
  lemma ReachesIff(mem: seq<Block>, m: Mem, e: nat, v: Vpn, f: Frame)
    requires MemOk(m) && WordsOk(mem, m.own, m.leaf) && Dir(Ram(e)) in m.own && UserPage(v)
    ensures Reaches(mem, m.own[Dir(Ram(e))], v, f) <==>
              UserBits(Entry(m, Ram(e), v)) && Entry(m, Ram(e), v).frame == f
  {
    TableBits(mem, m.own, m.leaf, Ram(e), v.d);
    BlockLengths(mem, m.own, m.leaf);
    assert (Ram(e), v) in m.leaf ==> Table(Ram(e), v.d) in m.own;
    if Table(Ram(e), v.d) in m.own {
      assert mem[m.own[Table(Ram(e), v.d)]][v.t] == LeafWord(m.leaf, Ram(e), Vpn(v.d, v.t));
    }
  }

  // ---------- the kernel's half of the page directories ----------

  /** Through these two addresses the kernel and the user see their own page tables (inc/memlayout.h). */
  const VPT: nat := 0xEFC0_0000
  const UVPT: nat := 0xEF40_0000

  /** Entry d of directory x behind the user's: the kernel's, but for the two that point at the directory itself. */
  function HalfWord(kernelDir: Block, x: Frame, d: nat): Word
    requires d < |kernelDir|
  {
    if d == Pdx(VPT) then ZERO.(present := true, writeable := true, frame := x)
    else if d == Pdx(UVPT) then ZERO.(present := true, user := true, frame := x)
    else kernelDir[d]
  }

  /** What initialize_environment and complete_environment_initialization make of a directory. */
  function SelfMapped(init: Block, x: Frame): Block
    requires |init| == NPTENTRIES
  {
    init[Pdx(VPT) := ZERO.(present := true, writeable := true, frame := x)]
        [Pdx(UVPT) := ZERO.(present := true, user := true, frame := x)]
  }

  predicate HalfAt(mem: seq<Block>, x: Frame, kernelDir: Block) {
    && x < |mem| && |mem[x]| == |kernelDir| == NPTENTRIES
    && forall d :: USER_PDX <= d < NPTENTRIES ==> mem[x][d] == HalfWord(kernelDir, x, d)
  }

  /** Address by address: from USER_TOP on a page directory has the entries of ptr_page_directory, except that in
      the four megabytes at 0xEFC00000 and at 0xEF400000 it has itself for a page table, PRESENT and writeable for
      the kernel there, PRESENT and readable for the user here. */
  lemma KernelEntries(mem: seq<Block>, own: map<Owner, Frame>, kernelDir: Block, e: nat, va: nat)
    requires KernelHalf(mem, own, kernelDir) && Dir(Ram(e)) in own && 0xEEC0_0000 <= va < 0x1_0000_0000
    ensures own[Dir(Ram(e))] < |mem| && va / 0x40_0000 < |mem[own[Dir(Ram(e))]]| == |kernelDir|
    ensures var x := own[Dir(Ram(e))];
            var w := mem[x][va / 0x40_0000];
            if 0xEFC0_0000 <= va < 0xF000_0000 then w == Word(true, true, false, false, false, false, false, 0, x)
            else if 0xEF40_0000 <= va < 0xEF80_0000 then w == Word(true, false, true, false, false, false, false, 0, x)
            else w == kernelDir[va / 0x40_0000]
  {
    assert HalfAt(mem, own[Dir(Ram(e))], kernelDir);
  }

  /** The word the processor reads at address va, from directory x. */
  function Fetch(mem: seq<Block>, x: Frame, va: nat): Word {
    At(mem, At(mem, At(mem, x, Pdx(va)).frame, Ptx(va)).frame, PgOff(va) / 4)
  }

  function At(mem: seq<Block>, f: Frame, i: nat): Word {
    if f < |mem| && i < |mem[f]| then mem[f][i] else ZERO
  }

  /** What the user finds at UVPT: word p of the four megabytes there is the entry of page p of its own memory. */
  lemma SelfMap(mem: seq<Block>, m: Mem, kernelDir: Block, e: nat, v: Vpn)
    requires MemOk(m) && WordsOk(mem, m.own, m.leaf) && KernelHalf(mem, m.own, kernelDir)
    requires Table(Ram(e), v.d) in m.own && v.t < NPTENTRIES
    ensures Dir(Ram(e)) in m.own
    ensures Fetch(mem, m.own[Dir(Ram(e))], 0xEF40_0000 + 4 * Number(v)) == Entry(m, Ram(e), v)
  {
    MemParts(m);
    var x, va := m.own[Dir(Ram(e))], 0xEF40_0000 + 4 * Number(v);
    SelfAddress(v);
    KernelEntries(mem, m.own, kernelDir, e, va);
    TableBits(mem, m.own, m.leaf, Ram(e), v.d);
    BlockLengths(mem, m.own, m.leaf);
    assert mem[m.own[Table(Ram(e), v.d)]][v.t] == LeafWord(m.leaf, Ram(e), Vpn(v.d, v.t));
    hide MemOk, WordsOk, KernelHalf;
  }

  lemma SelfAddress(v: Vpn)
    requires v.d < 1024 && v.t < 1024
    ensures var va := 0xEF40_0000 + 4 * Number(v);
            && 0xEF40_0000 <= va < 0xEF80_0000 && Pdx(va) == va / 0x40_0000 && Ptx(va) == v.d && PgOff(va) / 4 == v.t
  {
    var va := 0xEF40_0000 + 4 * Number(v);
    assert va == PgAddr(957, v.d, 4 * v.t);
    AddressFields(957, v.d, 4 * v.t);
    assert va / 0x40_0000 < 1024;
    hide *;
  }

  /** ... in every page directory. */
  ghost predicate KernelHalf(mem: seq<Block>, own: map<Owner, Frame>, kernelDir: Block) {
    |kernelDir| == NPTENTRIES && forall e :: Dir(Ram(e)) in own ==> HalfAt(mem, own[Dir(Ram(e))], kernelDir)
  }

  /** Writing a user's entry of a directory, or a frame that is no page directory, leaves them alone. */
  lemma HalfEntry(mem: seq<Block>, own: map<Owner, Frame>, kernelDir: Block, x: Frame, d: nat, w: Word)
    requires KernelHalf(mem, own, kernelDir) && x < |mem| && d < |mem[x]| && d < USER_PDX
    ensures KernelHalf(mem[x := mem[x][d := w]], own, kernelDir)
  {
  }

  lemma HalfFrame(mem: seq<Block>, own: map<Owner, Frame>, kernelDir: Block, f: Frame, b: Block)
    requires KernelHalf(mem, own, kernelDir) && f < |mem| && forall o :: o in own && own[o] == f ==> !o.Dir?
    ensures KernelHalf(mem[f := b], own, kernelDir)
  {
    forall e | Dir(Ram(e)) in own ensures own[Dir(Ram(e))] != f {
      assert Dir(Ram(e)).Dir?;
    }
  }

  lemma NewHalf(mem: seq<Block>, own: map<Owner, Frame>, kernelDir: Block, init: Block, sp: Space, x: Frame)
    requires KernelHalf(mem, own, kernelDir) && x < |mem| && x !in own.Values && |init| == NPTENTRIES
    requires sp.Ram? ==> forall d :: USER_PDX <= d < NPTENTRIES ==> init[d] == kernelDir[d]
    ensures KernelHalf(mem[x := if sp.Ram? then SelfMapped(init, x) else init], own[Dir(sp) := x], kernelDir)
  {
    assert forall o :: o in own ==> own[o] in own.Values;
    HalfFrame(mem, own, kernelDir, x, if sp.Ram? then SelfMapped(init, x) else init);
  }

  /** The user's entries are not among those. */
  lemma SelfMappedUser(init: Block, x: Frame)
    requires |init| == NPTENTRIES
    ensures |SelfMapped(init, x)| == NPTENTRIES && forall d :: 0 <= d < USER_PDX ==> SelfMapped(init, x)[d] == init[d]
  {
  }

  /** A new table, entered in a directory. */
  lemma NewTableHalf(mem: seq<Block>, own: map<Owner, Frame>, kernelDir: Block, x: Frame, sp: Space, d: nat, w: Word,
                     f: Frame)
    requires KernelHalf(mem, own, kernelDir) && x < |mem| && d < |mem[x]| && d < USER_PDX
    requires f < |mem| && f !in own.Values
    ensures KernelHalf(mem[x := mem[x][d := w]][f := ZeroBlock()], own[Table(sp, d) := f], kernelDir)
  {
    hide KernelHalf;
    assert forall o :: o in own ==> own[o] in own.Values;
    HalfEntry(mem, own, kernelDir, x, d, w);
    HalfFrame(mem[x := mem[x][d := w]], own, kernelDir, f, ZeroBlock());
    HalfOwn(mem[x := mem[x][d := w]][f := ZeroBlock()], own, own[Table(sp, d) := f], kernelDir);
  }

  /** No other directories. */
  lemma HalfOwn(mem: seq<Block>, own: map<Owner, Frame>, own': map<Owner, Frame>, kernelDir: Block)
    requires KernelHalf(mem, own, kernelDir)
    requires forall e :: Dir(Ram(e)) in own' ==> Dir(Ram(e)) in own && own'[Dir(Ram(e))] == own[Dir(Ram(e))]
    ensures KernelHalf(mem, own', kernelDir)
  {
    hide HalfAt;
  }

  lemma EntryHalf(mem: seq<Block>, own: map<Owner, Frame>, kernelDir: Block, sp: Space, v: Vpn, w: Word)
    requires KernelHalf(mem, own, kernelDir) && Exclusive(own) && Table(sp, v.d) in own
    requires own[Table(sp, v.d)] < |mem| && v.t < |mem[own[Table(sp, v.d)]]|
    ensures var t := own[Table(sp, v.d)]; KernelHalf(mem[t := mem[t][v.t := w]], own, kernelDir)
  {
    TableIsNoDir(own, sp, v.d);
    HalfFrame(mem, own, kernelDir, own[Table(sp, v.d)], mem[own[Table(sp, v.d)]][v.t := w]);
  }

  /** A table is no directory. */
  lemma TableIsNoDir(own: map<Owner, Frame>, sp: Space, d: nat)
    requires Exclusive(own) && Table(sp, d) in own
    ensures forall o :: o in own && own[o] == own[Table(sp, d)] ==> !o.Dir?
  {
  }

  lemma BlockLengths(mem: seq<Block>, own: map<Owner, Frame>, leaf: map<(Space, Vpn), Word>)
    requires WordsOk(mem, own, leaf)
    ensures forall f :: 0 <= f < |mem| ==> |mem[f]| == NPTENTRIES
    ensures forall o :: o in own ==> own[o] < |mem|
  {
  }

  lemma EnterWordsOk(mem: seq<Block>, m: Mem, e: nat, v: Vpn, f: Frame)
    requires MemOk(m) && WordsOk(mem, m.own, m.leaf) && f < |m.refs| == |mem|
    requires Table(Ram(e), v.d) in m.own && v.t < NPTENTRIES
    ensures var t, m' := m.own[Table(Ram(e), v.d)], Enter(m, e, v, f);
            WordsOk(mem[t := mem[t][v.t := Construct(f)]], m'.own, m'.leaf)
  {
    var t, m' := m.own[Table(Ram(e), v.d)], Enter(m, e, v, f);
    WriteLeafOk(mem, m.own, m.leaf, m'.leaf, Ram(e), v, Construct(f));
    PageUseOk(mem[t := mem[t][v.t := Construct(f)]], m.own, m'.own, m'.leaf);
  }

  lemma DirectoryAllocated(m: Mem)
    requires MemOk(m) && m.free != []
    ensures MemOk(Alloc(m)) && m.free[0] in Alloc(m).limbo && m.free[0] < |m.refs| && Alloc(m).own == m.own
  {
    AllocOk(m);
  }

  lemma NewDirectoryOk(mem: seq<Block>, m: Mem, init: Block, sp: Space, x: Frame)
    requires MemOk(m) && WordsOk(mem, m.own, m.leaf) && x < |mem| && x in m.limbo && Dir(sp) !in m.own
    requires |init| == NPTENTRIES && forall d :: 0 <= d < USER_PDX ==> init[d] == ZERO
    ensures WordsOk(mem[x := init], m.own[Dir(sp) := x], m.leaf)
  {
    CountZero(m.own, x);
    WriteDataOk(mem, m.own, m.leaf, x, init);
    var mem', own' := mem[x := init], m.own[Dir(sp) := x];
    forall sp1, d | Dir(sp1) in own' && 0 <= d < USER_PDX ensures mem'[own'[Dir(sp1)]][d] == DirWord(own', sp1, d) {
      if sp1 == sp {
        assert Table(sp, d) !in m.own;
      }
    }
  }

  lemma FewerDirsOk(mem: seq<Block>, own: map<Owner, Frame>, leaf: map<(Space, Vpn), Word>, sp: Space)
    requires WordsOk(mem, own, leaf)
    ensures WordsOk(mem, own - {Dir(sp)}, leaf)
  {
    var own' := own - {Dir(sp)};
    forall sp1, d | Dir(sp1) in own' && 0 <= d < USER_PDX ensures mem[own'[Dir(sp1)]][d] == DirWord(own', sp1, d) {
      assert Dir(sp1) in own && mem[own[Dir(sp1)]][d] == DirWord(own, sp1, d);
    }
  }

  /** Dropping a table whose space has no directory left, and no entries in it. */
  lemma FewerTablesOk(mem: seq<Block>, own: map<Owner, Frame>, leaf: map<(Space, Vpn), Word>, o: Owner)
    requires WordsOk(mem, own, leaf) && o.Table? && Dir(o.sp) !in own
    ensures WordsOk(mem, own - {o}, leaf)
  {
    var own' := own - {o};
    forall sp, d | Dir(sp) in own' && 0 <= d < USER_PDX ensures mem[own'[Dir(sp)]][d] == DirWord(own', sp, d) {
      assert Dir(sp) in own && mem[own[Dir(sp)]][d] == DirWord(own, sp, d);
    }
  }

  lemma TableAddress(d: nat)
    requires d < USER_PDX
    ensures PageOf(d * 0x400000).d == d
  {
  }

  lemma PageAddress(p: nat)
    requires p < USER_PDX * 1024
    ensures PageOf(p * 4096) == Nth(p) && UserPage(Nth(p))
  {
    AddressRoundTrip(p * 4096);
  }

  /** The first loop of calculate_required_frames stops just past the last table of the range. */
  lemma TableLoopEnd(start: nat, size: nat, d: nat)
    requires d * 0x400000 >= start + size && d >= start / 4096 / 1024
    requires d == start / 4096 / 1024 || (d - 1) * 0x400000 < start + size
    ensures var lo, hi := start / 4096, PagesFor(start + size);
            d == TablesUpTo(hi) || (d == lo / 1024 && TablesUpTo(hi) <= d)
  {
    var hi := PagesFor(start + size);
    assert hi <= d * 1024;
  }

  lemma PageLoopEnd(start: nat, size: nat, p: nat)
    requires p * 4096 >= start + size && p >= start / 4096
    requires p == start / 4096 || (p - 1) * 4096 < start + size
    ensures var hi := PagesFor(start + size); p == hi || (p == start / 4096 && hi <= p)
  {
  }

  /** m with entry w at page v of sp. */
  function WithEntry(m: Mem, sp: Space, v: Vpn, w: Word): Mem {
    m.(leaf := if w == ZERO then m.leaf - {(sp, v)} else m.leaf[(sp, v) := w])
  }

  lemma DiskEntryOk(m: Mem, e: nat, v: Vpn, w: Word)
    requires MemOk(m) && Table(Swap(e), v.d) in m.own && v.t < NPTENTRIES
    ensures MemOk(WithEntry(m, Swap(e), v, w))
  {
    var m' := WithEntry(m, Swap(e), v, w);
    assert forall e1, u :: (Ram(e1), u) in m'.leaf <==> (Ram(e1), u) in m.leaf;
  }

  lemma DropWordsOk(mem: seq<Block>, own: map<Owner, Frame>, leaf: map<(Space, Vpn), Word>, sp: Space, d: nat)
    requires WordsOk(mem, own, leaf) && Exclusive(own) && Dir(sp) in own && d < USER_PDX && Table(sp, d) in own
    ensures var x := own[Dir(sp)]; WordsOk(mem[x := mem[x][d := ZERO]], own - {Table(sp, d)}, leaf)
    ensures mem[own[Dir(sp)]][d].frame == own[Table(sp, d)]
  {
    var x, own' := own[Dir(sp)], own - {Table(sp, d)};
    var mem' := mem[x := mem[x][d := ZERO]];
    forall sp1, d1 | Dir(sp1) in own' && 0 <= d1 < USER_PDX ensures mem'[own'[Dir(sp1)]][d1] == DirWord(own', sp1, d1) {
      assert Dir(sp1) in own && mem[own[Dir(sp1)]][d1] == DirWord(own, sp1, d1);
      if own[Dir(sp1)] == x { assert Dir(sp1) == Dir(sp); }
    }
    forall sp1, d1: nat, t1 | Table(sp1, d1) in own' && 0 <= t1 < NPTENTRIES
      ensures mem'[own'[Table(sp1, d1)]][t1] == LeafWord(leaf, sp1, Vpn(d1, t1))
    {
      assert Table(sp1, d1) in own && own[Table(sp1, d1)] != x;
    }
  }

  lemma NothingExcept(leaf: map<(Space, Vpn), Word>, sp: Space, d: nat)
    requires forall v :: (sp, v) in leaf ==> v.d != d
    ensures LeavesExcept(leaf, sp, d) == leaf
  {
    assert forall k: (Space, Vpn) :: k.0 == sp ==> k == (sp, k.1);
  }

  /** The scan over a table stops at its first entry. */
  lemma RowEmpty(m: Mem, mem: seq<Block>, e: nat, d: nat, j: nat)
    requires KeysOk(m) && WordsOk(mem, m.own, m.leaf) && Table(Ram(e), d) in m.own && j <= NPTENTRIES
    requires forall t :: 0 <= t < j ==> mem[m.own[Table(Ram(e), d)]][t] == ZERO
    requires j < NPTENTRIES ==> mem[m.own[Table(Ram(e), d)]][j] != ZERO
    ensures EmptyTable(m, e, d) <==> j == NPTENTRIES
  {
    var tbl := m.own[Table(Ram(e), d)];
    if j < NPTENTRIES {
      assert mem[tbl][j] == LeafWord(m.leaf, Ram(e), Vpn(d, j));
    } else {
      forall t: nat | t < NPTENTRIES ensures LeafWord(m.leaf, Ram(e), Vpn(d, t)) == ZERO {
        assert mem[tbl][t] == LeafWord(m.leaf, Ram(e), Vpn(d, t));
      }
      assert forall k: (Space, Vpn) :: k.0 == Ram(e) && k.1.d == d ==> k == (Ram(e), Vpn(d, k.1.t));
    }
  }

  lemma DropDirOk(m: Mem, e: nat)
    requires MemOk(m) && Dir(Swap(e)) in m.own && forall d: nat :: Table(Swap(e), d) !in m.own
    ensures MemOk(Release(m, Dir(Swap(e)))) && InUse(m, Dir(Swap(e)))
    ensures Release(m, Dir(Swap(e))).own == m.own - {Dir(Swap(e))}
  {
    SingleUse(m, Dir(Swap(e)));
    ReleaseOk(m, Dir(Swap(e)));
    var m' := Release(m, Dir(Swap(e)));
    assert forall e1, v :: Page(e1, v) in m'.own <==> Page(e1, v) in m.own;
  }

  /** Frame f has bytes from physical address lo on, below hi. */
  predicate Overlaps(f: Frame, lo: nat, hi: nat) {
    f * 4096 < hi && lo < f * 4096 + 4096 && lo < hi
  }

  /** PHYS_IO_MEM / PAGE_SIZE and PHYS_EXTENDED_MEM / PAGE_SIZE. */
  const IO_HOLE: nat := 160
  const IO_HOLE_END: nat := 256

  /** The frames initialize_paging does not put on the free list. */
  predicate SetAside(f: Frame, kernelEnd: nat) {
    f < 3 || IO_HOLE <= f < kernelEnd
  }

  /** In physical addresses: the frames set aside are the first three, those of the I/O hole, and those of the kernel,
      which lies behind it and ends before kernelLimit. */
  lemma SetAsideIs(f: Frame, kernelLimit: nat)
    requires kernelLimit >= 0x10_0000
    ensures SetAside(f, PagesFor(kernelLimit)) <==>
              f < 3 || Overlaps(f, 0xA_0000, 0x10_0000) || Overlaps(f, 0x10_0000, kernelLimit)
    ensures PagesFor(kernelLimit) >= IO_HOLE_END
  {
  }

  /** to - 1, ..., from */
  function Descending(from: nat, to: nat): seq<Frame>
    requires from <= to
  {
    if from == to then [] else [to - 1] + Descending(from, to - 1)
  }

  lemma {:induction false} DescendingIs(from: nat, to: nat)
    requires from <= to
    ensures forall f: Frame :: f in Descending(from, to) <==> from <= f < to
    ensures Distinct(Descending(from, to))
  {
    if from < to {
      DescendingIs(from, to - 1);
      var q := Descending(from, to - 1);
      assert forall i :: 0 <= i < |q| ==> q[i] in q;
    }
  }

  /** The uses of the frames set aside. */
  ghost function BootOwn(n: nat, kernelEnd: nat): map<Owner, Frame> {
    map f: Frame | f < n && SetAside(f, kernelEnd) :: Boot(f) := f
  }

  lemma BootUsers(n: nat, kernelEnd: nat, f: Frame)
    requires f < n
    ensures Count(BootOwn(n, kernelEnd), f) == if SetAside(f, kernelEnd) then 1 else 0
  {
    if SetAside(f, kernelEnd) {
      assert Users(BootOwn(n, kernelEnd), f) == {Boot(f)};
    } else {
      assert Users(BootOwn(n, kernelEnd), f) == {};
    }
  }

  lemma BootFree(kernelEnd: nat, n: nat)
    requires IO_HOLE_END <= kernelEnd <= n
    ensures var free := Descending(kernelEnd, n) + Descending(3, IO_HOLE);
            Distinct(free) && forall f: Frame :: f in free <==> f < n && !SetAside(f, kernelEnd)
  {
    DescendingIs(kernelEnd, n);
    DescendingIs(3, IO_HOLE);
    hide Descending;
    DistinctConcat(Descending(kernelEnd, n), Descending(3, IO_HOLE));
  }

  /** The free list starts with the highest frame. */
  lemma BootOrder(kernelEnd: nat, n: nat)
    requires IO_HOLE_END <= kernelEnd <= n
    ensures var free := Descending(kernelEnd, n) + Descending(3, IO_HOLE);
            forall i, j :: 0 <= i < j < |free| ==> free[i] > free[j]
  {
    DescendingAt(kernelEnd, n);
    DescendingAt(3, IO_HOLE);
    hide Descending;
  }

  lemma {:induction false} DescendingAt(from: nat, to: nat)
    requires from <= to
    ensures |Descending(from, to)| == to - from
    ensures forall i :: 0 <= i < to - from ==> Descending(from, to)[i] == to - 1 - i
  {
    if from < to {
      DescendingAt(from, to - 1);
    }
  }

  lemma DistinctConcat(a: seq<Frame>, b: seq<Frame>)
    requires Distinct(a) && Distinct(b) && forall f :: f in a ==> f !in b
    ensures Distinct(a + b) && forall f: Frame :: f in a + b <==> f in a || f in b
  {
    assert forall i :: 0 <= i < |a| ==> a[i] in a;
    assert forall i :: 0 <= i < |b| ==> b[i] in b;
  }

  /** What initialize_paging leaves is in order. */
  lemma BootOk(refs: seq<nat>, free: seq<Frame>, kernelEnd: nat, n: nat)
    requires IO_HOLE_END <= kernelEnd <= n == |refs|
    requires free == Descending(kernelEnd, n) + Descending(3, IO_HOLE)
    requires forall f :: 0 <= f < n ==> refs[f] == if SetAside(f, kernelEnd) then 1 else 0
    ensures MemOk(Mem(refs, free, BootOwn(n, kernelEnd), map[], {}))
    ensures forall f: Frame :: f in free <==> f < n && !SetAside(f, kernelEnd)
  {
    BootFree(kernelEnd, n);
    forall f | 0 <= f < n ensures refs[f] == Count(BootOwn(n, kernelEnd), f) {
      BootUsers(n, kernelEnd, f);
    }
  }

  function BootRefs(n: nat, kernelEnd: nat): seq<nat> {
    seq(n, f requires 0 <= f < n => if SetAside(f, kernelEnd) then 1 else 0)
  }

  /** Memory as initialize_paging leaves it. */
  ghost function BootMem(n: nat, kernelEnd: nat): Mem
    requires IO_HOLE_END <= kernelEnd <= n
  {
    Mem(BootRefs(n, kernelEnd), Descending(kernelEnd, n) + Descending(3, IO_HOLE), BootOwn(n, kernelEnd), map[], {})
  }

  lemma BootWords(mem: seq<Block>, n: nat, kernelEnd: nat)
    requires n == |mem| && forall f :: 0 <= f < n ==> |mem[f]| == NPTENTRIES
    ensures WordsOk(mem, BootOwn(n, kernelEnd), map[])
  {
  }

  lemma BootDirs(n: nat, kernelEnd: nat)
    ensures forall e :: Dir(Ram(e)) !in BootOwn(n, kernelEnd)
  {
  }

  lemma BootIs(refs: seq<nat>, free: seq<Frame>, mem: seq<Block>, kernelEnd: nat, n: nat)
    requires IO_HOLE_END <= kernelEnd <= n == |refs| && n == |mem| && forall f :: 0 <= f < n ==> |mem[f]| == NPTENTRIES
    requires free == Descending(kernelEnd, n) + Descending(3, IO_HOLE)
    requires forall f :: 0 <= f < n ==> refs[f] == if SetAside(f, kernelEnd) then 1 else 0
    ensures Mem(refs, free, BootOwn(n, kernelEnd), map[], {}) == BootMem(n, kernelEnd) && MemOk(BootMem(n, kernelEnd))
    ensures WordsOk(mem, BootOwn(n, kernelEnd), map[])
    ensures forall f: Frame :: f in free <==> f < n && !SetAside(f, kernelEnd)
  {
    hide MemOk, WordsOk, Descending, BootOwn;
    BootOk(refs, free, kernelEnd, n);
    BootWords(mem, n, kernelEnd);
    assert refs == BootRefs(n, kernelEnd);
  }

  /** What freeing the table behind entry i comes to when no page is mapped any more. */
  lemma StaleEntry(m: Mem, i: nat, e: nat)
    requires MemOk(m) && forall k :: k in m.leaf ==> k.0 != Ram(e)
    ensures var t := Table(Ram(e), i);
            if t in m.own then
              && m.own[t] != 0 && m.own[t] < |m.refs|
              && DropTable(m, Ram(e), i)
                 == m.(refs := m.refs[m.own[t] := 0], free := [m.own[t]] + m.free, own := m.own - {t})
            else DropTable(m, Ram(e), i) == m
  {
    var t := Table(Ram(e), i);
    if t in m.own {
      SingleUse(m, t);
      assert LeavesExcept(m.leaf, Ram(e), i) == m.leaf;
    }
  }

  ghost predicate Stale(m0: Mem, m: Mem, mem: seq<Block>, x: Frame, e: nat, i: nat) {
    && Droppable(m0, Ram(e)) && m == DropTables(m0, Ram(e), i) && MemOk(m)
    && Dir(Ram(e)) in m.own && m.own[Dir(Ram(e))] == x < |mem| == |m.refs|
    && WordsOk(mem, m.own - {Dir(Ram(e))}, m.leaf) && |mem[x]| == NPTENTRIES
    && (forall k :: k in m.leaf ==> k.0 != Ram(e))
    && (forall d: nat :: i <= d < USER_PDX ==> mem[x][d] == DirWord(m.own, Ram(e), d))
  }

  lemma StaleStart(m: Mem, mem: seq<Block>, x: Frame, e: nat)
    requires MemOk(m) && |mem| == |m.refs| && WordsOk(mem, m.own, m.leaf) && Droppable(m, Ram(e))
    requires Dir(Ram(e)) in m.own && m.own[Dir(Ram(e))] == x
    ensures Stale(m, m, mem, x, e, 0) && x < |mem|
  {
    FewerDirsOk(mem, m.own, m.leaf, Ram(e));
    assert DropTables(m, Ram(e), 0) == m;
    hide DropTables;
    assert forall k: (Space, Vpn) :: k.0 == Ram(e) ==> k == (Ram(e), k.1);
  }

  lemma StaleNext(m0: Mem, m: Mem, mem: seq<Block>, x: Frame, e: nat, i: nat)
    requires Stale(m0, m, mem, x, e, i) && i < USER_PDX
    ensures x < |mem| && i < |mem[x]|
    ensures var f := mem[x][i].frame;
            if f == 0 then Stale(m0, m, mem, x, e, i + 1)
            else f < |m.refs| &&
                 Stale(m0, m.(refs := m.refs[f := 0], free := [f] + m.free, own := m.own - {Table(Ram(e), i)}),
                       mem, x, e, i + 1)
  {
    hide MemOk, WordsOk, DropTables, Droppable, DropTable;
    var t, own := Table(Ram(e), i), m.own;
    StaleEntry(m, i, e);
    DropNext(m0, Ram(e), i);
    assert mem[x][i] == DirWord(own, Ram(e), i);
    if t in own {
      FewerTablesOk(mem, own - {Dir(Ram(e))}, m.leaf, t);
      assert own - {Dir(Ram(e))} - {t} == own - {t} - {Dir(Ram(e))};
      FewerWords(own, Ram(e), i);
    }
  }

  lemma FewerWords(own: map<Owner, Frame>, sp: Space, i: nat)
    ensures forall d: nat :: d > i ==> DirWord(own - {Table(sp, i)}, sp, d) == DirWord(own, sp, d)
  {
  }

  lemma DropNext(m: Mem, sp: Space, i: nat)
    requires Droppable(m, sp)
    ensures DropTables(m, sp, i + 1) == DropTable(DropTables(m, sp, i), sp, i) && MemOk(DropTables(m, sp, i + 1))
  {
    DropTablesOk(m, sp, i + 1);
  }

  /** The map has no zero entries. */
  lemma ZeroEntry(m: Mem, sp: Space, v: Vpn)
    requires MemOk(m)
    ensures Entry(m, sp, v) == ZERO <==> (sp, v) !in m.leaf
    ensures (sp, v) in m.leaf && sp.Ram? ==> Page(sp.e, v) in m.own && m.own[Page(sp.e, v)] == m.leaf[(sp, v)].frame
  {
  }

  /** Setting bits in an entry that is 0 makes an entry that no use of a frame stands for. */
  lemma PermsIff(m: Mem, e: nat, v: Vpn, s: Mask, c: Mask)
    requires MemOk(m) && Table(Ram(e), v.d) in m.own && v.t < NPTENTRIES
    ensures var m' := WithEntry(m, Ram(e), v, Update(Entry(m, Ram(e), v), s, c));
            && (MemOk(m') <==> (Ram(e), v) in m.leaf || Update(ZERO, s, c) == ZERO)
            && (MemOk(m') ==> m' == SetPerms(m, e, v, s, c))
  {
    var m' := WithEntry(m, Ram(e), v, Update(Entry(m, Ram(e), v), s, c));
    if (Ram(e), v) in m.leaf {
      SetPermsOk(m, e, v, s, c);
      UsedFrame(m, e, v);
      assert m' == SetPerms(m, e, v, s, c);
    } else if Update(ZERO, s, c) == ZERO {
      assert m.leaf - {(Ram(e), v)} == m.leaf;
      assert m' == m;
    } else {
      assert (Ram(e), v) in m'.leaf && Page(e, v) !in m'.own;
    }
  }

  /** No page is mapped to frame 0. */
  lemma UsedFrame(m: Mem, e: nat, v: Vpn)
    requires MemOk(m) && (Ram(e), v) in m.leaf
    ensures m.leaf[(Ram(e), v)].frame != 0
  {
    assert Page(e, v) in m.own && Boot(0) in m.own && !Boot(0).Page?;
  }

  lemma MemParts(m: Mem)
    requires MemOk(m)
    ensures Partition(m) && Exclusive(m.own) && KeysOk(m)
  {
  }

  /** map_frame keeps the invariant in the two good cases only. */
  lemma MapSound(m: Mem, e: nat, v: Vpn, f: Frame)
    requires MemOk(m) && UserPage(v) && Dir(Ram(e)) in m.own && CanHaveTable(m, Ram(e), v.d) && Mappable(m, f)
    ensures MemOk(Mapped(m, e, v, f)) <==> Entry(m, Ram(e), v) == ZERO || Entry(m, Ram(e), v).present
  {
    MapFrameExactIff(m, e, v, f);
    if Entry(m, Ram(e), v) == ZERO || Entry(m, Ram(e), v).present {
      MapFrameOk(m, e, v, f);
    }
  }

  class PhysicalMemory {
    var refs: seq<nat>       // frames_info[f].references
    var free: seq<Frame>     // free_frame_list
    var mem: seq<Block>      // the frames themselves
    ghost var own: map<Owner, Frame>
    ghost var leaf: map<(Space, Vpn), Word>
    ghost var limbo: set<Frame>

    const kernelDir: Block   // ptr_page_directory

    /** initialize_paging: frames 0 to 2, the I/O hole and the kernel are set aside, the others free.
        n is number_of_frames, kernelLimit the physical address of ptr_free_mem. */
    constructor (n: nat, kernelLimit: nat, contents: seq<Block>, kernelDir: Block)
      requires 0x10_0000 <= kernelLimit <= n * 4096 && |kernelDir| == NPTENTRIES
      requires n == |contents| && forall f :: 0 <= f < n ==> |contents[f]| == NPTENTRIES
      ensures Valid() && mem == contents && this.kernelDir == kernelDir
      ensures PagesFor(kernelLimit) <= n && IO_HOLE_END <= PagesFor(kernelLimit)
      ensures M() == BootMem(n, PagesFor(kernelLimit))
      ensures forall f: Frame :: f in free <==>
                3 <= f < n && !Overlaps(f, 0xA_0000, 0x10_0000) && !Overlaps(f, 0x10_0000, kernelLimit)
      ensures forall f :: 0 <= f < n ==> refs[f] == if f in free then 0 else 1
      ensures forall i, j :: 0 <= i < j < |free| ==> free[i] > free[j]
    {
      this.kernelDir := kernelDir;
      refs, free, mem := seq(n, i => 0), [], contents;
      own, leaf, limbo := BootOwn(n, PagesFor(kernelLimit)), map[], {};
      new;
      forall f: Frame ensures SetAside(f, PagesFor(kernelLimit)) <==>
                                f < 3 || Overlaps(f, 0xA_0000, 0x10_0000) || Overlaps(f, 0x10_0000, kernelLimit)
      {
        SetAsideIs(f, kernelLimit);
      }
      SetAsideIs(0, kernelLimit);
      BootDirs(n, PagesFor(kernelLimit));
      hide MemOk, WordsOk, Descending, BootOwn, SetAside, BootMem, Overlaps, PagesFor;
      InitializePaging(PagesFor(kernelLimit));
      BootIs(refs, free, mem, PagesFor(kernelLimit), n);
      BootOrder(PagesFor(kernelLimit), n);
    }

    /** The body of initialize_paging. */
    method InitializePaging(kernelEnd: nat)
      requires IO_HOLE_END <= kernelEnd <= |refs| && free == [] && forall f :: 0 <= f < |refs| ==> refs[f] == 0
      modifies this`refs, this`free
      ensures |refs| == |old(refs)| && free == Descending(kernelEnd, |refs|) + Descending(3, IO_HOLE)
      ensures forall f :: 0 <= f < |refs| ==> refs[f] == if SetAside(f, kernelEnd) then 1 else 0
    {
      hide Descending;
      refs := refs[0 := 1][1 := 1][2 := 1];
      FreeRange(3, IO_HOLE);
      assert free == Descending(3, IO_HOLE);
      ReserveRange(IO_HOLE, IO_HOLE_END);
      ReserveRange(IO_HOLE_END, kernelEnd);
      FreeRange(kernelEnd, |refs|);
    }

    /** One of the loops of initialize_paging that put frames on the free list. */
    method FreeRange(from: nat, to: nat)
      requires from <= to <= |refs|
      modifies this`refs, this`free
      ensures |refs| == |old(refs)| && free == Descending(from, to) + old(free)
      ensures forall f :: 0 <= f < |refs| ==> refs[f] == if from <= f < to then 0 else old(refs)[f]
    {
      free := Descending(from, from) + free;
      for i := from to to
        invariant |refs| == |old(refs)| && free == Descending(from, i) + old(free)
        invariant forall f :: 0 <= f < |refs| ==> refs[f] == if from <= f < i then 0 else old(refs)[f]
      {
        refs := refs[i := 0];
        free := [i] + free;
      }
    }

    /** One of the loops of initialize_paging that set frames aside. */
    method ReserveRange(from: nat, to: nat)
      requires from <= to <= |refs|
      modifies this`refs
      ensures |refs| == |old(refs)|
      ensures forall f :: 0 <= f < |refs| ==> refs[f] == if from <= f < to then 1 else old(refs)[f]
    {
      for i := from to to
        invariant |refs| == |old(refs)|
        invariant forall f :: 0 <= f < |refs| ==> refs[f] == if from <= f < i then 1 else old(refs)[f]
      {
        refs := refs[i := 1];
      }
    }

    ghost function M(): Mem
      reads this
    {
      Mem(refs, free, own, leaf, limbo)
    }

    ghost predicate Valid()
      reads this
    {
      MemOk(M()) && |mem| == |refs| && WordsOk(mem, own, leaf) && KernelHalf(mem, own, kernelDir)
    }

    /** Everything Valid says, but that the counts are exact. */
    ghost predicate Sound()
      reads this
    {
      && Partition(M()) && Exclusive(own) && KeysOk(M()) && |mem| == |refs| && WordsOk(mem, own, leaf)
      && KernelHalf(mem, own, kernelDir)
    }

    /** x is the directory of space sp. */
    ghost predicate IsDir(x: Frame, sp: Space)
      reads this
    {
      Dir(sp) in own && own[Dir(sp)] == x
    }

    method AllocateFrame() returns (f: Frame)
      requires Valid() && free != []
      modifies this`free, this`refs, this`limbo
      ensures Valid() && M() == Alloc(old(M()))
      ensures f == old(free)[0] && f < |mem| && f in limbo && f !in own.Values
    {
      hide KernelHalf;
      AllocOk(M());
      f := free[0];
      assert f in free;
      free := free[1..];
      refs := refs[f := 0];
      limbo := limbo + {f};
    }

    /** free_frame, called on a frame whose last use is over. */
    method FreeFrame(f: Frame)
      requires f < |refs|
      modifies this`free, this`refs
      ensures refs == old(refs)[f := 0] && free == [f] + old(free)
    {
      refs := refs[f := 0];
      free := [f] + free;
    }

    /** decrement_references; o names the use that ends. */
    method DecrementReferences(f: Frame, ghost o: Owner)
      requires o in own && own[o] == f && f < |refs| && refs[f] > 0
      modifies this`free, this`refs, this`own
      ensures M() == Release(old(M()), o)
    {
      refs := refs[f := refs[f] - 1];
      own := own - {o};
      if refs[f] == 0 {
        FreeFrame(f);
      }
    }

    /** get_page_table: TABLE_IN_MEMORY and the table, or TABLE_NOT_EXIST and NULL. */
    method GetPageTable(x: Frame, v: Vpn, ghost sp: Space) returns (found: bool, tbl: Frame)
      requires Valid() && IsDir(x, sp) && v.d < USER_PDX
      ensures found <==> Table(sp, v.d) in own
      ensures found ==> tbl == own[Table(sp, v.d)] && tbl < |mem| && tbl != 0
      ensures !found ==> tbl == 0
    {
      hide KernelHalf;
      var pde := mem[x][v.d];
      if pde.present {
        found, tbl := true, pde.frame;
        assert Boot(0) in own;
      } else if pde != ZERO {
        assert false;
      } else {
        found, tbl := false, 0;
      }
    }

    /** __static_cpt, and the creating branch of get_disk_page_table: a new empty table. */
    method CreateTable(x: Frame, d: nat, inRam: bool, ghost sp: Space) returns (tbl: Frame)
      requires Valid() && IsDir(x, sp) && inRam == sp.Ram? && d < USER_PDX && Table(sp, d) !in own && free != []
      modifies this`free, this`refs, this`limbo, this`own, this`mem
      ensures Valid() && M() == EnsureTable(old(M()), sp, d)
      ensures tbl == old(free)[0] && Table(sp, d) in own && own[Table(sp, d)] == tbl && tbl < |mem|
      ensures x < |mem| && |mem[x]| == NPTENTRIES && mem[x][d].frame == tbl && mem[x][d].present
      ensures (mem[x][d].writeable <==> inRam) && (mem[x][d].user <==> inRam)
      ensures x < |old(mem)| && |old(mem)[x]| == NPTENTRIES
      ensures forall c :: 0 <= c < NPTENTRIES && c != d ==> mem[x][c] == old(mem)[x][c]
      ensures |mem[tbl]| == NPTENTRIES && forall t :: 0 <= t < NPTENTRIES ==> mem[tbl][t] == ZERO
      ensures |mem| == |old(mem)| && forall f :: 0 <= f < |mem| && f != x && f != tbl ==> mem[f] == old(mem[f])
    {
      hide KernelHalf, WordsOk;
      BlockLengths(mem, own, leaf);
      EnsureTableOk(M(), sp, d);
      tbl := AllocateFrame();
      refs := refs[tbl := 1];
      assert x != tbl by { assert own[Dir(sp)] in own.Values; }
      NewTableOk(mem, own, leaf, sp, d, tbl);
      NewTableHalf(mem, own, kernelDir, x, sp, d, TableEntry(inRam, tbl), tbl);
      mem := mem[x := mem[x][d := TableEntry(inRam, tbl)]];
      mem := mem[tbl := ZeroBlock()];
      own := own[Table(sp, d) := tbl];
      limbo := limbo - {tbl};
    }

    /** map_frame, with PERM_WRITEABLE | PERM_USER. */
    method MapFrame(x: Frame, f: Frame, v: Vpn, ghost e: nat)
      requires Valid() && IsDir(x, Ram(e)) && UserPage(v) && CanHaveTable(M(), Ram(e), v.d) && Mappable(M(), f)
      modifies this
      ensures Sound() && M() == Mapped(old(M()), e, v, f)
      ensures Valid() <==> Entry(old(M()), Ram(e), v) == ZERO || Entry(old(M()), Ram(e), v).present
      ensures Table(Ram(e), v.d) in own
      ensures |mem| == |old(mem)|
      ensures forall g :: 0 <= g < |mem| && g != x && g != own[Table(Ram(e), v.d)] ==> mem[g] == old(mem[g])
    {
      hide KernelHalf, MemOk, WordsOk;
      MapSound(M(), e, v, f);
      MappableKept(M(), Ram(e), v.d, f);
      var tbl := PageTableFor(x, v, e);
      BlockLengths(mem, own, leaf);
      var pte := mem[tbl][v.t];
      ZeroEntry(M(), Ram(e), v);
      if pte.present {
        if pte.frame == f {
          MemParts(M());
          return;
        }
        MappableUnmapped(M(), e, v, f);
        UnmapOk(M(), e, v);
        UnmapFrame(x, v, e);
      }
      Write(tbl, f, v, e);
    }

    /** The first half of map_frame: the page table, created if it does not exist. */
    method PageTableFor(x: Frame, v: Vpn, ghost e: nat) returns (tbl: Frame)
      requires Valid() && IsDir(x, Ram(e)) && UserPage(v) && CanHaveTable(M(), Ram(e), v.d)
      modifies this`free, this`refs, this`limbo, this`own, this`mem
      ensures Valid() && M() == EnsureTable(old(M()), Ram(e), v.d)
      ensures Table(Ram(e), v.d) in own && own[Table(Ram(e), v.d)] == tbl && tbl < |mem|
      ensures mem[tbl][v.t] == Entry(M(), Ram(e), v)
      ensures |mem| == |old(mem)| && forall g :: 0 <= g < |mem| && g != x && g != tbl ==> mem[g] == old(mem[g])
    {
      hide KernelHalf;
      EnsureTableOk(M(), Ram(e), v.d);
      var found;
      found, tbl := GetPageTable(x, v, Ram(e));
      if !found {
        tbl := CreateTable(x, v.d, true, Ram(e));
      }
    }

    /** references++ and the new entry. */
    method Write(tbl: Frame, f: Frame, v: Vpn, ghost e: nat)
      requires Valid() && UserPage(v) && Table(Ram(e), v.d) in own && own[Table(Ram(e), v.d)] == tbl
      requires Mappable(M(), f)
      modifies this`refs, this`mem, this`own, this`leaf, this`limbo
      ensures Sound() && M() == Enter(old(M()), e, v, f) && (Valid() <==> (Ram(e), v) !in old(leaf))
      ensures |mem| == |old(mem)| && forall g :: 0 <= g < |mem| && g != tbl ==> mem[g] == old(mem[g])
    {
      hide KernelHalf, MemOk, WordsOk, Partition, Exclusive, KeysOk;
      EnterIff(M(), e, v, f);
      BlockLengths(mem, own, leaf);
      EnterWordsOk(mem, M(), e, v, f);
      MemParts(M());
      ghost var m' := Enter(M(), e, v, f);
      EntryHalf(mem, own, kernelDir, Ram(e), v, Construct(f));
      HalfOwn(mem[tbl := mem[tbl][v.t := Construct(f)]], own, m'.own, kernelDir);
      refs := refs[f := refs[f] + 1];
      mem := mem[tbl := mem[tbl][v.t := Construct(f)]];
      own, leaf, limbo := m'.own, m'.leaf, m'.limbo;
      assert M() == m';
    }

    /** get_frame_info: the frame mapped at v, or 0. */
    method GetFrameInfo(x: Frame, v: Vpn, ghost e: nat) returns (f: Frame, tbl: Frame)
      requires Valid() && IsDir(x, Ram(e)) && UserPage(v)
      ensures f == 0 <==> (Ram(e), v) !in leaf
      ensures f != 0 ==> Page(e, v) in own && own[Page(e, v)] == f && own[Table(Ram(e), v.d)] == tbl
    {
      hide KernelHalf;
      var found;
      found, tbl := GetPageTable(x, v, Ram(e));
      f := 0;
      if tbl != 0 {
        var pte := mem[tbl][v.t];
        if pte != ZERO {
          f := pte.frame;
          assert Boot(0) in own && Page(e, v) in own;
        }
      }
    }

    method UnmapFrame(x: Frame, v: Vpn, ghost e: nat)
      requires Valid() && IsDir(x, Ram(e)) && UserPage(v)
      modifies this
      ensures Valid() && M() == Unmapped(old(M()), e, v)
      ensures |mem| == |old(mem)|
      ensures forall g :: 0 <= g < |mem| && (Table(Ram(e), v.d) in own ==> g != own[Table(Ram(e), v.d)]) ==>
          mem[g] == old(mem[g])
    {
      hide KernelHalf, WordsOk;
      UnmapOk(M(), e, v);
      var f, tbl := GetFrameInfo(x, v, e);
      BlockLengths(mem, own, leaf);
      if f != 0 {
        ReleaseOk(M(), Page(e, v));
        DecrementReferences(f, Page(e, v));
        mem := mem[tbl := mem[tbl][v.t := ZERO]];
        leaf := leaf - {(Ram(e), v)};
        WriteLeafOk(old(mem), old(own), old(leaf), leaf, Ram(e), v, ZERO);
        EntryHalf(old(mem), old(own), kernelDir, Ram(e), v, ZERO);
        HalfOwn(mem, old(own), own, kernelDir);
        PageUseOk(mem, old(own), own, leaf);
      }
    }

    /** pt_set_page_permissions, and the updates the processor makes to the entry of a page. */
    method SetPermissions(x: Frame, v: Vpn, s: Mask, c: Mask, ghost e: nat)
      requires Valid() && IsDir(x, Ram(e)) && UserPage(v) && Table(Ram(e), v.d) in own
      modifies this`mem, this`leaf
      ensures WordsOk(mem, own, leaf) && |mem| == |refs| && KernelHalf(mem, own, kernelDir)
      ensures M() == WithEntry(old(M()), Ram(e), v, Update(Entry(old(M()), Ram(e), v), s, c))
      ensures Valid() <==> (Ram(e), v) in old(leaf) || Update(ZERO, s, c) == ZERO
      ensures Valid() ==> M() == SetPerms(old(M()), e, v, s, c)
      ensures |mem| == |old(mem)|
      ensures forall g :: 0 <= g < |mem| && g != own[Table(Ram(e), v.d)] ==> mem[g] == old(mem[g])
    {
      hide KernelHalf;
      PermsIff(M(), e, v, s, c);
      var tbl := mem[x][v.d].frame;
      var w := Update(mem[tbl][v.t], s, c);
      ghost var m' := WithEntry(M(), Ram(e), v, w);
      WriteLeafOk(mem, own, leaf, m'.leaf, Ram(e), v, w);
      EntryHalf(mem, own, kernelDir, Ram(e), v, w);
      mem := mem[tbl := mem[tbl][v.t := w]];
      leaf := m'.leaf;
    }

    /** pt_get_page_permissions. */
    method GetEntry(x: Frame, v: Vpn, ghost e: nat) returns (w: Word)
      requires Valid() && IsDir(x, Ram(e)) && UserPage(v)
      ensures w == Entry(M(), Ram(e), v)
    {
      hide KernelHalf;
      var pde := mem[x][v.d];
      w := ZERO;
      if pde.present {
        w := mem[pde.frame][v.t];
      }
    }

    /** The processor's way from the directory to the frame of a page, for a user access that may write. */
    method Walk(x: Frame, v: Vpn, ghost e: nat) returns (ok: bool, f: Frame)
      requires Valid() && IsDir(x, Ram(e)) && UserPage(v)
      ensures ok <==> Reaches(mem, x, v, f)
      ensures ok <==> UserBits(Entry(M(), Ram(e), v))
      ensures ok ==> f == Entry(M(), Ram(e), v).frame
    {
      hide KernelHalf, MemOk, WordsOk;
      ghost var w := Entry(M(), Ram(e), v);
      ReachesIff(mem, M(), e, v, w.frame);
      assert Reaches(mem, x, v, w.frame) <==> UserBits(w);
      TableBits(mem, own, leaf, Ram(e), v.d);
      BlockLengths(mem, own, leaf);
      var pde := mem[x][v.d];
      ok, f := false, 0;
      if pde.present && pde.writeable && pde.user {
        var pte := mem[pde.frame][v.t];
        ok, f := pte.present && pte.writeable && pte.user, pte.frame;
      }
      ReachesIff(mem, M(), e, v, f);
    }

    /** loadtime_map_frame. */
    method LoadtimeMapFrame(x: Frame, f: Frame, v: Vpn, ghost e: nat)
      requires Valid() && IsDir(x, Ram(e)) && UserPage(v) && CanHaveTable(M(), Ram(e), v.d) && Mappable(M(), f)
      modifies this
      ensures Sound() && M() == Enter(EnsureTable(old(M()), Ram(e), v.d), e, v, f)
      ensures Valid() <==> (Ram(e), v) !in old(leaf)
      ensures Valid() ==> M() == Mapped(old(M()), e, v, f)
      ensures Table(Ram(e), v.d) in own
      ensures |mem| == |old(mem)|
      ensures forall g :: 0 <= g < |mem| && g != x && g != own[Table(Ram(e), v.d)] ==> mem[g] == old(mem[g])
    {
      hide KernelHalf;
      EnsureTableOk(M(), Ram(e), v.d);
      MappableKept(M(), Ram(e), v.d, f);
      var pde := mem[x][v.d];
      var tbl := pde.frame;
      if pde == ZERO {
        tbl := CreateTable(x, v.d, true, Ram(e));
      }
      Write(tbl, f, v, e);
    }

    /** calculate_required_frames, for a range that stays below USER_TOP. */
    method CalculateRequiredFrames(x: Frame, start: nat, size: nat, ghost e: nat) returns (n: nat)
      requires Valid() && IsDir(x, Ram(e)) && start + size <= USER_PDX * 0x400000
      ensures n == Required(M(), e, start / 4096, PagesFor(start + size))
    {
      hide KernelHalf;
      var numberOfTables := CountTables(x, start, size, e);
      var numberOfPages := CountPages(x, start, size, e);
      n := numberOfTables + numberOfPages;
    }

    /** The first loop of calculate_required_frames. */
    method CountTables(x: Frame, start: nat, size: nat, ghost e: nat) returns (n: nat)
      requires Valid() && IsDir(x, Ram(e)) && start + size <= USER_PDX * 0x400000
      ensures n == MissingTables(M(), e, start / 4096 / 1024, TablesUpTo(PagesFor(start + size)))
    {
      hide KernelHalf, MemOk, WordsOk;
      ghost var m, a := M(), start / 4096 / 1024;
      n := 0;
      var cur := RoundDown(start, 0x400000);
      ghost var d := a;
      assert cur == d * 0x400000;
      while cur < start + size
        invariant cur == d * 0x400000 && d >= a
        invariant d == a || (d - 1) * 0x400000 < start + size
        invariant n == MissingTables(m, e, a, d)
        decreases start + size - cur
      {
        TableAddress(d);
        var found, tbl := GetPageTable(x, PageOf(cur), Ram(e));
        if tbl == 0 {
          n := n + 1;
        }
        cur := cur + 0x400000;
        d := d + 1;
      }
      TableLoopEnd(start, size, d);
    }

    /** The second loop of calculate_required_frames. */
    method CountPages(x: Frame, start: nat, size: nat, ghost e: nat) returns (n: nat)
      requires Valid() && IsDir(x, Ram(e)) && start + size <= USER_PDX * 0x400000
      ensures n == MissingPages(M(), e, start / 4096, PagesFor(start + size))
    {
      hide KernelHalf, MemOk, WordsOk, Nth, PageOf;
      ghost var m, lo := M(), start / 4096;
      n := 0;
      var cur := RoundDown(start, PAGE_SIZE);
      ghost var p := lo;
      assert cur == p * 4096;
      while cur < start + size
        invariant cur == p * 4096 && lo <= p && (p == lo || (p - 1) * 4096 < start + size)
        invariant n == MissingPages(m, e, lo, p)
        decreases start + size - cur
      {
        PageAddress(p);
        var f, tbl := GetFrameInfo(x, PageOf(cur), e);
        if f == 0 {
          n := n + 1;
        }
        cur := cur + PAGE_SIZE;
        p := p + 1;
      }
      PageLoopEnd(start, size, p);
    }

    /** The frame of a new directory: references = 1.  A page directory copies the kernel's entries, clears the user's
        (initialize_environment) and enters itself twice (complete_environment_initialization); a disk directory is
        zeroed. */
    method NewDirectory(init: Block, inRam: bool, ghost sp: Space) returns (x: Frame)
      requires Valid() && free != [] && Dir(sp) !in own && inRam == sp.Ram?
      requires |init| == NPTENTRIES && forall d :: 0 <= d < USER_PDX ==> init[d] == ZERO
      requires inRam ==> forall d :: USER_PDX <= d < NPTENTRIES ==> d < |kernelDir| && init[d] == kernelDir[d]
      modifies this`free, this`refs, this`limbo, this`own, this`mem
      ensures Valid() && M() == Use(Alloc(old(M())), Dir(sp), old(free)[0])
      ensures x == old(free)[0] && IsDir(x, sp) && x < |mem| && mem[x] == if inRam then SelfMapped(init, x) else init
      ensures |mem| == |old(mem)| && forall f :: 0 <= f < |mem| && f != x ==> mem[f] == old(mem[f])
    {
      hide KernelHalf, SelfMapped, WordsOk, MemOk;
      DirectoryAllocated(M());
      x := AllocateFrame();
      SelfMappedUser(init, x);
      var b := init;
      if inRam {
        b := SelfMapped(b, x);
      }
      UseOk(M(), Dir(sp), x);
      NewDirectoryOk(mem, M(), b, sp, x);
      NewHalf(mem, own, kernelDir, init, sp, x);
      refs := refs[x := 1];
      mem := mem[x := b];
      own := own[Dir(sp) := x];
      limbo := limbo - {x};
    }

    /** The state of env_free after freeing the tables below entry i: their directory entries are stale. */
    ghost predicate FreeingTables(m0: Mem, x: Frame, e: nat, i: nat)
      reads this
    {
      Stale(m0, M(), mem, x, e, i) && KernelHalf(mem, own, kernelDir)
    }

    /** One round of step 3 of env_free: the table is freed, its directory entry left as it is. */
    method FreeTable(x: Frame, i: nat, ghost e: nat, ghost m0: Mem)
      requires FreeingTables(m0, x, e, i) && i < USER_PDX
      modifies this`refs, this`free, this`own
      ensures FreeingTables(m0, x, e, i + 1)
    {
      hide KernelHalf, Stale;
      StaleNext(m0, M(), mem, x, e, i);
      var pde := mem[x][i];
      if pde.frame != 0 {
        assert refs[pde.frame := 0][pde.frame := 0] == refs[pde.frame := 0];
        refs := refs[pde.frame := 0];
        FreeFrame(pde.frame);
        HalfOwn(mem, own, own - {Table(Ram(e), i)}, kernelDir);
        own := own - {Table(Ram(e), i)};
      }
    }

    /** Steps 3 and 4 of env_free: every table of the space, then its directory. */
    method FreePageTables(x: Frame, ghost e: nat)
      requires Valid() && IsDir(x, Ram(e)) && Droppable(M(), Ram(e))
      modifies this`refs, this`free, this`own
      ensures Valid() && M() == DropSpace(old(M()), Ram(e))
    {
      hide KernelHalf;
      ghost var m0 := M();
      StaleStart(m0, mem, x, e);
      hide Stale, MemOk, WordsOk;
      for i := 0 to USER_PDX
        invariant FreeingTables(m0, x, e, i) && x < |mem|
      {
        FreeTable(x, i, e, m0);
      }
      FreeDirectory(x, e, m0);
    }

    /** Step 4 of env_free. */
    method FreeDirectory(x: Frame, ghost e: nat, ghost m0: Mem)
      requires FreeingTables(m0, x, e, USER_PDX) && x < |mem|
      modifies this`refs, this`free, this`own
      ensures Valid() && M() == DropSpace(m0, Ram(e))
    {
      hide KernelHalf;
      DropSpaceOk(m0, Ram(e));
      SingleUse(M(), Dir(Ram(e)));
      ghost var m' := DropSpace(m0, Ram(e));
      assert m' == Release(M(), Dir(Ram(e)));
      refs := refs[x := 0];
      FreeFrame(x);
      HalfOwn(mem, own, own - {Dir(Ram(e))}, kernelDir);
      own := own - {Dir(Ram(e))};
      assert M() == m';
    }

    // ---------- the words of disk tables and of data frames ----------

    /** Writes entry v.t of a disk table: a disk frame number, or 0 for none. */
    method SetDiskEntry(tbl: Frame, v: Vpn, w: Word, ghost e: nat)
      requires Valid() && Table(Swap(e), v.d) in own && own[Table(Swap(e), v.d)] == tbl && v.t < NPTENTRIES
      modifies this`mem, this`leaf
      ensures Valid() && M() == WithEntry(old(M()), Swap(e), v, w)
      ensures |mem| == |old(mem)| && forall g :: 0 <= g < |mem| && g != tbl ==> mem[g] == old(mem[g])
    {
      hide KernelHalf;
      ghost var m' := WithEntry(M(), Swap(e), v, w);
      DiskEntryOk(M(), e, v, w);
      WriteLeafOk(mem, own, leaf, m'.leaf, Swap(e), v, w);
      EntryHalf(mem, own, kernelDir, Swap(e), v, w);
      mem := mem[tbl := mem[tbl][v.t := w]];
      leaf := m'.leaf;
    }

    /** Reads entry v.t of a disk table. */
    method GetDiskEntry(tbl: Frame, v: Vpn, ghost e: nat) returns (w: Word)
      requires Valid() && Table(Swap(e), v.d) in own && own[Table(Swap(e), v.d)] == tbl && v.t < NPTENTRIES
      ensures w == Entry(M(), Swap(e), v)
    {
      hide KernelHalf;
      w := mem[tbl][v.t];
    }

    /** Overwrites a frame that holds user data. */
    method WriteFrame(f: Frame, b: Block)
      requires Valid() && f < |mem| && |b| == NPTENTRIES && forall o :: o in own && own[o] == f ==> o.Page?
      modifies this`mem
      ensures Valid() && M() == old(M()) && mem == old(mem)[f := b]
    {
      hide KernelHalf;
      WriteDataOk(mem, own, leaf, f, b);
      HalfFrame(mem, own, kernelDir, f, b);
      mem := mem[f := b];
    }

    /** The end of a disk table in pf_free_env: its directory entry is cleared and its frame released. */
    method DropDiskTable(x: Frame, d: nat, ghost e: nat)
      requires Valid() && IsDir(x, Swap(e)) && d < USER_PDX && Table(Swap(e), d) in own
      requires forall v :: (Swap(e), v) in leaf ==> v.d != d
      modifies this`mem, this`refs, this`free, this`own
      ensures Valid() && M() == DropTable(old(M()), Swap(e), d)
      ensures |mem| == |old(mem)| && forall g :: 0 <= g < |mem| && g != x ==> mem[g] == old(mem[g])
    {
      hide KernelHalf;
      ghost var m0 := M();
      DropTableOk(m0, Swap(e), d);
      DropWordsOk(mem, own, leaf, Swap(e), d);
      var f := mem[x][d].frame;
      HalfEntry(mem, own, kernelDir, x, d, ZERO);
      mem := mem[x := mem[x][d := ZERO]];
      HalfOwn(mem, own, own - {Table(Swap(e), d)}, kernelDir);
      DecrementReferences(f, Table(Swap(e), d));
      NothingExcept(leaf, Swap(e), d);
      assert M() == DropTable(m0, Swap(e), d);
    }

    /** The end of the disk directory in pf_free_env. */
    method DropDirectory(x: Frame, ghost e: nat)
      requires Valid() && IsDir(x, Swap(e)) && forall d: nat :: Table(Swap(e), d) !in own
      modifies this`refs, this`free, this`own
      ensures Valid() && M() == Release(old(M()), Dir(Swap(e)))
    {
      hide KernelHalf;
      DropDirOk(M(), e);
      FewerDirsOk(mem, own, leaf, Swap(e));
      HalfOwn(mem, own, own - {Dir(Swap(e))}, kernelDir);
      DecrementReferences(x, Dir(Swap(e)));
    }

    /** One round of the second loop of freeMem: a table without entries is freed, and its directory entry cleared. */
    method DropEmptyTable(x: Frame, d: nat, ghost e: nat)
      requires Valid() && IsDir(x, Ram(e)) && d < USER_PDX
      modifies this`mem, this`refs, this`free, this`own
      ensures Valid() && M() == if EmptyTable(old(M()), e, d) then Release(old(M()), Table(Ram(e), d)) else old(M())
      ensures own == if EmptyTable(old(M()), e, d) then old(own) - {Table(Ram(e), d)} else old(own)
      ensures |mem| == |old(mem)| && forall g :: 0 <= g < |mem| && g != x ==> mem[g] == old(mem[g])
      ensures !EmptyTable(old(M()), e, d) ==> mem == old(mem)
    {
      hide KernelHalf;
      var found, tbl := GetPageTable(x, Vpn(d, 0), Ram(e));
      if !found {
        return;
      }
      var j := 0;
      while j < NPTENTRIES && mem[tbl][j] == ZERO
        invariant j <= NPTENTRIES && forall t :: 0 <= t < j ==> mem[tbl][t] == ZERO
      {
        j := j + 1;
      }
      RowEmpty(M(), mem, e, d, j);
      if j == NPTENTRIES {
        DropEmptyMem(M(), e, d);
        DropWordsOk(mem, own, leaf, Ram(e), d);
        SingleUse(M(), Table(Ram(e), d));
        var f := mem[x][d].frame;
        FreeFrame(f);
        HalfEntry(mem, own, kernelDir, x, d, ZERO);
        HalfOwn(mem[x := mem[x][d := ZERO]], own, own - {Table(Ram(e), d)}, kernelDir);
        own := own - {Table(Ram(e), d)};
        mem := mem[x := mem[x][d := ZERO]];
      }
    }
  }
}

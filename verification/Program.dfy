/** The segments of a program, as env_create reads them: which pages go to memory and to the page file, and with
    what contents. */
module Programs {
  import opened Seqs
  import opened Mmu
  import opened FrameTable
  import opened Machine
  import opened FlatMemory
  import opened Freeing
  import opened LifeCycle
  import opened ProgramLoading
  import opened LoadRoom
  import opened PageRanges
  import opened KernelFacts
  import Lru
  import WS = WorkingSet

  type Byte = b: int | 0 <= b < 256

  /** struct ProgramSegment: virtual_address is byte offset of page start, image is what lies at ptr_start and after
      it, file is size_in_file and size is size_in_memory.  tpp says that the program is the one called "tpp". */
  datatype ProgramSegment = ProgramSegment(start: nat, offset: nat, image: seq<Byte>, file: nat, size: nat, tpp: bool)

  /** What an ELF image promises of a segment. */
  predicate SegmentOk(seg: ProgramSegment) {
    seg.offset < PAGE_SIZE && seg.file <= seg.size
  }

  // ---------- bytes and words ----------

  /** The byte at distance k from ptr_start. */
  function ImageAt(seg: ProgramSegment, k: int): Byte {
    if 0 <= k < |seg.image| then seg.image[k] else 0
  }

  /** The distance of byte x of page i from the virtual address; it may be before it. */
  function Rel(seg: ProgramSegment, i: nat, x: nat): int { PAGE_SIZE * i + x - seg.offset }

  /** The byte the segment should have at that distance: beyond the file contents it is 0. */
  function ByteAt(seg: ProgramSegment, r: int): Byte {
    if 0 <= r < seg.file then ImageAt(seg, r) else 0
  }

  /** A word, least significant byte first. */
  function WordFrom(b0: Byte, b1: Byte, b2: Byte, b3: Byte): Word {
    Decode(b0 + 0x100 * b1 + 0x1_0000 * b2 + 0x100_0000 * b3)
  }

  /** The words of a page, from its bytes. */
  function Words(page: seq<Byte>): (b: Block)
    requires |page| == PAGE_SIZE
    ensures |b| == NPTENTRIES
  {
    seq(NPTENTRIES, k requires 0 <= k < NPTENTRIES =>
      WordFrom(page[4 * k], page[4 * k + 1], page[4 * k + 2], page[4 * k + 3]))
  }

  /** Byte x of a page that is given by its words. */
  function ByteOf(b: Block, x: nat): Byte
    requires x / 4 < |b|
  {
    var n := Encode(b[x / 4]);
    match x % 4
    case 0 => n % 0x100
    case 1 => n / 0x100 % 0x100
    case 2 => n / 0x1_0000 % 0x100
    case _ => n / 0x100_0000 % 0x100
  }

  function BytesOf(b: Block): (page: seq<Byte>)
    requires |b| == NPTENTRIES
    ensures |page| == PAGE_SIZE
  {
    seq(PAGE_SIZE, x requires 0 <= x < PAGE_SIZE => ByteOf(b, x))
  }

  /** Word k of page i that the segment should have, from the virtual address on. */
  function WordOf(seg: ProgramSegment, i: nat, k: nat): Word {
    var r := Rel(seg, i, 4 * k);
    WordFrom(ByteAt(seg, r), ByteAt(seg, r + 1), ByteAt(seg, r + 2), ByteAt(seg, r + 3))
  }

  // ---------- the pages of a segment ----------

  /** Page i in memory: what lies before the virtual address stays as the frame had it. */
  function MemoryBytes(seg: ProgramSegment, i: nat, held: Block): (page: seq<Byte>)
    requires |held| == NPTENTRIES
    ensures |page| == PAGE_SIZE
  {
    seq(PAGE_SIZE, x requires 0 <= x < PAGE_SIZE => MemoryByte(seg, i, held, x))
  }

  function MemoryByte(seg: ProgramSegment, i: nat, held: Block, x: nat): Byte
    requires |held| == NPTENTRIES && x < PAGE_SIZE
  {
    if Rel(seg, i, x) < 0 then ByteOf(held, x) else ByteAt(seg, Rel(seg, i, x))
  }

  function PageBlock(seg: ProgramSegment, i: nat, held: Block): (b: Block)
    requires |held| == NPTENTRIES
    ensures |b| == NPTENTRIES
  {
    Words(MemoryBytes(seg, i, held))
  }

  /** Its page number, as a page. */
  function SegPage(seg: ProgramSegment, i: nat): Vpn { Nth(seg.start + i) }

  /** The pages the segment occupies in memory. */
  function MemPages(seg: ProgramSegment): nat { PagesFor(seg.offset + seg.size) }

  /** The pages that the file contents reach into. */
  function FilePages(seg: ProgramSegment): nat { PagesFor(seg.offset + seg.file) }

  /** The page in which the file contents end, or just before which. */
  function LastPage(seg: ProgramSegment): nat { (seg.offset + seg.file) / PAGE_SIZE }

  /** The first page that the file contents may fill completely. */
  function FirstWhole(seg: ProgramSegment): nat { if seg.offset == 0 then 0 else 1 }

  /** How many they fill. */
  function WholePages(seg: ProgramSegment): nat {
    if LastPage(seg) < FirstWhole(seg) then 0 else LastPage(seg) - FirstWhole(seg)
  }

  /** The first page from ptr_temp_page: it stays zero when the segment starts on a page boundary. */
  function FirstBytes(seg: ProgramSegment): (page: seq<Byte>)
    ensures |page| == PAGE_SIZE
  {
    seq(PAGE_SIZE, x requires 0 <= x < PAGE_SIZE => FirstByte(seg, x))
  }

  function FirstByte(seg: ProgramSegment, x: nat): Byte {
    if seg.offset == 0 || x < seg.offset then 0 else ImageAt(seg, x - seg.offset)
  }

  /** A page that the file contents fill. */
  function WholeBytes(seg: ProgramSegment, i: nat): (page: seq<Byte>)
    ensures |page| == PAGE_SIZE
  {
    seq(PAGE_SIZE, x requires 0 <= x < PAGE_SIZE => ImageAt(seg, Rel(seg, i, x)))
  }

  /** Where src_ptr stands after the first page and the whole pages. */
  function SourceAfter(seg: ProgramSegment, pages: nat): nat {
    (if seg.offset == 0 then 0 else if seg.offset <= PAGE_SIZE then PAGE_SIZE - seg.offset else 0) + PAGE_SIZE * pages
  }

  /** The last page from ptr_temp_page. */
  function LastBytes(seg: ProgramSegment): (page: seq<Byte>)
    ensures |page| == PAGE_SIZE
  {
    seq(PAGE_SIZE, x requires 0 <= x < PAGE_SIZE => LastByte(seg, x))
  }

  function LastByte(seg: ProgramSegment, x: nat): Byte {
    if x < seg.offset + seg.file - PAGE_SIZE * LastPage(seg) then ImageAt(seg, SourceAfter(seg, WholePages(seg)) + x)
    else 0
  }

  /** Pages from..from+n-1 with blocks b. */
  function Run(seg: ProgramSegment, from: nat, bs: seq<Block>): (r: seq<(Vpn, Block)>)
    ensures |r| == |bs| && forall i :: 0 <= i < |r| ==> r[i] == (SegPage(seg, from + i), bs[i])
  {
    seq(|bs|, i requires 0 <= i < |bs| => (SegPage(seg, from + i), bs[i]))
  }

  function WholeBlocks(seg: ProgramSegment): (bs: seq<Block>)
    ensures |bs| == WholePages(seg)
    ensures forall i :: 0 <= i < |bs| ==> bs[i] == Words(WholeBytes(seg, FirstWhole(seg) + i))
  {
    seq(WholePages(seg), i requires 0 <= i < WholePages(seg) => Words(WholeBytes(seg, FirstWhole(seg) + i)))
  }

  function Copies(b: Block, n: nat): (bs: seq<Block>)
    ensures |bs| == n && forall i :: 0 <= i < n ==> bs[i] == b
  {
    seq(n, i requires 0 <= i < n => b)
  }

  /** The pages of the segment beyond the file contents. */
  function ZeroPages(seg: ProgramSegment): nat {
    if MemPages(seg) > FilePages(seg) then MemPages(seg) - FilePages(seg) else 0
  }

  /** What env_create writes to the page file for one segment: the first page from ptr_temp_page; the whole pages of
      the file contents; the page they end in; and the zero page for the rest of the segment. */
  function FileRun(seg: ProgramSegment, zeroPage: Block): seq<(Vpn, Block)> {
    [(SegPage(seg, 0), Words(FirstBytes(seg)))] + Run(seg, FirstWhole(seg), WholeBlocks(seg))
      + [(SegPage(seg, LastPage(seg)), Words(LastBytes(seg)))] + Run(seg, FilePages(seg),
          Copies(zeroPage, ZeroPages(seg)))
  }

  /** What is loaded into memory when the frame of the first page held junk. */
  function MemoryRun(seg: ProgramSegment, junk: Block): (r: seq<(Vpn, Block)>)
    requires |junk| == NPTENTRIES
    ensures |r| == MemPages(seg) && forall i :: 0 <= i < |r| ==> r[i] == (SegPage(seg, i), PageBlock(seg, i, junk))
  {
    seq(MemPages(seg), i requires 0 <= i < MemPages(seg) => (SegPage(seg, i), PageBlock(seg, i, junk)))
  }

  function Plan(seg: ProgramSegment, zeroPage: Block, junk: Block): Segment
    requires |junk| == NPTENTRIES
  {
    Segment(MemoryRun(seg, junk), FileRun(seg, zeroPage), seg.start == 0x200 && !seg.tpp)
  }

  // What the frames of the first pages held, segment by segment; nothing is said of those that are missing.

  function JunkAt(junks: seq<Block>, j: nat): (b: Block)
    ensures |b| == NPTENTRIES
  {
    if j < |junks| && |junks[j]| == NPTENTRIES then junks[j] else ZeroBlock()
  }

  function JunkTail(junks: seq<Block>): seq<Block> {
    if junks == [] then [] else junks[1..]
  }

  function Plans(prog: seq<ProgramSegment>, zeroPage: Block, junks: seq<Block>): seq<Segment> {
    if prog == [] then []
    else [Plan(prog[0], zeroPage, JunkAt(junks, 0))] + Plans(prog[1..], zeroPage, JunkTail(junks))
  }

  /** The number of STACK_PAGE. */
  const STACK_NUMBER: nat := 954 * 1024 + 1021

  /** The pages the segment may write to the page file: one page more than the file contents fill. */
  function Extent(seg: ProgramSegment): nat {
    if MemPages(seg) > LastPage(seg) then MemPages(seg) else LastPage(seg) + 1
  }

  /** Segments in ascending order that share no pages in memory and stay below the stack page. */
  ghost predicate WellFormed(prog: seq<ProgramSegment>) {
    prog != [] ==>
      && SegmentOk(prog[0]) && prog[0].start + Extent(prog[0]) <= STACK_NUMBER
      && (|prog| > 1 ==> prog[0].start + MemPages(prog[0]) <= prog[1].start)
      && WellFormed(prog[1..])
  }

  // ---------- what is right and what is not ----------

  /** The file contents start inside a page and end before the end of it.  The last page is then the first one, and
      what was written of it is written again, from a source pointer that has moved on. */
  predicate Misplaced(seg: ProgramSegment) {
    0 < seg.offset && seg.offset + seg.file < PAGE_SIZE
  }

  /** The first word that starts at the virtual address or after it. */
  function FirstWord(seg: ProgramSegment): nat { (seg.offset + 3) / 4 }

  /** By chance the bytes there are the same, from the first whole word on. */
  ghost predicate Repeats(seg: ProgramSegment) {
    forall x: nat :: 4 * FirstWord(seg) <= x < seg.offset + seg.file ==> RepeatsAt(seg, x)
  }

  predicate RepeatsAt(seg: ProgramSegment, x: nat) {
    ImageAt(seg, x + PAGE_SIZE - seg.offset) == ImageAt(seg, x - seg.offset)
  }

  /** When page i of the segment is as it should be. */
  ghost predicate Right(seg: ProgramSegment, zeroPage: Block, i: nat) {
    if i >= FilePages(seg) then zeroPage == ZeroBlock() else i == 0 && Misplaced(seg) ==> Repeats(seg)
  }

  /** What page i of the segment finally is in the page file. */
  function FilePage(seg: ProgramSegment, zeroPage: Block, i: nat): Block {
    if i >= FilePages(seg) then zeroPage
    else if i == LastPage(seg) then Words(LastBytes(seg))
    else if i < FirstWhole(seg) then Words(FirstBytes(seg))
    else Words(WholeBytes(seg, i))
  }

  /** Block b has the words of page i, as far as they lie at the virtual address or after it. */
  ghost predicate HasWords(seg: ProgramSegment, b: Block, i: nat)
    requires |b| == NPTENTRIES
  {
    forall k: nat :: k < NPTENTRIES && Rel(seg, i, 4 * k) >= 0 ==> b[k] == WordOf(seg, i, k)
  }

  /** A page of bytes that are right from the virtual address on. */
  lemma BytesRight(seg: ProgramSegment, page: seq<Byte>, i: nat)
    requires |page| == PAGE_SIZE
    requires forall x: nat :: x < PAGE_SIZE && Rel(seg, i, x) >= 0 ==> page[x] == ByteAt(seg, Rel(seg, i, x))
    ensures HasWords(seg, Words(page), i)
  {
    hide ByteAt, WordFrom;
    forall k: nat | k < NPTENTRIES && Rel(seg, i, 4 * k) >= 0 ensures Words(page)[k] == WordOf(seg, i, k) {
      assert page[4 * k] == ByteAt(seg, Rel(seg, i, 4 * k)) && page[4 * k + 1] == ByteAt(seg, Rel(seg, i, 4 * k + 1));
      assert page[4 * k + 2] == ByteAt(seg, Rel(seg, i, 4 * k + 2)) && page[4 * k + 3] ==
          ByteAt(seg, Rel(seg, i, 4 * k + 3));
    }
  }

  /** Loaded pages are right, from the virtual address on. */
  lemma MemoryRight(seg: ProgramSegment, i: nat, held: Block)
    requires |held| == NPTENTRIES
    ensures HasWords(seg, PageBlock(seg, i, held), i)
  {
    hide ByteAt, ByteOf;
    BytesRight(seg, MemoryBytes(seg, i, held), i);
  }

  lemma FourBytes(n: nat)
    requires n < 0x1_0000_0000
    ensures n % 0x100 + 0x100 * (n / 0x100 % 0x100) + 0x1_0000 * (n / 0x1_0000 % 0x100)
              + 0x100_0000 * (n / 0x100_0000 % 0x100) == n
  {
  }

  /** Words before the virtual address stay as the frame held them. */
  lemma KeptBefore(seg: ProgramSegment, i: nat, held: Block, k: nat)
    requires |held| == NPTENTRIES && k < NPTENTRIES && Rel(seg, i, 4 * k + 3) < 0
    requires held[k].hi < 32 && Encode(held[k]) < 0x1_0000_0000
    ensures PageBlock(seg, i, held)[k] == held[k]
  {
    hide ByteAt, ByteOf, WordFrom;
    WordBytes(held, k);
    assert forall x: nat :: 4 * k <= x < 4 * k + 4 ==>
             Rel(seg, i, x) < 0 && MemoryByte(seg, i, held, x) == ByteOf(held, x);
    hide MemoryByte, Rel;
  }

  lemma WordBytes(b: Block, k: nat)
    requires k < |b| && b[k].hi < 32 && Encode(b[k]) < 0x1_0000_0000
    ensures WordFrom(ByteOf(b, 4 * k), ByteOf(b, 4 * k + 1), ByteOf(b, 4 * k + 2), ByteOf(b, 4 * k + 3)) == b[k]
  {
    hide Encode, Decode;
    var n := Encode(b[k]);
    assert ByteOf(b, 4 * k) == n % 0x100 && ByteOf(b, 4 * k + 1) == n / 0x100 % 0x100;
    assert ByteOf(b, 4 * k + 2) == n / 0x1_0000 % 0x100 && ByteOf(b, 4 * k + 3) == n / 0x100_0000 % 0x100;
    hide ByteOf;
    FourBytes(n);
    DecodeEncode(b[k]);
  }

  /** All pages but the first do not depend on what the frame held. */
  lemma OldIrrelevant(seg: ProgramSegment, i: nat, a: Block, b: Block)
    requires SegmentOk(seg) && i > 0 && |a| == |b| == NPTENTRIES
    ensures PageBlock(seg, i, a) == PageBlock(seg, i, b)
  {
    hide ByteAt, ByteOf, Words;
    assert MemoryBytes(seg, i, a) == MemoryBytes(seg, i, b);
  }

  lemma DigitsDiffer(a: Byte, b: Byte, x: nat, y: nat)
    ensures a + 0x100 * x == b + 0x100 * y <==> a == b && x == y
  {
  }

  /** Words are equal if and only if their bytes are. */
  lemma WordsDiffer(a0: Byte, a1: Byte, a2: Byte, a3: Byte, b0: Byte, b1: Byte, b2: Byte, b3: Byte)
    ensures WordFrom(a0, a1, a2, a3) == WordFrom(b0, b1, b2, b3) <==> a0 == b0 && a1 == b1 && a2 == b2 && a3 == b3
  {
    hide Decode;
    DecodeInjective(a0 + 0x100 * a1 + 0x1_0000 * a2 + 0x100_0000 * a3,
        b0 + 0x100 * b1 + 0x1_0000 * b2 + 0x100_0000 * b3);
    DigitsDiffer(a0, b0, a1 + 0x100 * (a2 + 0x100 * a3), b1 + 0x100 * (b2 + 0x100 * b3));
    DigitsDiffer(a1, b1, a2 + 0x100 * a3, b2 + 0x100 * b3);
    DigitsDiffer(a2, b2, a3, b3);
  }

  /** The page of a misplaced segment is right if and only if the bytes repeat. */
  lemma MisplacedIff(seg: ProgramSegment)
    requires SegmentOk(seg) && Misplaced(seg)
    ensures HasWords(seg, Words(LastBytes(seg)), 0) <==> Repeats(seg)
  {
    hide ImageAt;
    var page := LastBytes(seg);
    forall x: nat | x < PAGE_SIZE ensures page[x] == MisplacedByte(seg, x) {
      MisplacedAt(seg, x);
    }
    hide LastBytes;
    if Repeats(seg) {
      forall k: nat | k < NPTENTRIES && Rel(seg, 0, 4 * k) >= 0 ensures Words(page)[k] == WordOf(seg, 0, k) {
        SameBytes(seg, page, k);
      }
    }
    if HasWords(seg, Words(page), 0) {
      forall x: nat | 4 * FirstWord(seg) <= x < seg.offset + seg.file ensures RepeatsAt(seg, x) {
        ByteInWord(seg, page, x);
      }
    }
  }

  function MisplacedByte(seg: ProgramSegment, x: nat): Byte {
    if x < seg.offset + seg.file then ImageAt(seg, x + PAGE_SIZE - seg.offset) else 0
  }

  lemma MisplacedAt(seg: ProgramSegment, x: nat)
    requires SegmentOk(seg) && Misplaced(seg)
    ensures LastByte(seg, x) == MisplacedByte(seg, x) && LastPage(seg) == 0
  {
    assert LastPage(seg) == 0;
    assert WholePages(seg) == 0;
  }

  lemma SameBytes(seg: ProgramSegment, page: seq<Byte>, k: nat)
    requires SegmentOk(seg) && Misplaced(seg) && Repeats(seg) && |page| == PAGE_SIZE && k < NPTENTRIES
    requires Rel(seg, 0, 4 * k) >= 0 && forall x: nat :: x < PAGE_SIZE ==> page[x] == MisplacedByte(seg, x)
    ensures Words(page)[k] == WordOf(seg, 0, k)
  {
    hide ImageAt, WordFrom;
    SameByte(seg, 4 * k);
    SameByte(seg, 4 * k + 1);
    SameByte(seg, 4 * k + 2);
    SameByte(seg, 4 * k + 3);
    hide ByteAt, MisplacedByte;
  }

  lemma SameByte(seg: ProgramSegment, x: nat)
    requires SegmentOk(seg) && Misplaced(seg) && Repeats(seg) && 4 * FirstWord(seg) <= x
    ensures MisplacedByte(seg, x) == ByteAt(seg, Rel(seg, 0, x))
  {
    hide ImageAt;
    assert x < seg.offset + seg.file ==> RepeatsAt(seg, x);
  }

  lemma ByteInWord(seg: ProgramSegment, page: seq<Byte>, x: nat)
    requires SegmentOk(seg) && Misplaced(seg) && |page| == PAGE_SIZE && HasWords(seg, Words(page), 0)
    requires forall x: nat :: x < PAGE_SIZE ==> page[x] == MisplacedByte(seg, x)
    requires 4 * FirstWord(seg) <= x < seg.offset + seg.file
    ensures RepeatsAt(seg, x)
  {
    hide ImageAt, WordFrom;
    var k := x / 4;
    var r := Rel(seg, 0, 4 * k);
    assert r >= 0 && Words(page)[k] == WordOf(seg, 0, k);
    WordsDiffer(page[4 * k], page[4 * k + 1], page[4 * k + 2], page[4 * k + 3],
                ByteAt(seg, r), ByteAt(seg, r + 1), ByteAt(seg, r + 2), ByteAt(seg, r + 3));
    assert page[x] == ByteAt(seg, x - seg.offset);
  }

  /** What is in the page file is right or not. */
  lemma FilePageIff(seg: ProgramSegment, zeroPage: Block, i: nat)
    requires SegmentOk(seg) && |zeroPage| == NPTENTRIES
    ensures |FilePage(seg, zeroPage, i)| == NPTENTRIES
    ensures HasWords(seg, FilePage(seg, zeroPage, i), i) <==> Right(seg, zeroPage, i)
  {
    hide HasWords, Words, Repeats;
    if i >= FilePages(seg) {
      ZeroIff(seg, zeroPage, i);
    } else if i == LastPage(seg) {
      if Misplaced(seg) {
        MisplacedIff(seg);
      } else {
        LastRight(seg);
      }
    } else if i < FirstWhole(seg) {
      FirstRight(seg);
    } else {
      WholeRight(seg, i);
    }
  }

  lemma LastRight(seg: ProgramSegment)
    requires SegmentOk(seg) && !Misplaced(seg)
    ensures HasWords(seg, Words(LastBytes(seg)), LastPage(seg))
  {
    hide ImageAt;
    var i, page := LastPage(seg), LastBytes(seg);
    assert SourceAfter(seg, WholePages(seg)) == PAGE_SIZE * i - seg.offset;
    forall x: nat | x < PAGE_SIZE && Rel(seg, i, x) >= 0 ensures page[x] == ByteAt(seg, Rel(seg, i, x)) {
    }
    BytesRight(seg, page, i);
  }

  lemma FirstRight(seg: ProgramSegment)
    requires SegmentOk(seg) && seg.offset > 0 && LastPage(seg) > 0
    ensures HasWords(seg, Words(FirstBytes(seg)), 0)
  {
    hide ImageAt;
    assert seg.offset + seg.file >= PAGE_SIZE;
    BytesRight(seg, FirstBytes(seg), 0);
  }

  lemma WholeRight(seg: ProgramSegment, i: nat)
    requires SegmentOk(seg) && FirstWhole(seg) <= i < LastPage(seg)
    ensures HasWords(seg, Words(WholeBytes(seg, i)), i)
  {
    hide ImageAt;
    assert PAGE_SIZE * (i + 1) <= seg.offset + seg.file;
    BytesRight(seg, WholeBytes(seg, i), i);
  }

  lemma ZeroIff(seg: ProgramSegment, zeroPage: Block, i: nat)
    requires SegmentOk(seg) && |zeroPage| == NPTENTRIES && i >= FilePages(seg)
    ensures HasWords(seg, zeroPage, i) <==> zeroPage == ZeroBlock()
  {
    hide ImageAt, Decode;
    DecodeZero();
    assert PAGE_SIZE * i >= seg.offset + seg.file;
    forall k: nat | k < NPTENTRIES ensures Rel(seg, i, 4 * k) >= 0 && WordOf(seg, i, k) == ZERO {
      var r := Rel(seg, i, 4 * k);
      assert r >= seg.file;
      assert ByteAt(seg, r) == 0 && ByteAt(seg, r + 1) == 0 && ByteAt(seg, r + 2) == 0 && ByteAt(seg, r + 3) == 0;
    }
    hide WordOf, Rel;
    if HasWords(seg, zeroPage, i) {
      assert forall k: nat :: k < NPTENTRIES ==> zeroPage[k] == ZeroBlock()[k];
    }
  }

  lemma DecodeZero()
    ensures Decode(0) == ZERO
  {
    ZeroWord();
  }

  // ---------- what a run of writes leaves ----------

  /** The map some writes leave: the last write to a page counts. */
  function Written(ps: seq<(Vpn, Block)>): map<Vpn, Block> {
    if ps == [] then map[] else Written(Lru.Front(ps))[Lru.Last(ps).0 := Lru.Last(ps).1]
  }

  lemma {:induction false} WrittenConcat(a: seq<(Vpn, Block)>, b: seq<(Vpn, Block)>)
    ensures Written(a + b) == Written(a) + Written(b)
  {
    if b == [] {
      assert a + b == a;
    } else {
      assert Lru.Front(a + b) == a + Lru.Front(b) && Lru.Last(a + b) == Lru.Last(b);
      WrittenConcat(a, Lru.Front(b));
    }
  }

  lemma WrittenFour(a: seq<(Vpn, Block)>, b: seq<(Vpn, Block)>, c: seq<(Vpn, Block)>, d: seq<(Vpn, Block)>)
    ensures Written(a + b + c + d) == Written(a) + Written(b) + Written(c) + Written(d)
  {
    hide Written;
    WrittenConcat(a + b + c, d);
    WrittenConcat(a + b, c);
    WrittenConcat(a, b);
  }

  lemma SegPageIs(seg: ProgramSegment, i: nat)
    ensures forall v: Vpn :: v == SegPage(seg, i) <==> v.t < 1024 && Number(v) == seg.start + i
  {
    forall v: Vpn ensures v == SegPage(seg, i) <==> v.t < 1024 && Number(v) == seg.start + i {
      NthNumber(seg.start + i, v);
    }
  }

  lemma PagesDiffer(seg: ProgramSegment, i: nat, k: nat)
    ensures SegPage(seg, i) == SegPage(seg, k) ==> i == k
    ensures Number(SegPage(seg, i)) == seg.start + i && SegPage(seg, i).t < 1024
  {
    hide Number, SegPage;
    SegPageIs(seg, i);
    SegPageIs(seg, k);
    assert Number(SegPage(seg, k)) == seg.start + k;
  }

  /** All pages of m have numbers from lo to hi - 1. */
  ghost predicate From(m: map<Vpn, Block>, lo: nat, hi: nat) {
    forall v :: v in m ==> v.t < 1024 && lo <= Number(v) < hi
  }

  /** A run of pages of the segment, one after the other. */
  lemma {:induction false} RunAt(seg: ProgramSegment, ps: seq<(Vpn, Block)>, from: nat, i: nat)
    requires forall k :: 0 <= k < |ps| ==> ps[k].0 == SegPage(seg, from + k)
    ensures from <= i < from + |ps| ==> SegPage(seg, i) in Written(ps) && Written(ps)[SegPage(seg, i)] == ps[i - from].1
    ensures !(from <= i < from + |ps|) ==> SegPage(seg, i) !in Written(ps)
    ensures From(Written(ps), seg.start + from, seg.start + from + |ps|)
  {
    hide SegPage, Number;
    if ps != [] {
      RunAt(seg, Lru.Front(ps), from, i);
      PagesDiffer(seg, i, from + |ps| - 1);
      PagesDiffer(seg, from + |ps| - 1, i);
    }
  }

  lemma PageCounts(seg: ProgramSegment)
    requires SegmentOk(seg)
    ensures LastPage(seg) <= FilePages(seg) <= LastPage(seg) + 1 && FilePages(seg) <= MemPages(seg)
    ensures ZeroPages(seg) == MemPages(seg) - FilePages(seg) && FirstWhole(seg) <= 1
    ensures LastPage(seg) < FirstWhole(seg) ==> LastPage(seg) == 0 && WholePages(seg) == 0 && FilePages(seg) == 1
    ensures LastPage(seg) >= FirstWhole(seg) ==> FirstWhole(seg) + WholePages(seg) == LastPage(seg)
    ensures MemPages(seg) <= Extent(seg) && LastPage(seg) < Extent(seg)
  {
  }

  // The four parts of what is written for a segment.

  function FirstRun(seg: ProgramSegment): seq<(Vpn, Block)> { [(SegPage(seg, 0), Words(FirstBytes(seg)))] }

  function WholeRun(seg: ProgramSegment): seq<(Vpn, Block)> { Run(seg, FirstWhole(seg), WholeBlocks(seg)) }

  function LastRun(seg: ProgramSegment): seq<(Vpn, Block)> { [(SegPage(seg, LastPage(seg)), Words(LastBytes(seg)))] }

  function ZeroRun(seg: ProgramSegment, zeroPage: Block): seq<(Vpn, Block)> {
    Run(seg, FilePages(seg), Copies(zeroPage, ZeroPages(seg)))
  }

  /** The pages from lo to hi - 1 of the segment have been written, page i among them or not. */
  ghost predicate Part(seg: ProgramSegment, m: map<Vpn, Block>, lo: nat, hi: nat, i: nat) {
    && (lo <= i < hi <==> SegPage(seg, i) in m)
    && From(m, seg.start + lo, seg.start + hi)
  }

  lemma EndsAt(seg: ProgramSegment, i: nat)
    ensures Part(seg, Written(FirstRun(seg)), 0, 1, i)
    ensures Part(seg, Written(LastRun(seg)), LastPage(seg), LastPage(seg) + 1, i)
    ensures i == 0 ==> Written(FirstRun(seg))[SegPage(seg, i)] == Words(FirstBytes(seg))
    ensures i == LastPage(seg) ==> Written(LastRun(seg))[SegPage(seg, i)] == Words(LastBytes(seg))
  {
    hide SegPage, LastPage, Words, FirstBytes, LastBytes, Written, From;
    RunAt(seg, FirstRun(seg), 0, i);
    RunAt(seg, LastRun(seg), LastPage(seg), i);
  }

  lemma WholeAt(seg: ProgramSegment, i: nat)
    ensures var f, w := FirstWhole(seg), WholePages(seg);
            && Part(seg, Written(WholeRun(seg)), f, f + w, i)
            && (f <= i < f + w ==> Written(WholeRun(seg))[SegPage(seg, i)] == Words(WholeBytes(seg, i)))
  {
    hide SegPage, FirstWhole, WholePages, Words, WholeBytes, Written, From;
    RunAt(seg, WholeRun(seg), FirstWhole(seg), i);
  }

  lemma ZeroAt(seg: ProgramSegment, zeroPage: Block, i: nat)
    ensures var c, z := FilePages(seg), ZeroPages(seg);
            && Part(seg, Written(ZeroRun(seg, zeroPage)), c, c + z, i)
            && (c <= i < c + z ==> Written(ZeroRun(seg, zeroPage))[SegPage(seg, i)] == zeroPage)
  {
    hide SegPage, FilePages, ZeroPages, Written, From;
    RunAt(seg, ZeroRun(seg, zeroPage), FilePages(seg), i);
  }

  lemma FourRuns(seg: ProgramSegment, zeroPage: Block)
    ensures FileRun(seg, zeroPage) == FirstRun(seg) + WholeRun(seg) + LastRun(seg) + ZeroRun(seg, zeroPage)
  {
    hide Words, FirstBytes, LastBytes, WholeBlocks, Copies, Run, SegPage, LastPage, FilePages, FirstWhole;
  }

  lemma WrittenParts(seg: ProgramSegment, zeroPage: Block)
    ensures Written(FileRun(seg, zeroPage)) ==
              Written(FirstRun(seg)) + Written(WholeRun(seg)) + Written(LastRun(seg)) + Written(ZeroRun(seg, zeroPage))
  {
    hide *;
    FourRuns(seg, zeroPage);
    WrittenFour(FirstRun(seg), WholeRun(seg), LastRun(seg), ZeroRun(seg, zeroPage));
  }

  /** Page i of the segment in the page file. */
  lemma FileRunPage(seg: ProgramSegment, zeroPage: Block, i: nat)
    requires SegmentOk(seg) && i < MemPages(seg)
    ensures SegPage(seg, i) in Written(FileRun(seg, zeroPage))
    ensures Written(FileRun(seg, zeroPage))[SegPage(seg, i)] == FilePage(seg, zeroPage, i)
  {
    PageCounts(seg);
    hide FirstWhole, WholePages, LastPage, FilePages, ZeroPages, MemPages, SegPage, Written, Words, LastBytes,
         FirstBytes, WholeBytes, FileRun, FirstRun, WholeRun, LastRun, ZeroRun, From, Number;
    WrittenParts(seg, zeroPage);
    EndsAt(seg, i);
    WholeAt(seg, i);
    ZeroAt(seg, zeroPage, i);
  }

  lemma EndsFrom(seg: ProgramSegment)
    requires SegmentOk(seg)
    ensures From(Written(FirstRun(seg)), seg.start, seg.start + Extent(seg))
    ensures From(Written(LastRun(seg)), seg.start, seg.start + Extent(seg))
  {
    PageCounts(seg);
    hide *;
    EndsAt(seg, 0);
    PartFrom(seg, Written(FirstRun(seg)), 0, 1, Extent(seg));
    PartFrom(seg, Written(LastRun(seg)), LastPage(seg), LastPage(seg) + 1, Extent(seg));
  }

  lemma MiddleFrom(seg: ProgramSegment, zeroPage: Block)
    requires SegmentOk(seg)
    ensures From(Written(WholeRun(seg)), seg.start, seg.start + Extent(seg))
    ensures From(Written(ZeroRun(seg, zeroPage)), seg.start, seg.start + Extent(seg))
  {
    PageCounts(seg);
    hide *;
    WholeAt(seg, 0);
    ZeroAt(seg, zeroPage, 0);
    PartFrom(seg, Written(WholeRun(seg)), FirstWhole(seg), FirstWhole(seg) + WholePages(seg), Extent(seg));
    PartFrom(seg, Written(ZeroRun(seg, zeroPage)), FilePages(seg), FilePages(seg) + ZeroPages(seg), Extent(seg));
  }

  lemma FileRunFrom(seg: ProgramSegment, zeroPage: Block)
    requires SegmentOk(seg)
    ensures From(Written(FileRun(seg, zeroPage)), seg.start, seg.start + Extent(seg))
  {
    hide *;
    WrittenParts(seg, zeroPage);
    EndsFrom(seg);
    MiddleFrom(seg, zeroPage);
    JoinFrom(Written(FirstRun(seg)), Written(WholeRun(seg)), Written(LastRun(seg)), Written(ZeroRun(seg, zeroPage)),
             seg.start, seg.start + Extent(seg));
  }

  lemma PartFrom(seg: ProgramSegment, m: map<Vpn, Block>, lo: nat, hi: nat, extent: nat)
    requires Part(seg, m, lo, hi, 0) && (lo < hi ==> hi <= extent)
    ensures From(m, seg.start, seg.start + extent)
  {
    hide Number, SegPage;
  }

  lemma JoinFrom(a: map<Vpn, Block>, b: map<Vpn, Block>, c: map<Vpn, Block>, d: map<Vpn, Block>, lo: nat, hi: nat)
    requires From(a, lo, hi) && From(b, lo, hi) && From(c, lo, hi) && From(d, lo, hi)
    ensures From(a + b + c + d, lo, hi)
  {
    hide Number;
  }

  // ---------- all segments ----------

  lemma {:induction false} FileConcat(a: seq<Step>, b: seq<Step>)
    ensures FileImage(a + b) == FileImage(a) + FileImage(b) && Image(a + b) == Image(a) + Image(b)
  {
    if b == [] {
      assert a + b == a;
    } else {
      assert Lru.Front(a + b) == a + Lru.Front(b) && Lru.Last(a + b) == Lru.Last(b);
      FileConcat(a, Lru.Front(b));
    }
  }

  lemma {:induction false} MemoryImage(ps: seq<(Vpn, Block)>)
    ensures Image(InMemorySteps(ps)) == Written(ps) && FileImage(InMemorySteps(ps)) == map[]
    decreases |ps|
  {
    if ps != [] {
      assert Lru.Front(InMemorySteps(ps)) == InMemorySteps(Lru.Front(ps));
      MemoryImage(Lru.Front(ps));
    }
  }

  lemma {:induction false} FileSteps(ps: seq<(Vpn, Block)>)
    ensures FileImage(InFileSteps(ps)) == Written(ps) && Image(InFileSteps(ps)) == map[]
    decreases |ps|
  {
    if ps != [] {
      assert Lru.Front(InFileSteps(ps)) == InFileSteps(Lru.Front(ps));
      FileSteps(Lru.Front(ps));
    }
  }

  /** One segment: what is loaded of it, and what is written. */
  lemma SegmentImages(seg: ProgramSegment, zeroPage: Block, junk: Block, remaining: nat)
    requires |junk| == NPTENTRIES
    ensures var plan := Plan(seg, zeroPage, junk);
            var k := LoadCount(plan, remaining);
            && k <= MemPages(seg) && k <= remaining
            && Image(SegmentSteps(plan, remaining)) == Written(MemoryRun(seg, junk)[..k])
            && FileImage(SegmentSteps(plan, remaining)) == Written(FileRun(seg, zeroPage))
  {
    hide FileRun, InMemorySteps, InFileSteps, Written, Image, FileImage, MemPages, PageBlock, SegPage;
    var plan := Plan(seg, zeroPage, junk);
    var k := LoadCount(plan, remaining);
    var a, b := InMemorySteps(plan.mem[..k]), InFileSteps(plan.file);
    MemoryImage(plan.mem[..k]);
    FileSteps(plan.file);
    FileConcat(a, b);
    assert Image(a) + map[] == Image(a) && map[] + FileImage(b) == FileImage(b);
  }

  lemma SegmentFrom(seg: ProgramSegment, zeroPage: Block, junk: Block, remaining: nat)
    requires SegmentOk(seg) && |junk| == NPTENTRIES
    ensures var ops := SegmentSteps(Plan(seg, zeroPage, junk), remaining);
            && From(Image(ops), seg.start, seg.start + MemPages(seg))
            && From(FileImage(ops), seg.start, seg.start + Extent(seg))
            && forall v :: v in Image(ops) ==> v in FileImage(ops)
  {
    hide FileRun, SegmentSteps, Written, Image, FileImage, MemPages, PageBlock, SegPage, Number, Extent;
    SegmentImages(seg, zeroPage, junk, remaining);
    var k := LoadCount(Plan(seg, zeroPage, junk), remaining);
    var ps := MemoryRun(seg, junk)[..k];
    RunAt(seg, ps, 0, 0);
    FileRunFrom(seg, zeroPage);
    forall v | v in Written(ps) ensures v in Written(FileRun(seg, zeroPage)) {
      var i := Number(v) - seg.start;
      FileRunPage(seg, zeroPage, i);
      SegPageIs(seg, i);
    }
  }

  /** The first page number of a program's rest, the end of the last segment if nothing follows. */
  function NextStart(prog: seq<ProgramSegment>): nat
    requires prog != []
  {
    if |prog| > 1 then prog[1].start else prog[0].start + MemPages(prog[0])
  }

  lemma PlansRest(prog: seq<ProgramSegment>, zeroPage: Block, junks: seq<Block>)
    requires prog != []
    ensures var segs := Plans(prog, zeroPage, junks);
            && segs != [] && segs[0] == Plan(prog[0], zeroPage, JunkAt(junks, 0))
            && segs[1..] == Plans(prog[1..], zeroPage, JunkTail(junks))
    ensures prog[1..] == [] ==> Plans(prog[1..], zeroPage, JunkTail(junks)) == []
  {
    hide Plan, JunkTail, JunkAt;
  }

  lemma StepsTail(segs: seq<Segment>, remaining: nat)
    requires segs != []
    ensures LoadCount(segs[0], remaining) <= remaining
    ensures Steps(segs, remaining) ==
              SegmentSteps(segs[0], remaining) + Steps(segs[1..], remaining - LoadCount(segs[0], remaining))
  {
  }

  lemma PlansTail(prog: seq<ProgramSegment>, zeroPage: Block, junks: seq<Block>, remaining: nat)
    requires prog != []
    ensures var plan := Plan(prog[0], zeroPage, JunkAt(junks, 0));
            Steps(Plans(prog, zeroPage, junks), remaining) ==
              SegmentSteps(plan, remaining)
              + Steps(Plans(prog[1..], zeroPage, JunkTail(junks)), remaining - LoadCount(plan, remaining))
  {
    hide *;
    PlansRest(prog, zeroPage, junks);
    StepsTail(Plans(prog, zeroPage, junks), remaining);
  }

  lemma EmptyImage()
    ensures Image([]) == map[] && FileImage([]) == map[]
    ensures forall lo: nat, hi: nat :: From(map[], lo, hi)
  {
  }

  lemma NoSteps(zeroPage: Block, junks: seq<Block>, remaining: nat)
    ensures Steps(Plans([], zeroPage, junks), remaining) == []
  {
  }

  /** Above every page number. */
  const TOP: nat := 0x4000_0000

  /** The pages of a program: what is loaded is written, too, and all have numbers from the first segment's on. */
  ghost predicate ProgramFrom(ops: seq<Step>, lo: nat) {
    && From(Image(ops), lo, TOP) && From(FileImage(ops), lo, TOP) && forall v :: v in Image(ops) ==> v in FileImage(ops)
  }

  lemma LoadCountFits(seg: ProgramSegment, zeroPage: Block, junk: Block, remaining: nat)
    requires |junk| == NPTENTRIES
    ensures LoadCount(Plan(seg, zeroPage, junk), remaining) <= remaining
  {
  }

  lemma {:induction false} ProgramPages(prog: seq<ProgramSegment>, zeroPage: Block, junks: seq<Block>, remaining: nat)
    requires WellFormed(prog)
    ensures var ops := Steps(Plans(prog, zeroPage, junks), remaining);
            ProgramFrom(ops, if prog == [] then 0 else prog[0].start)
  {
    hide Steps, SegmentSteps, Plans, Plan, Image, FileImage, From, MemPages, Extent, LoadCount, JunkAt, JunkTail,
         ProgramFrom;
    EmptyImage();
    if prog == [] {
      NoSteps(zeroPage, junks, remaining);
      EmptyFrom();
    } else {
      var junk := JunkAt(junks, 0);
      var k := LoadCount(Plan(prog[0], zeroPage, junk), remaining);
      LoadCountFits(prog[0], zeroPage, junk, remaining);
      var a := SegmentSteps(Plan(prog[0], zeroPage, junk), remaining);
      var b := Steps(Plans(prog[1..], zeroPage, JunkTail(junks)), remaining - k);
      PlansTail(prog, zeroPage, junks, remaining);
      SegmentFrom(prog[0], zeroPage, junk, remaining);
      ProgramPages(prog[1..], zeroPage, JunkTail(junks), remaining - k);
      FileConcat(a, b);
      ExtentTop(prog[0]);
      if |prog| == 1 {
        assert prog[1..] == [];
        NoSteps(zeroPage, JunkTail(junks), remaining - k);
      }
      JoinPages(a, b, prog[0], NextStart(prog));
    }
  }

  lemma EmptyFrom()
    ensures ProgramFrom([], 0)
  {
  }

  lemma ExtentTop(seg: ProgramSegment)
    requires SegmentOk(seg) && seg.start + Extent(seg) <= STACK_NUMBER
    ensures seg.start + MemPages(seg) <= TOP && seg.start + Extent(seg) <= TOP
  {
  }

  lemma JoinPages(a: seq<Step>, b: seq<Step>, seg: ProgramSegment, lo: nat)
    requires From(Image(a), seg.start, seg.start + MemPages(seg))
    requires From(FileImage(a), seg.start, seg.start + Extent(seg))
    requires forall v :: v in Image(a) ==> v in FileImage(a)
    requires seg.start + MemPages(seg) <= TOP && seg.start + Extent(seg) <= TOP
    requires b == [] || ProgramFrom(b, lo)
    requires seg.start <= lo && Image(a + b) == Image(a) + Image(b) && FileImage(a + b) == FileImage(a) + FileImage(b)
    ensures ProgramFrom(a + b, seg.start)
  {
    hide MemPages, Extent, Number;
  }

  lemma {:induction false} StartsAscend(prog: seq<ProgramSegment>, j: nat)
    requires WellFormed(prog) && 0 < j < |prog|
    ensures prog[0].start + MemPages(prog[0]) <= prog[j].start && SegmentOk(prog[j])
    decreases |prog|
  {
    if j > 1 {
      StartsAscend(prog[1..], j - 1);
    }
    assert WellFormed(prog[1..]) && prog[1..][0] == prog[1];
  }

  /** Page i of segment j in the page file. */
  lemma {:induction false} ProgramFile(prog: seq<ProgramSegment>, zeroPage: Block, junks: seq<Block>, remaining: nat,
                                       j: nat, i: nat)
    requires WellFormed(prog) && j < |prog| && i < MemPages(prog[j])
    ensures var file := FileImage(Steps(Plans(prog, zeroPage, junks), remaining));
            SegPage(prog[j], i) in file && file[SegPage(prog[j], i)] == FilePage(prog[j], zeroPage, i)
    decreases |prog|
  {
    hide Steps, SegmentSteps, Plans, Plan, Image, FileImage, From, FilePage, MemPages, SegPage, Extent, Number;
    var plan := Plan(prog[0], zeroPage, JunkAt(junks, 0));
    SegmentImages(prog[0], zeroPage, JunkAt(junks, 0), remaining);
    var k := LoadCount(plan, remaining);
    var a, b := SegmentSteps(plan, remaining), Steps(Plans(prog[1..], zeroPage, JunkTail(junks)), remaining - k);
    PlansTail(prog, zeroPage, junks, remaining);
    FileConcat(a, b);
    if j > 0 {
      assert prog[1..][j - 1] == prog[j];
      ProgramFile(prog[1..], zeroPage, JunkTail(junks), remaining - k, j - 1, i);
    } else {
      FileRunPage(prog[0], zeroPage, i);
      NotLater(prog, zeroPage, junks, remaining - k, i);
    }
  }

  /** No later segment touches a page of the first one. */
  lemma NotLater(prog: seq<ProgramSegment>, zeroPage: Block, junks: seq<Block>, remaining: nat, i: nat)
    requires WellFormed(prog) && prog != [] && i < MemPages(prog[0])
    ensures var b := Steps(Plans(prog[1..], zeroPage, JunkTail(junks)), remaining);
            SegPage(prog[0], i) !in FileImage(b) && SegPage(prog[0], i) !in Image(b)
  {
    hide Steps, Plans, Image, FileImage, MemPages, SegPage, Number, Extent;
    ProgramPages(prog[1..], zeroPage, JunkTail(junks), remaining);
    PagesDiffer(prog[0], i, i);
    EmptyImage();
    if |prog| == 1 {
      assert prog[1..] == [];
      NoSteps(zeroPage, JunkTail(junks), remaining);
    }
  }

  /** If page i of segment j was loaded, memory has the segment's bytes. */
  lemma {:induction false} LoadedPage(prog: seq<ProgramSegment>, zeroPage: Block, junks: seq<Block>, remaining: nat,
                                      j: nat, i: nat)
    requires WellFormed(prog) && j < |prog| && i < MemPages(prog[j])
    ensures var ram, v := Image(Steps(Plans(prog, zeroPage, junks), remaining)), SegPage(prog[j], i);
            v in ram ==> |ram[v]| == NPTENTRIES && HasWords(prog[j], ram[v], i)
    decreases |prog|
  {
    hide Steps, SegmentSteps, Plans, Plan, Image, FileImage, HasWords, MemPages, SegPage, Extent, Number, PageBlock;
    var junk := JunkAt(junks, 0);
    var plan := Plan(prog[0], zeroPage, junk);
    LoadCountFits(prog[0], zeroPage, junk, remaining);
    var k := LoadCount(plan, remaining);
    var a, b := SegmentSteps(plan, remaining), Steps(Plans(prog[1..], zeroPage, JunkTail(junks)), remaining - k);
    PlansTail(prog, zeroPage, junks, remaining);
    FileConcat(a, b);
    if j > 0 {
      assert prog[1..][j - 1] == prog[j];
      LoadedPage(prog[1..], zeroPage, JunkTail(junks), remaining - k, j - 1, i);
      SegmentFrom(prog[0], zeroPage, junk, remaining);
      StartsAscend(prog, j);
      PagesDiffer(prog[j], i, i);
    } else {
      NotLater(prog, zeroPage, junks, remaining - k, i);
      LoadedHere(prog[0], zeroPage, junk, remaining, i);
    }
  }

  lemma LoadedHere(seg: ProgramSegment, zeroPage: Block, junk: Block, remaining: nat, i: nat)
    requires |junk| == NPTENTRIES
    ensures var ram, v := Image(SegmentSteps(Plan(seg, zeroPage, junk), remaining)), SegPage(seg, i);
            v in ram ==> |ram[v]| == NPTENTRIES && HasWords(seg, ram[v], i)
  {
    hide SegmentSteps, Plan, Image, FileImage, HasWords, MemPages, SegPage, Number, PageBlock, LoadCount, Written, From,
         FileRun;
    SegmentImages(seg, zeroPage, junk, remaining);
    RunAt(seg, MemoryRun(seg, junk)[..LoadCount(Plan(seg, zeroPage, junk), remaining)], 0, i);
    MemoryRight(seg, i, junk);
  }

  // ---------- the steps are those of a program ----------

  ghost predicate GoodPage(v: Vpn, b: Block) {
    UserPage(v) && |b| == NPTENTRIES && v != STACK_PAGE
  }

  ghost predicate GoodStep(op: Step) { GoodPage(op.v, op.b) }

  lemma {:induction false} ImageOrder(ops: seq<Step>)
    ensures forall v :: v in Image(ops) <==> v in LoadedOrder(ops)
  {
    if ops != [] {
      ImageOrder(Lru.Front(ops));
    }
  }

  lemma {:induction false} StepsOk(ops: seq<Step>)
    requires (forall i :: 0 <= i < |ops| ==> GoodStep(ops[i])) && Distinct(LoadedOrder(ops))
    ensures ProgramOk(ops)
  {
    if ops != [] {
      var p, v := LoadedOrder(Lru.Front(ops)), Lru.Last(ops).v;
      ImageOrder(Lru.Front(ops));
      assert GoodStep(ops[|ops| - 1]);
      if Lru.Last(ops).InMemory? {
        assert LoadedOrder(ops) == p + [v];
        Lru.DistinctAppend(p, [v]);
        assert v in [v];
      } else {
        assert LoadedOrder(ops) == p;
      }
      StepsOk(Lru.Front(ops));
    }
  }

  /** Blocks for user pages other than the stack page. */
  ghost predicate GoodRun(ps: seq<(Vpn, Block)>) {
    forall i :: 0 <= i < |ps| ==> GoodPage(ps[i].0, ps[i].1)
  }

  /** The pages of a run below the stack page. */
  lemma RunGood(seg: ProgramSegment, ps: seq<(Vpn, Block)>, from: nat)
    requires forall k :: 0 <= k < |ps| ==> ps[k].0 == SegPage(seg, from + k) && |ps[k].1| == NPTENTRIES
    requires ps == [] || seg.start + from + |ps| <= STACK_NUMBER
    ensures GoodRun(ps)
  {
    hide SegPage, UserPage;
    forall i | 0 <= i < |ps| ensures GoodPage(ps[i].0, ps[i].1) {
      BelowStack(seg, from + i);
    }
  }

  lemma BelowStack(seg: ProgramSegment, i: nat)
    requires seg.start + i < STACK_NUMBER
    ensures UserPage(SegPage(seg, i)) && SegPage(seg, i) != STACK_PAGE
  {
    SegPageIs(seg, i);
  }

  lemma GoodConcat(a: seq<(Vpn, Block)>, b: seq<(Vpn, Block)>)
    requires GoodRun(a) && GoodRun(b)
    ensures GoodRun(a + b)
  {
    hide GoodPage;
  }

  lemma EndsGood(seg: ProgramSegment)
    requires SegmentOk(seg) && seg.start + Extent(seg) <= STACK_NUMBER
    ensures GoodRun(FirstRun(seg)) && GoodRun(LastRun(seg))
  {
    PageCounts(seg);
    hide SegPage, LastPage, Words, FirstBytes, LastBytes, GoodRun, Extent, MemPages;
    RunGood(seg, FirstRun(seg), 0);
    RunGood(seg, LastRun(seg), LastPage(seg));
  }

  lemma MiddleGood(seg: ProgramSegment, zeroPage: Block)
    requires SegmentOk(seg) && seg.start + Extent(seg) <= STACK_NUMBER && |zeroPage| == NPTENTRIES
    ensures GoodRun(WholeRun(seg)) && GoodRun(ZeroRun(seg, zeroPage))
  {
    PageCounts(seg);
    hide SegPage, LastPage, FirstWhole, FilePages, WholePages, ZeroPages, Words, WholeBytes, GoodRun, Extent, MemPages;
    RunGood(seg, WholeRun(seg), FirstWhole(seg));
    RunGood(seg, ZeroRun(seg, zeroPage), FilePages(seg));
  }

  lemma FileGood(seg: ProgramSegment, zeroPage: Block)
    requires SegmentOk(seg) && seg.start + Extent(seg) <= STACK_NUMBER && |zeroPage| == NPTENTRIES
    ensures GoodRun(FileRun(seg, zeroPage))
  {
    hide *;
    EndsGood(seg);
    MiddleGood(seg, zeroPage);
    FourRuns(seg, zeroPage);
    GoodConcat(FirstRun(seg), WholeRun(seg));
    GoodConcat(FirstRun(seg) + WholeRun(seg), LastRun(seg));
    GoodConcat(FirstRun(seg) + WholeRun(seg) + LastRun(seg), ZeroRun(seg, zeroPage));
  }

  lemma MemoryGood(seg: ProgramSegment, junk: Block)
    requires SegmentOk(seg) && seg.start + Extent(seg) <= STACK_NUMBER && |junk| == NPTENTRIES
    ensures GoodRun(MemoryRun(seg, junk))
  {
    PageCounts(seg);
    hide SegPage, PageBlock, MemPages, Extent, GoodRun, LastPage;
    RunGood(seg, MemoryRun(seg, junk), 0);
  }

  lemma SegmentGood(seg: ProgramSegment, zeroPage: Block, junk: Block, remaining: nat)
    requires SegmentOk(seg) && seg.start + Extent(seg) <= STACK_NUMBER && |zeroPage| == |junk| == NPTENTRIES
    ensures var ops := SegmentSteps(Plan(seg, zeroPage, junk), remaining);
            forall i :: 0 <= i < |ops| ==> GoodStep(ops[i])
  {
    MemoryGood(seg, junk);
    FileGood(seg, zeroPage);
    assert Plan(seg, zeroPage, junk).mem == MemoryRun(seg, junk) && Plan(seg, zeroPage, junk).file ==
        FileRun(seg, zeroPage);
    hide *;
    GoodSteps(Plan(seg, zeroPage, junk), remaining);
  }

  lemma GoodSteps(plan: Segment, remaining: nat)
    requires GoodRun(plan.mem) && GoodRun(plan.file)
    ensures var ops := SegmentSteps(plan, remaining); forall i :: 0 <= i < |ops| ==> GoodStep(ops[i])
  {
    hide GoodPage;
  }

  lemma {:induction false} ProgramGood(prog: seq<ProgramSegment>, zeroPage: Block, junks: seq<Block>, remaining: nat)
    requires WellFormed(prog) && |zeroPage| == NPTENTRIES
    ensures var ops := Steps(Plans(prog, zeroPage, junks), remaining); forall i :: 0 <= i < |ops| ==> GoodStep(ops[i])
  {
    hide GoodStep, SegmentSteps, LoadCount, Plan, Extent, MemPages, JunkAt, JunkTail;
    if prog != [] {
      PlansTail(prog, zeroPage, junks, remaining);
      SegmentGood(prog[0], zeroPage, JunkAt(junks, 0), remaining);
      LoadCountFits(prog[0], zeroPage, JunkAt(junks, 0), remaining);
      var k := LoadCount(Plan(prog[0], zeroPage, JunkAt(junks, 0)), remaining);
      ProgramGood(prog[1..], zeroPage, JunkTail(junks), remaining - k);
    }
  }

  /** Page numbers grow along q, from lo on. */
  ghost predicate Ascending(q: seq<Vpn>, lo: nat) {
    && (forall i :: 0 <= i < |q| ==> lo <= Number(q[i]))
    && (forall i, j :: 0 <= i < j < |q| ==> Number(q[i]) < Number(q[j]))
  }

  lemma SegmentOrder(seg: ProgramSegment, zeroPage: Block, junk: Block, remaining: nat)
    requires |junk| == NPTENTRIES
    ensures var plan := Plan(seg, zeroPage, junk);
            var k := LoadCount(plan, remaining);
            && k <= MemPages(seg) && k <= remaining && |plan.mem| == MemPages(seg) && |PageNumbers(plan.mem[..k])| == k
            && forall i :: 0 <= i < k ==> Number(PageNumbers(plan.mem[..k])[i]) == seg.start + i
  {
    hide Number, SegPage, PageBlock, FileRun, MemPages;
    var plan := Plan(seg, zeroPage, junk);
    var k := LoadCount(plan, remaining);
    forall i | 0 <= i < k ensures Number(PageNumbers(plan.mem[..k])[i]) == seg.start + i {
      PagesDiffer(seg, i, i);
    }
  }

  lemma OrderTail(prog: seq<ProgramSegment>, zeroPage: Block, junks: seq<Block>, remaining: nat)
    requires prog != []
    ensures var plan := Plan(prog[0], zeroPage, JunkAt(junks, 0));
            var k := LoadCount(plan, remaining);
            && k <= |plan.mem|
            && MemoryOrder(Plans(prog, zeroPage, junks), remaining) ==
                 PageNumbers(plan.mem[..k]) + MemoryOrder(Plans(prog[1..], zeroPage, JunkTail(junks)), remaining - k)
    ensures prog[1..] == [] ==> forall r: nat :: MemoryOrder(Plans(prog[1..], zeroPage, JunkTail(junks)), r) == []
  {
    PlansRest(prog, zeroPage, junks);
    hide Plans, Plan, JunkTail, JunkAt, PageNumbers;
  }

  lemma {:induction false} OrderAscending(prog: seq<ProgramSegment>, zeroPage: Block, junks: seq<Block>, remaining: nat)
    requires WellFormed(prog)
    ensures Ascending(MemoryOrder(Plans(prog, zeroPage, junks), remaining), if prog == [] then 0 else prog[0].start)
  {
    if prog != [] {
      hide Number, MemPages, Extent, Ascending, JunkAt, JunkTail, Plan, Plans, PageNumbers, MemoryOrder, LoadCount;
      var plan := Plan(prog[0], zeroPage, JunkAt(junks, 0));
      var k := LoadCount(plan, remaining);
      SegmentOrder(prog[0], zeroPage, JunkAt(junks, 0), remaining);
      OrderTail(prog, zeroPage, junks, remaining);
      OrderAscending(prog[1..], zeroPage, JunkTail(junks), remaining - k);
      assert |prog| == 1 ==> prog[1..] == [];
      AscendingConcat(PageNumbers(plan.mem[..k]),
          MemoryOrder(Plans(prog[1..], zeroPage, JunkTail(junks)), remaining - k),
                      prog[0].start, NextStart(prog), |prog| == 1);
    } else {
      hide Number;
    }
  }

  lemma AscendingConcat(q: seq<Vpn>, r: seq<Vpn>, lo: nat, mid: nat, last: bool)
    requires (forall i :: 0 <= i < |q| ==> Number(q[i]) == lo + i) && lo + |q| <= mid
    requires if last then r == [] else Ascending(r, mid)
    ensures Ascending(q + r, lo)
  {
    hide Number;
  }

  /** A well-formed program can be created with any zero page. */
  lemma ProgramCovered(prog: seq<ProgramSegment>, zeroPage: Block, junks: seq<Block>, remaining: nat)
    requires WellFormed(prog) && |zeroPage| == NPTENTRIES
    ensures var ops := Steps(Plans(prog, zeroPage, junks), remaining); ProgramOk(ops) && Covered(ops)
  {
    var segs := Plans(prog, zeroPage, junks);
    ProgramGood(prog, zeroPage, junks, remaining);
    OrderAscending(prog, zeroPage, junks, remaining);
    OrderOfSteps(segs, remaining);
    hide Steps, Plans, Image, FileImage, GoodStep, ProgramOk, WellFormed, From, Number;
    StepsOk(Steps(segs, remaining));
    ProgramPages(prog, zeroPage, junks, remaining);
  }

  // ---------- the new environment's memory ----------

  /** Page i of the segment is in memory or in the page file, with all its words from the virtual address on. */
  ghost predicate HasPage(s: State, e: nat, seg: ProgramSegment, i: nat) {
    forall k: nat :: k < NPTENTRIES && Rel(seg, i, 4 * k) >= 0 ==>
        WordAgrees(s, e, SegPage(seg, i), k, WordOf(seg, i, k))
  }

  /** env_create of a well-formed program, with any zero page and whatever the frames held: the stack page is zero, and
      a page of a segment, loaded or not, has the segment's bytes, zero beyond the file contents, in all words
      from the virtual address on if and only if it is right: beyond the file contents if the zero page is zero; within
      them always, unless they start inside a page and end in the same one, when bytes that do not belong there would
      have to be the same.  A page that was loaded is clean, so that one that is not right comes back from the page
      file with other bytes. */
  lemma CreateProgram(s: State, e: nat, A: nat, S: nat, prog: seq<ProgramSegment>, zeroPage: Block, junks: seq<Block>,
                      flat: Flat)
    requires Inv(s) && e !in s.envs && A >= 1 && Agrees(s, flat) && WellFormed(prog) && |zeroPage| == NPTENTRIES
    requires RoomToCreate(s, e, A, S, Steps(Plans(prog, zeroPage, junks), A + S - 1))
    ensures var s' := Create(s, e, A, S, Plans(prog, zeroPage, junks), zeroPage);
            && Inv(s') && OthersKept(s, s', e) && e in s'.envs
            && (forall j: nat, i: nat :: j < |prog| && i < MemPages(prog[j]) ==>
                  (HasPage(s', e, prog[j], i) <==> Right(prog[j], zeroPage, i)))
            && (forall k: nat :: k < NPTENTRIES ==> WordAgrees(s', e, STACK_PAGE, k, ZERO))
            && Agrees(s', WithoutEnv(flat, e))
  {
    hide Inv, OthersKept, RoomToCreate, Create, ProgramOk, Covered, NewWorkingSet, Steps, Plans, WellFormed, Right,
         WordOf, SegPage, MemPages, ProgramMemory, WordAgrees, WithoutEnv, HasPage, FileImage, InPf, Agrees, ZeroBlock;
    var segs := Plans(prog, zeroPage, junks);
    var ops := Steps(segs, A + S - 1);
    ProgramCovered(prog, zeroPage, junks, A + S - 1);
    CreateInv(s, e, A, S, segs, zeroPage, flat);
    var s', mem := Create(s, e, A, S, segs, zeroPage), ProgramMemory(e, ops);
    forall j: nat, i: nat | j < |prog| && i < MemPages(prog[j])
      ensures HasPage(s', e, prog[j], i) <==> Right(prog[j], zeroPage, i)
    {
      PageIff(s', e, prog, zeroPage, junks, A + S - 1, j, i, WithoutEnv(flat, e));
    }
    MemoryWords(e, ops);
    StackWords(s', e, WithoutEnv(flat, e), mem);
    OtherKeys(flat, e);
    RestAgrees(s', WithoutEnv(flat, e), mem, e);
  }

  lemma StackWords(s: State, e: nat, a: Flat, mem: Flat)
    requires Agrees(s, a + mem)
    requires forall k: nat :: k < NPTENTRIES ==> (e, STACK_PAGE, k) in mem && mem[(e, STACK_PAGE, k)] == ZERO
    ensures forall k: nat :: k < NPTENTRIES ==> WordAgrees(s, e, STACK_PAGE, k, ZERO)
  {
    hide WordAgrees;
    forall k: nat | k < NPTENTRIES ensures WordAgrees(s, e, STACK_PAGE, k, ZERO) {
      assert (a + mem)[(e, STACK_PAGE, k)] == ZERO;
    }
  }

  lemma PageIff(s': State, e: nat, prog: seq<ProgramSegment>, zeroPage: Block, junks: seq<Block>, remaining: nat,
                j: nat, i: nat, a: Flat)
    requires WellFormed(prog) && j < |prog| && i < MemPages(prog[j]) && |zeroPage| == NPTENTRIES
    requires var ops := Steps(Plans(prog, zeroPage, junks), remaining);
             && Agrees(s', a + ProgramMemory(e, ops)) && InPf(s', e, FileImage(ops)[STACK_PAGE := zeroPage])
             && forall v :: v != STACK_PAGE ==> !Entry(s'.m, Ram(e), v).modified
    ensures HasPage(s', e, prog[j], i) <==> Right(prog[j], zeroPage, i)
  {
    hide *;
    var ops := Steps(Plans(prog, zeroPage, junks), remaining);
    ProgramFile(prog, zeroPage, junks, remaining, j, i);
    LoadedPage(prog, zeroPage, junks, remaining, j, i);
    PagesBelowStack(prog, j, i);
    FilePageIff(prog[j], zeroPage, i);
    if Right(prog[j], zeroPage, i) {
      PageThere(s', e, prog[j], i, ops, a);
    } else {
      NotRight(s', e, prog[j], i, FileImage(ops)[STACK_PAGE := zeroPage]);
    }
  }

  lemma PageThere(s': State, e: nat, seg: ProgramSegment, i: nat, ops: seq<Step>, a: Flat)
    requires Agrees(s', a + ProgramMemory(e, ops)) && SegPage(seg, i) != STACK_PAGE && SegPage(seg, i) in FileImage(ops)
    requires var b := FileImage(ops)[SegPage(seg, i)]; |b| == NPTENTRIES && HasWords(seg, b, i)
    requires SegPage(seg, i) in Image(ops) ==>
               var b := Image(ops)[SegPage(seg, i)]; |b| == NPTENTRIES && HasWords(seg, b, i)
    ensures HasPage(s', e, seg, i)
  {
    hide SegPage, WordOf, WordAgrees, Image, FileImage, ProgramMemory, Agrees, Rel;
    forall k: nat | k < NPTENTRIES && Rel(seg, i, 4 * k) >= 0
      ensures WordAgrees(s', e, SegPage(seg, i), k, WordOf(seg, i, k))
    {
      WordInMemory(e, ops, SegPage(seg, i), WordOf(seg, i, k), k);
      AgreesAt(s', a, ProgramMemory(e, ops), e, SegPage(seg, i), k);
    }
  }

  lemma WordInMemory(e: nat, ops: seq<Step>, v: Vpn, w: Word, k: nat)
    requires v != STACK_PAGE && v in FileImage(ops) && k < |FileImage(ops)[v]| && FileImage(ops)[v][k] == w
    requires v in Image(ops) ==> k < |Image(ops)[v]| && Image(ops)[v][k] == w
    ensures (e, v, k) in ProgramMemory(e, ops) && ProgramMemory(e, ops)[(e, v, k)] == w
  {
    hide *;
    MemoryOf(e, ops);
    WordInPage(e, Image(ops)[STACK_PAGE := ZeroBlock()], FileImage(ops)[STACK_PAGE := ZeroBlock()], v, w, k);
  }

  lemma WordInPage(e: nat, ram: map<Vpn, Block>, pf: map<Vpn, Block>, v: Vpn, w: Word, k: nat)
    requires v in pf && k < |pf[v]| && pf[v][k] == w && (v in ram ==> k < |ram[v]| && ram[v][k] == w)
    ensures (e, v, k) in PageMemory(e, ram, pf) && PageMemory(e, ram, pf)[(e, v, k)] == w
  {
  }

  lemma AgreesAt(s: State, a: Flat, mem: Flat, e: nat, v: Vpn, k: nat)
    requires Agrees(s, a + mem) && (e, v, k) in mem
    ensures WordAgrees(s, e, v, k, mem[(e, v, k)])
  {
    hide WordAgrees;
    assert (a + mem)[(e, v, k)] == mem[(e, v, k)];
  }

  lemma NotRight(s: State, e: nat, seg: ProgramSegment, i: nat, pf: map<Vpn, Block>)
    requires InPf(s, e, pf) && SegPage(seg, i) in pf && |pf[SegPage(seg, i)]| == NPTENTRIES
    requires !HasWords(seg, pf[SegPage(seg, i)], i) && !Entry(s.m, Ram(e), SegPage(seg, i)).modified
    ensures !HasPage(s, e, seg, i)
  {
    hide SegPage, WordOf, Rel;
    var k: nat :| k < NPTENTRIES && Rel(seg, i, 4 * k) >= 0 && pf[SegPage(seg, i)][k] != WordOf(seg, i, k);
    assert !WordAgrees(s, e, SegPage(seg, i), k, WordOf(seg, i, k));
  }

  lemma MemoryWords(e: nat, ops: seq<Step>)
    ensures forall k: nat :: k < NPTENTRIES ==>
              (e, STACK_PAGE, k) in ProgramMemory(e, ops) && ProgramMemory(e, ops)[(e, STACK_PAGE, k)] == ZERO
    ensures forall k :: k in ProgramMemory(e, ops) ==> k.0 == e
  {
  }

  lemma OtherKeys(flat: Flat, e: nat)
    ensures forall k :: k in WithoutEnv(flat, e) ==> k.0 != e
  {
  }

  lemma {:induction false} PagesBelowStack(prog: seq<ProgramSegment>, j: nat, i: nat)
    requires WellFormed(prog) && j < |prog| && i < MemPages(prog[j])
    ensures SegPage(prog[j], i) != STACK_PAGE && SegmentOk(prog[j])
  {
    hide MemPages, SegPage;
    if j > 0 {
      assert prog[1..][j - 1] == prog[j];
      PagesBelowStack(prog[1..], j - 1, i);
    } else {
      BelowStack(prog[0], i);
    }
  }

  lemma RestAgrees(s: State, a: Flat, b: Flat, e: nat)
    requires Agrees(s, a + b) && (forall k :: k in a ==> k.0 != e) && (forall k :: k in b ==> k.0 == e)
    ensures Agrees(s, a)
  {
    forall k | k in a ensures WordAgrees(s, k.0, k.1, k.2, a[k]) {
      assert k in a + b && (a + b)[k] == a[k];
    }
  }

  // ---------- what the first frames held does not matter to the room ----------

  lemma SegmentShape(seg: ProgramSegment, zeroPage: Block, a: Block, b: Block, remaining: nat)
    requires |a| == |b| == NPTENTRIES
    ensures LoadCount(Plan(seg, zeroPage, a), remaining) == LoadCount(Plan(seg, zeroPage, b), remaining)
    ensures SameShape(SegmentSteps(Plan(seg, zeroPage, a), remaining), SegmentSteps(Plan(seg, zeroPage, b), remaining))
  {
    hide PageBlock, SegPage, FileRun, MemPages;
  }

  lemma {:induction false} PlansShape(prog: seq<ProgramSegment>, zeroPage: Block, a: seq<Block>, b: seq<Block>,
                                      remaining: nat)
    ensures SameShape(Steps(Plans(prog, zeroPage, a), remaining), Steps(Plans(prog, zeroPage, b), remaining))
  {
    if prog == [] {
      NoSteps(zeroPage, a, remaining);
      NoSteps(zeroPage, b, remaining);
    } else {
      hide *;
      LoadCountFits(prog[0], zeroPage, JunkAt(a, 0), remaining);
      SegmentShape(prog[0], zeroPage, JunkAt(a, 0), JunkAt(b, 0), remaining);
      var k := LoadCount(Plan(prog[0], zeroPage, JunkAt(a, 0)), remaining);
      PlansShape(prog[1..], zeroPage, JunkTail(a), JunkTail(b), remaining - k);
      ShapeOfBoth(prog, zeroPage, a, b, remaining, k);
    }
  }

  lemma ShapeOfBoth(prog: seq<ProgramSegment>, zeroPage: Block, a: seq<Block>, b: seq<Block>, remaining: nat, k: nat)
    requires prog != [] && k <= remaining && k == LoadCount(Plan(prog[0], zeroPage, JunkAt(a, 0)), remaining)
    requires k == LoadCount(Plan(prog[0], zeroPage, JunkAt(b, 0)), remaining)
    requires SameShape(SegmentSteps(Plan(prog[0], zeroPage, JunkAt(a, 0)), remaining),
                       SegmentSteps(Plan(prog[0], zeroPage, JunkAt(b, 0)), remaining))
    requires SameShape(Steps(Plans(prog[1..], zeroPage, JunkTail(a)), remaining - k),
                       Steps(Plans(prog[1..], zeroPage, JunkTail(b)), remaining - k))
    ensures SameShape(Steps(Plans(prog, zeroPage, a), remaining), Steps(Plans(prog, zeroPage, b), remaining))
  {
    hide *;
    PlansTail(prog, zeroPage, a, remaining);
    PlansTail(prog, zeroPage, b, remaining);
    ShapeConcat(SegmentSteps(Plan(prog[0], zeroPage, JunkAt(a, 0)), remaining),
                SegmentSteps(Plan(prog[0], zeroPage, JunkAt(b, 0)), remaining),
                Steps(Plans(prog[1..], zeroPage, JunkTail(a)), remaining - k),
                Steps(Plans(prog[1..], zeroPage, JunkTail(b)), remaining - k));
  }

  /** Whether a program can be created does not depend on what the frames hold. */
  lemma AnyJunk(s: State, e: nat, A: nat, S: nat, prog: seq<ProgramSegment>, zeroPage: Block, junks: seq<Block>)
    requires A >= 1
    requires var ops := Steps(Plans(prog, zeroPage, []), A + S - 1);
             ProgramOk(ops) && Covered(ops) && RoomToCreate(s, e, A, S, ops)
    ensures var ops := Steps(Plans(prog, zeroPage, junks), A + S - 1);
            ProgramOk(ops) && Covered(ops) && RoomToCreate(s, e, A, S, ops)
  {
    hide *;
    var a, b := Steps(Plans(prog, zeroPage, []), A + S - 1), Steps(Plans(prog, zeroPage, junks), A + S - 1);
    PlansShape(prog, zeroPage, [], junks, A + S - 1);
    ShapeOk(a, b);
    ShapeCovered(a, b);
    ShapeRoom(s, e, A, S, a, b);
  }

  /** One program loads the same pages whatever the zero page and the frames hold. */
  lemma {:induction false} SameProgram(prog: seq<ProgramSegment>, zeroPage: Block, junks: seq<Block>, zeroPage': Block,
                                       junks': seq<Block>)
    ensures SamePages(Plans(prog, zeroPage, junks), Plans(prog, zeroPage', junks'))
  {
    if prog != [] {
      SameProgram(prog[1..], zeroPage, JunkTail(junks), zeroPage', JunkTail(junks'));
      SameSegment(prog[0], zeroPage, JunkAt(junks, 0), zeroPage', JunkAt(junks', 0));
      hide Plan, JunkAt, JunkTail, PageNumbers;
    }
  }

  lemma SameSegment(seg: ProgramSegment, zeroPage: Block, junk: Block, zeroPage': Block, junk': Block)
    requires |junk| == |junk'| == NPTENTRIES
    ensures var a, b := Plan(seg, zeroPage, junk), Plan(seg, zeroPage', junk');
            PageNumbers(a.mem) == PageNumbers(b.mem) && a.low == b.low
  {
    hide SegPage, PageBlock, FileRun, MemPages;
  }

  // ---------- the loader's loops ----------

  /** The room that is left after some segments. */
  function Left(segs: seq<Segment>, remaining: nat): nat {
    if segs == [] then remaining else Left(segs[1..], remaining - LoadCount(segs[0], remaining))
  }

  lemma {:induction false} StepsSnoc(segs: seq<Segment>, seg: Segment, remaining: nat)
    ensures Steps(segs + [seg], remaining) == Steps(segs, remaining) + SegmentSteps(seg, Left(segs, remaining))
    ensures Left(segs + [seg], remaining) == Left(segs, remaining) - LoadCount(seg, Left(segs, remaining))
  {
    hide SegmentSteps, LoadCount;
    if segs == [] {
      assert [] + [seg] == [seg] && [seg][1..] == [];
      StepsTail([seg], remaining);
    } else {
      var all := segs + [seg];
      assert all[0] == segs[0] && all[1..] == segs[1..] + [seg];
      StepsTail(segs, remaining);
      StepsTail(all, remaining);
      hide Steps;
      StepsSnoc(segs[1..], seg, remaining - LoadCount(segs[0], remaining));
    }
  }

  lemma {:induction false} PlansSnoc(prog: seq<ProgramSegment>, zeroPage: Block, junks: seq<Block>, seg: ProgramSegment,
                                     junk: Block)
    requires |junks| == |prog| && |junk| == NPTENTRIES
    ensures Plans(prog + [seg], zeroPage, junks + [junk]) == Plans(prog, zeroPage, junks) + [Plan(seg, zeroPage, junk)]
  {
    hide Plan;
    if prog == [] {
      assert [] + [seg] == [seg] && [seg][1..] == [] && junks + [junk] == [junk];
    } else {
      assert (prog + [seg])[0] == prog[0] && (prog + [seg])[1..] == prog[1..] + [seg];
      assert JunkAt(junks + [junk], 0) == JunkAt(junks, 0) && JunkTail(junks + [junk]) == JunkTail(junks) + [junk];
      PlansSnoc(prog[1..], zeroPage, JunkTail(junks), seg, junk);
    }
  }

  /** The steps of one segment, with what has been done before and what is still to do. */
  function Around(pre: seq<Step>, seg: ProgramSegment, zeroPage: Block, junk: Block, remaining: nat, rest: seq<Step>)
    : seq<Step>
    requires |junk| == NPTENTRIES
  {
    pre + SegmentSteps(Plan(seg, zeroPage, junk), remaining) + rest
  }

  lemma AroundShape(pre: seq<Step>, seg: ProgramSegment, zeroPage: Block, a: Block, b: Block, remaining: nat,
                    rest: seq<Step>)
    requires |a| == |b| == NPTENTRIES
    ensures SameShape(Around(pre, seg, zeroPage, a, remaining, rest), Around(pre, seg, zeroPage, b, remaining, rest))
  {
    SegmentShape(seg, zeroPage, a, b, remaining);
    hide SegmentSteps, Plan, SameKind;
  }

  /** The steps of the segment come next. */
  ghost predicate SegmentNext(seg: ProgramSegment, zeroPage: Block, junk: Block, remaining: nat, ops: seq<Step>, n: nat)
    requires |junk| == NPTENTRIES
  {
    n <= |ops| && SegmentSteps(Plan(seg, zeroPage, junk), remaining) <= ops[n..]
  }

  lemma AroundNext(pre: seq<Step>, seg: ProgramSegment, zeroPage: Block, junk: Block, remaining: nat, rest: seq<Step>)
    requires |junk| == NPTENTRIES
    ensures var ops, q := Around(pre, seg, zeroPage, junk, remaining, rest),
        SegmentSteps(Plan(seg, zeroPage, junk), remaining);
            && SegmentNext(seg, zeroPage, junk, remaining, ops, |pre|) && ops[..|pre|] == pre
            && |pre| + |q| <= |ops| && ops[..|pre| + |q|] == pre + q
  {
    hide SegmentSteps, Plan;
  }

  lemma AroundRest(pre: seq<Step>, seg: ProgramSegment, zeroPage: Block, junk: Block, remaining: nat, rest: seq<Step>)
    requires |junk| == NPTENTRIES
    ensures Around(pre, seg, zeroPage, junk, remaining, rest) ==
              (pre + SegmentSteps(Plan(seg, zeroPage, junk), remaining)) + rest
  {
  }

  lemma Counted(seg: ProgramSegment, zeroPage: Block, junk: Block, remaining: nat)
    requires |junk| == NPTENTRIES
    ensures var r := if seg.start == 0x200 && !seg.tpp && remaining > 6 then 6 else remaining;
            LoadCount(Plan(seg, zeroPage, junk), remaining) == if MemPages(seg) < r then MemPages(seg) else r
  {
    hide FileRun, PageBlock, MemPages, SegPage;
  }

  /** Where src_ptr stands in the loop over the whole pages. */
  lemma WholeSource(seg: ProgramSegment, i: nat, page: seq<Byte>)
    requires SegmentOk(seg) && |page| == PAGE_SIZE
    requires forall x: nat :: x < PAGE_SIZE ==> page[x] == ImageAt(seg, SourceAfter(seg, i) + x)
    ensures page == WholeBytes(seg, FirstWhole(seg) + i) && SourceAfter(seg, i + 1) == SourceAfter(seg, i) + PAGE_SIZE
  {
    hide ImageAt;
    forall x: nat | x < PAGE_SIZE ensures page[x] == WholeBytes(seg, FirstWhole(seg) + i)[x] {
      assert SourceAfter(seg, i) + x == Rel(seg, FirstWhole(seg) + i, x);
    }
  }

  lemma MemoryStep(seg: ProgramSegment, zeroPage: Block, junk: Block, remaining: nat, ops: seq<Step>, n: nat, k: nat)
    requires |junk| == NPTENTRIES && SegmentNext(seg, zeroPage, junk, remaining, ops, n)
    requires k < LoadCount(Plan(seg, zeroPage, junk), remaining)
    ensures n + k < |ops| && ops[n + k] == InMemory(SegPage(seg, k), PageBlock(seg, k, junk))
  {
    hide PageBlock, SegPage, FileRun;
    StepAt(Plan(seg, zeroPage, junk), remaining, ops, n, k);
  }

  /** What was assumed of the first frame turns out to be junk. */
  lemma FirstLoaded(s0: State, s1: State, e: nat, pre: seq<Step>, seg: ProgramSegment, zeroPage: Block, a: Block,
                    junk: Block, remaining: nat, rest: seq<Step>, cap: nat)
    requires |a| == |junk| == NPTENTRIES && CanLoad(s0, s1, e, Around(pre, seg, zeroPage, a, remaining, rest), cap)
    ensures CanLoad(s0, s1, e, Around(pre, seg, zeroPage, junk, remaining, rest), cap)
    ensures 0 < LoadCount(Plan(seg, zeroPage, junk), remaining) ==>
              var ops, n := Around(pre, seg, zeroPage, junk, remaining, rest), |pre|;
              && n < |ops|
              && LoadAll(s1, e, ops[..n + 1], cap) ==
                   LoadPage(LoadAll(s1, e, pre, cap), e, SegPage(seg, 0), PageBlock(seg, 0, junk), cap)
  {
    hide CanLoad, LoadAll, Around, SegmentNext, SegPage, PageBlock, LoadPage, Plan;
    AroundShape(pre, seg, zeroPage, a, junk, remaining, rest);
    var ops := Around(pre, seg, zeroPage, junk, remaining, rest);
    CanLoadShape(s0, s1, e, Around(pre, seg, zeroPage, a, remaining, rest), ops, cap);
    AroundNext(pre, seg, zeroPage, junk, remaining, rest);
    if 0 < LoadCount(Plan(seg, zeroPage, junk), remaining) {
      MemoryStep(seg, zeroPage, junk, remaining, ops, |pre|, 0);
      StepReady(s0, s1, e, ops, cap, |pre|);
    }
  }

  lemma CanLoadShape(s0: State, s1: State, e: nat, a: seq<Step>, b: seq<Step>, cap: nat)
    requires CanLoad(s0, s1, e, a, cap) && SameShape(a, b)
    ensures CanLoad(s0, s1, e, b, cap)
  {
    hide Loading, WS.LoadOk, Listed, ProgramOk, RoomToLoad, SameShape, Frames;
    ShapeOk(a, b);
    ShapeImages(a, b);
    ShapeRoomToLoad(s1, e, a, b, cap);
  }

  lemma FileSizes(seg: ProgramSegment, zeroPage: Block, junk: Block, remaining: nat, ops: seq<Step>, n: nat)
    requires SegmentOk(seg) && |junk| == NPTENTRIES && SegmentNext(seg, zeroPage, junk, remaining, ops, n)
    ensures var k := LoadCount(Plan(seg, zeroPage, junk), remaining);
            && |SegmentSteps(Plan(seg, zeroPage, junk), remaining)| == k + 2 + WholePages(seg) + ZeroPages(seg)
            && n + k + 2 + WholePages(seg) + ZeroPages(seg) <= |ops|
  {
    hide SegPage, WholePages, ZeroPages, MemPages, FilePages, LastPage, FirstWhole, Words, FirstBytes, LastBytes,
         WholeBytes;
    assert |FileRun(seg, zeroPage)| == 2 + WholePages(seg) + ZeroPages(seg);
    hide FileRun, PageBlock;
  }

  /** What is written to the page file, in order. */
  function WrittenPage(seg: ProgramSegment, j: nat): Vpn {
    var w := WholePages(seg);
    if j == 0 then SegPage(seg, 0)
    else if j <= w then SegPage(seg, FirstWhole(seg) + (j - 1))
    else if j == w + 1 then SegPage(seg, LastPage(seg))
    else SegPage(seg, FilePages(seg) + (j - w - 2))
  }

  function WrittenBlock(seg: ProgramSegment, zeroPage: Block, j: nat): Block {
    var w := WholePages(seg);
    if j == 0 then Words(FirstBytes(seg))
    else if j <= w then Words(WholeBytes(seg, FirstWhole(seg) + (j - 1)))
    else if j == w + 1 then Words(LastBytes(seg))
    else zeroPage
  }

  lemma FileAt(seg: ProgramSegment, zeroPage: Block, j: nat)
    requires j < 2 + WholePages(seg) + ZeroPages(seg)
    ensures var file := FileRun(seg, zeroPage);
            && |file| == 2 + WholePages(seg) + ZeroPages(seg)
            && file[j] == (WrittenPage(seg, j), WrittenBlock(seg, zeroPage, j))
  {
    hide SegPage, WholePages, ZeroPages, FilePages, LastPage, FirstWhole, Words, FirstBytes, LastBytes, WholeBytes;
    var w := WholePages(seg);
    FourRuns(seg, zeroPage);
    var q, z := WholeRun(seg), ZeroRun(seg, zeroPage);
    hide FileRun;
    if 0 < j <= w {
      assert FileRun(seg, zeroPage)[j] == q[j - 1];
    } else if j > w + 1 {
      assert FileRun(seg, zeroPage)[j] == z[j - w - 2];
    }
  }

  lemma FileStep(seg: ProgramSegment, zeroPage: Block, junk: Block, remaining: nat, ops: seq<Step>, n: nat, j: nat)
    requires |junk| == NPTENTRIES && SegmentNext(seg, zeroPage, junk, remaining, ops, n)
    requires j < 2 + WholePages(seg) + ZeroPages(seg)
    ensures var m := n + LoadCount(Plan(seg, zeroPage, junk), remaining);
            && m + j < |ops| && ops[m + j] == InFile(WrittenPage(seg, j), WrittenBlock(seg, zeroPage, j))
  {
    hide PageBlock, SegPage, WholePages, ZeroPages, MemPages, LoadCount, WrittenPage, WrittenBlock, FileRun;
    var plan := Plan(seg, zeroPage, junk);
    FileAt(seg, zeroPage, j);
    var k := LoadCount(plan, remaining);
    assert |SegmentSteps(plan, remaining)| == k + |plan.file| by { StepCount(plan, remaining); }
    StepAt(plan, remaining, ops, n, k + j);
  }

  /** What pf_add_env_page requires. */
  ghost predicate CanWrite(t: State, e: nat, v: Vpn) {
    && e in t.envs && DirsLoading(t.m, e, t.envs[e]) && UserPage(v) && (t.envs[e].ddir != 0 || t.m.free != [])
    && CanHaveTable(DiskDir(t, e).m, Swap(e), v.d) && ZERO !in t.dfree
  }

  /** The j-th write to the page file can be done, and is the next step of loading. */
  lemma WriteReady(s0: State, s1: State, e: nat, ops: seq<Step>, cap: nat,
                   seg: ProgramSegment, zeroPage: Block, junk: Block, remaining: nat, n: nat, j: nat)
    requires |junk| == NPTENTRIES && CanLoad(s0, s1, e, ops, cap) && SegmentNext(seg, zeroPage, junk, remaining, ops, n)
    requires j < 2 + WholePages(seg) + ZeroPages(seg)
    ensures var m := n + LoadCount(Plan(seg, zeroPage, junk), remaining) + j;
            var v, b := WrittenPage(seg, j), WrittenBlock(seg, zeroPage, j);
            && m < |ops| && LoadAll(s1, e, ops[..m + 1], cap) == PfPut(LoadAll(s1, e, ops[..m], cap), e, v, b)
            && CanWrite(LoadAll(s1, e, ops[..m], cap), e, v) && |b| == NPTENTRIES
  {
    hide CanLoad, LoadAll, DataOf, DirsLoading, LoadPage, PfPut, RoomForFrame, RoomForFile, UserPage, SegmentNext,
         PageBlock, WrittenPage, WrittenBlock, FileRun, WholePages, ZeroPages, MemPages, LoadCount, CanHaveTable,
         DiskDir;
    FileStep(seg, zeroPage, junk, remaining, ops, n, j);
    StepReady(s0, s1, e, ops, cap, n + LoadCount(Plan(seg, zeroPage, junk), remaining) + j);
  }

  lemma StepCount(plan: Segment, remaining: nat)
    ensures |SegmentSteps(plan, remaining)| == LoadCount(plan, remaining) + |plan.file|
  {
  }

  /** pre is what the first j segments have done. */
  ghost predicate LoadedSoFar(prog: seq<ProgramSegment>, zeroPage: Block, junks: seq<Block>, room: nat, j: nat,
                              pre: seq<Step>, remaining: nat) {
    && j <= |prog| && |junks| == j
    && pre == Steps(Plans(prog[..j], zeroPage, junks), room)
    && remaining == Left(Plans(prog[..j], zeroPage, junks), room)
  }

  lemma NothingDone(prog: seq<ProgramSegment>, zeroPage: Block, room: nat)
    ensures LoadedSoFar(prog, zeroPage, [], room, 0, [], room)
    ensures [] + Steps(Plans(prog[0..], zeroPage, []), room) == Steps(Plans(prog, zeroPage, []), room)
  {
    assert prog[0..] == prog && prog[..0] == [];
  }

  /** The next segment, in front of those after it. */
  lemma NextSegment(prog: seq<ProgramSegment>, zeroPage: Block, j: nat, pre: seq<Step>, remaining: nat)
    requires j < |prog|
    ensures var k := LoadCount(Plan(prog[j], zeroPage, ZeroBlock()), remaining);
            && k <= remaining
            && pre + Steps(Plans(prog[j..], zeroPage, []), remaining) ==
                 Around(pre, prog[j], zeroPage, ZeroBlock(), remaining,
                        Steps(Plans(prog[j + 1..], zeroPage, []), remaining - k))
  {
    LoadCountFits(prog[j], zeroPage, ZeroBlock(), remaining);
    SegmentFirst(prog[j..], zeroPage, remaining);
    hide *;
    assert prog[j..][1..] == prog[j + 1..];
    Rebracket(pre, SegmentSteps(Plan(prog[j], zeroPage, ZeroBlock()), remaining),
              Steps(Plans(prog[j + 1..], zeroPage, []),
                    remaining - LoadCount(Plan(prog[j], zeroPage, ZeroBlock()), remaining)));
  }

  lemma SegmentFirst(prog: seq<ProgramSegment>, zeroPage: Block, remaining: nat)
    requires prog != []
    ensures var k := LoadCount(Plan(prog[0], zeroPage, ZeroBlock()), remaining);
            && k <= remaining
            && Steps(Plans(prog, zeroPage, []), remaining) ==
                 SegmentSteps(Plan(prog[0], zeroPage, ZeroBlock()), remaining)
                 + Steps(Plans(prog[1..], zeroPage, []), remaining - k)
  {
    assert JunkAt([], 0) == ZeroBlock() && JunkTail([]) == [];
    hide *;
    LoadCountFits(prog[0], zeroPage, ZeroBlock(), remaining);
    PlansTail(prog, zeroPage, [], remaining);
  }

  lemma Rebracket(a: seq<Step>, b: seq<Step>, c: seq<Step>)
    ensures a + (b + c) == a + b + c
  {
  }

  lemma SegmentDone(prog: seq<ProgramSegment>, zeroPage: Block, junks: seq<Block>, room: nat, j: nat, pre: seq<Step>,
                    remaining: nat, junk: Block)
    requires LoadedSoFar(prog, zeroPage, junks, room, j, pre, remaining) && j < |prog| && |junk| == NPTENTRIES
    ensures var k := LoadCount(Plan(prog[j], zeroPage, junk), remaining);
            && k <= remaining && k == LoadCount(Plan(prog[j], zeroPage, ZeroBlock()), remaining)
            && LoadedSoFar(prog, zeroPage, junks + [junk], room, j + 1,
                    pre + SegmentSteps(Plan(prog[j], zeroPage, junk), remaining), remaining - k)
  {
    LoadCountFits(prog[j], zeroPage, junk, remaining);
    SegmentShape(prog[j], zeroPage, junk, ZeroBlock(), remaining);
    hide Plans, Plan, Steps, SegmentSteps, Left, SameShape, LoadCount;
    assert prog[..j + 1] == prog[..j] + [prog[j]];
    PlansSnoc(prog[..j], zeroPage, junks, prog[j], junk);
    StepsSnoc(Plans(prog[..j], zeroPage, junks), Plan(prog[j], zeroPage, junk), room);
  }

  lemma AllDone(prog: seq<ProgramSegment>, zeroPage: Block, junks: seq<Block>, room: nat, pre: seq<Step>,
                remaining: nat)
    requires LoadedSoFar(prog, zeroPage, junks, room, |prog|, pre, remaining)
    ensures pre == Steps(Plans(prog, zeroPage, junks), room)
  {
    assert prog[..|prog|] == prog;
  }
}

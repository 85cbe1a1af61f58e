/** The x86 two-level paging layout of inc/mmu.h: addresses, machine words and permission bits. */
module Mmu {

  const PAGE_SIZE: nat := 4096
  const NPTENTRIES: nat := 1024
  /** PDX(USER_TOP): the directory entries below this one belong to the user. */
  const USER_PDX: nat := 955

  type Frame = nat

  /** A 32-bit machine word, split into the fields the processor gives a table entry
      (section 4.3 of the Intel SDM, Volume 3A).  Every word has exactly one such form,
      so the same type serves for user data and for disk frame numbers. */
  datatype Word = Word(present: bool, writeable: bool, user: bool, pwt: bool, pcd: bool,
                       used: bool, modified: bool, hi: nat, frame: Frame)

  const ZERO: Word := Word(false, false, false, false, false, false, false, 0, 0)

  /** The contents of a frame: 1024 words. */
  type Block = seq<Word>

  function ZeroBlock(): Block { seq(NPTENTRIES, i => ZERO) }

  /** A virtual page: its page directory index and its page table index. */
  datatype Vpn = Vpn(d: nat, t: nat)

  predicate UserPage(v: Vpn) {
    v.d < USER_PDX && v.t < NPTENTRIES
  }

  // ---------- addresses ----------

  function Pdx(va: nat): nat { va / 0x400000 % 1024 }

  function Ptx(va: nat): nat { va / 4096 % 1024 }

  function PgOff(va: nat): nat { va % 4096 }

  function PgAddr(d: nat, t: nat, o: nat): nat { d * 0x400000 + t * 4096 + o }

  function RoundDown(a: nat, n: nat): nat
    requires n > 0
  {
    a - a % n
  }

  /** The page holding address va. */
  function PageOf(va: nat): Vpn { Vpn(Pdx(va), Ptx(va)) }

  /** The n-th page of the address space. */
  function Nth(n: nat): Vpn { Vpn(n / 1024, n % 1024) }

  /** The number of pages that n bytes from a page boundary on reach into. */
  function PagesFor(n: nat): nat { (n + 4095) / 4096 }

  /** The number of a page. */
  function Number(v: Vpn): nat { v.d * 1024 + v.t }

  /** PDX, PTX and PGOFF split a 32-bit address into three fields and PGADDR puts it back. */
  lemma AddressRoundTrip(va: nat)
    requires va < 0x1_0000_0000
    ensures Pdx(va) < 1024 && Ptx(va) < 1024 && PgOff(va) < 4096
    ensures PgAddr(Pdx(va), Ptx(va), PgOff(va)) == va
    ensures PageOf(va) == Nth(va / 4096)
  {
    assert va / 0x400000 == va / 4096 / 1024;
    assert va / 4096 / 1024 < 1024;
  }

  lemma PageNumber(va: nat)
    requires va < 0x1_0000_0000
    ensures Number(PageOf(va)) == va / 4096 && PageOf(va).t < 1024
  {
    AddressRoundTrip(va);
    hide Pdx, Ptx;
  }

  lemma NumberIs(v: Vpn, d: nat, t: nat)
    requires v.t < 1024 && t < 1024
    ensures v == Vpn(d, t) <==> Number(v) == d * 1024 + t
  {
  }

  /** ... and the fields of an address built by PGADDR are the ones it was built from. */
  lemma AddressFields(d: nat, t: nat, o: nat)
    requires d < 1024 && t < 1024 && o < 4096
    ensures PageOf(PgAddr(d, t, o)) == Vpn(d, t) && PgOff(PgAddr(d, t, o)) == o
  {
    var va := PgAddr(d, t, o);
    assert va / 4096 == d * 1024 + t;
    assert va / 0x400000 == va / 4096 / 1024;
  }

  /** The user's pages are those of the addresses below USER_TOP. */
  lemma UserPageIff(va: nat)
    requires va < 0x1_0000_0000
    ensures UserPage(PageOf(va)) <==> va < 0xEEC0_0000
  {
    AddressRoundTrip(va);
  }

  // ---------- entries ----------

  /** CONSTRUCT_ENTRY(frame, PERM_PRESENT | PERM_WRITEABLE | PERM_USER) */
  function Construct(f: Frame): Word {
    Word(true, true, true, false, false, false, false, 0, f)
  }

  /** A set of permission bits. */
  datatype Mask = Mask(present: bool, writeable: bool, user: bool, modified: bool)

  const NONE := Mask(false, false, false, false)
  const PRESENT := Mask(true, false, false, false)
  const MODIFIED := Mask(false, false, false, true)
  /** PERM_PRESENT | PERM_USER | PERM_WRITEABLE */
  const PUW := Mask(true, true, true, false)

  /** w |= s; w &= ~c */
  function Update(w: Word, s: Mask, c: Mask): Word {
    w.(present := (w.present || s.present) && !c.present,
       writeable := (w.writeable || s.writeable) && !c.writeable,
       user := (w.user || s.user) && !c.user,
       modified := (w.modified || s.modified) && !c.modified)
  }

  // ---------- words as numbers, bit by bit ----------

  function B(b: bool): nat { if b then 1 else 0 }

  /** The number whose low bits are bits, bit 0 first, and whose high bits are top. */
  function Join(bits: seq<bool>, top: nat): nat {
    if bits == [] then top else B(bits[0]) + 2 * Join(bits[1..], top)
  }

  /** The low bits of a word. */
  function Flag(w: Word, i: nat): bool {
    match i
    case 0 => w.present
    case 1 => w.writeable
    case 2 => w.user
    case 3 => w.pwt
    case 4 => w.pcd
    case 5 => w.used
    case 6 => w.modified
    case _ => false
  }

  function Flags(w: Word): seq<bool> { seq(7, i requires 0 <= i => Flag(w, i)) }

  /** The number a word stands for. */
  function Encode(w: Word): nat { Join(Flags(w), w.hi + 32 * w.frame) }

  /** Bit i of n. */
  function Bit(n: nat, i: nat): nat {
    if i == 0 then n % 2 else Bit(n / 2, i - 1)
  }

  /** n without its low k bits. */
  function Drop(n: nat, k: nat): nat {
    if k == 0 then n else Drop(n / 2, k - 1)
  }

  function Set(n: nat, i: nat): bool { Bit(n, i) == 1 }

  /** The fields of the word with number n. */
  function Decode(n: nat): Word {
    Word(Set(n, 0), Set(n, 1), Set(n, 2), Set(n, 3), Set(n, 4), Set(n, 5), Set(n, 6),
         Drop(n, 7) % 32, Drop(n, 7) / 32)
  }

  lemma {:induction false} BitOfJoin(bits: seq<bool>, top: nat, i: nat)
    ensures Bit(Join(bits, top), i) == if i < |bits| then B(bits[i]) else Bit(top, i - |bits|)
  {
    if bits != [] {
      var x := Join(bits[1..], top);
      Halve(bits[0], x);
      if i > 0 {
        BitOfJoin(bits[1..], top, i - 1);
      }
    }
  }

  lemma Halve(b: bool, x: nat)
    ensures (B(b) + 2 * x) / 2 == x && (B(b) + 2 * x) % 2 == B(b)
  {
  }

  lemma {:induction false} DropOfJoin(bits: seq<bool>, top: nat)
    ensures Drop(Join(bits, top), |bits|) == top
  {
    if bits != [] {
      Halve(bits[0], Join(bits[1..], top));
      DropOfJoin(bits[1..], top);
    }
  }

  lemma {:induction false} JoinOfBits(n: nat, bits: seq<bool>)
    requires forall i :: 0 <= i < |bits| ==> bits[i] == Set(n, i)
    ensures Join(bits, Drop(n, |bits|)) == n
  {
    if bits != [] {
      assert bits[0] == Set(n, 0);
      forall i | 0 <= i < |bits[1..]| ensures bits[1..][i] == Set(n / 2, i) {
        assert bits[1..][i] == bits[i + 1] == Set(n, i + 1);
      }
      JoinOfBits(n / 2, bits[1..]);
      assert n == n % 2 + 2 * (n / 2);
    }
  }

  /** Every number is the number of exactly one word. */
  lemma EncodeDecode(n: nat)
    ensures Encode(Decode(n)) == n && Decode(n).hi < 32
  {
    var top := Drop(n, 7);
    assert top == top % 32 + 32 * (top / 32);
    JoinOfBits(n, Flags(Decode(n)));
  }

  lemma DecodeEncode(w: Word)
    requires w.hi < 32
    ensures Decode(Encode(w)) == w
  {
    var n := Encode(w);
    var top := w.hi + 32 * w.frame;
    DropOfJoin(Flags(w), top);
    assert top % 32 == w.hi && top / 32 == w.frame;
    FlagsOfNumber(w, n);
  }

  lemma FlagsOfNumber(w: Word, n: nat)
    requires n == Encode(w)
    ensures Set(n, 0) == w.present && Set(n, 1) == w.writeable && Set(n, 2) == w.user && Set(n, 3) == w.pwt
    ensures Set(n, 4) == w.pcd && Set(n, 5) == w.used && Set(n, 6) == w.modified
  {
    BitsOf(w, 0); BitsOf(w, 1); BitsOf(w, 2); BitsOf(w, 3);
    BitsOf(w, 4); BitsOf(w, 5); BitsOf(w, 6);
  }

  /** Bit i of a word is the i-th flag, or a bit of the rest. */
  lemma BitsOf(w: Word, i: nat)
    ensures Set(Encode(w), i) == if i < 7 then Flag(w, i) else Set(w.hi + 32 * w.frame, i - 7)
  {
    NumberBit(Flags(w), w.hi + 32 * w.frame, i);
  }

  lemma NumberBit(bits: seq<bool>, top: nat, i: nat)
    ensures Set(Join(bits, top), i) == if i < |bits| then bits[i] else Set(top, i - |bits|)
  {
    BitOfJoin(bits, top, i);
  }

  /** In numbers: the permissions are the bits 0x1, 0x2, 0x4, 0x20 and 0x40 of an entry, and its high 20 bits are the
      frame. */
  lemma EntryBits(w: Word)
    requires w.hi < 32
    ensures var n := Encode(w);
            && (n % 2 == 1 <==> w.present) && (n / 2 % 2 == 1 <==> w.writeable) && (n / 4 % 2 == 1 <==> w.user)
            && (n / 0x20 % 2 == 1 <==> w.used) && (n / 0x40 % 2 == 1 <==> w.modified) && n / 0x1000 == w.frame
  {
    var n := Encode(w);
    FlagsOfNumber(w, n);
    BitIs(n);
    DropOfJoin(Flags(w), w.hi + 32 * w.frame);
    DropIs(n);
  }

  lemma BitHalf(n: nat, i: nat)
    ensures Bit(n, 0) == n % 2 && Bit(n, i + 1) == Bit(n / 2, i) && Drop(n, 0) == n && Drop(n, i + 1) == Drop(n / 2, i)
  {
  }

  lemma Halves(n: nat)
    ensures n / 2 / 2 == n / 4 && n / 4 / 2 == n / 8 && n / 8 / 2 == n / 0x10 && n / 0x10 / 2 == n / 0x20
    ensures n / 0x20 / 2 == n / 0x40 && n / 0x40 / 2 == n / 0x80 && n / 0x80 / 0x20 == n / 0x1000
  {
  }

  lemma LowBits(n: nat)
    ensures Bit(n, 0) == n % 2 && Bit(n, 1) == n / 2 % 2 && Bit(n, 2) == n / 4 % 2
  {
    hide *;
    Halves(n);
    BitHalf(n, 0); BitHalf(n / 2, 0); BitHalf(n / 4, 0); BitHalf(n, 1);
  }

  lemma Bit5(n: nat)
    ensures Bit(n, 5) == n / 0x20 % 2
  {
    hide *;
    Halves(n);
    BitHalf(n, 4); BitHalf(n / 2, 3); BitHalf(n / 4, 2); BitHalf(n / 8, 1); BitHalf(n / 0x10, 0); BitHalf(n / 0x20, 0);
  }

  lemma BitIs(n: nat)
    ensures Bit(n, 0) == n % 2 && Bit(n, 1) == n / 2 % 2 && Bit(n, 2) == n / 4 % 2
    ensures Bit(n, 5) == n / 0x20 % 2 && Bit(n, 6) == n / 0x40 % 2
  {
    hide *;
    LowBits(n);
    Bit5(n);
    Bit5(n / 2);
    BitHalf(n, 5);
    assert n / 2 / 0x20 == n / 0x40;
  }

  lemma DropIs(n: nat)
    ensures Drop(n, 7) / 32 == n / 0x1000
  {
    hide *;
    Halves(n);
    BitHalf(n, 6); BitHalf(n / 2, 5); BitHalf(n / 4, 4); BitHalf(n / 8, 3); BitHalf(n / 0x10, 2); BitHalf(n / 0x20, 1);
    BitHalf(n / 0x40, 0); BitHalf(n / 0x80, 0);
  }

  /** The bits of a mask: PERM_PRESENT is 0x1, PERM_WRITEABLE 0x2, PERM_USER 0x4, PERM_MODIFIED 0x40. */
  predicate MaskBit(m: Mask, i: nat) {
    match i
    case 0 => m.present
    case 1 => m.writeable
    case 2 => m.user
    case 6 => m.modified
    case _ => false
  }

  lemma UpdateFlags(w: Word, s: Mask, c: Mask, i: nat)
    ensures Flag(Update(w, s, c), i) == ((Flag(w, i) || MaskBit(s, i)) && !MaskBit(c, i))
  {
  }

  /** Update is the bitwise or with the first mask, then the bitwise and with the complement of the second. */
  lemma UpdateBits(w: Word, s: Mask, c: Mask, n: nat, n': nat, i: nat)
    requires n == Encode(w) && n' == Encode(Update(w, s, c))
    ensures Set(n', i) == ((Set(n, i) || MaskBit(s, i)) && !MaskBit(c, i))
  {
    UpdateFlags(w, s, c, i);
    BitsOf(w, i);
    BitsOf(Update(w, s, c), i);
  }
}

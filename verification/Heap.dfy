/** The user heap of lib/uheap.c: best-fit malloc and free over the arrays addresses, numOfPages and changed. */
module Heap {
  import opened Mmu

  const USER_HEAP_START: int := 0x8000_0000
  const USER_HEAP_MAX: int := 0xA000_0000

  /** One index of the three arrays.  pages is signed: splitting a merged run leaves a remainder that
      may be negative. */
  datatype Entry = Entry(addr: int, pages: int, live: bool)

  // ---------- what the arrays mean ----------

  function Sum(q: seq<Entry>): int {
    if q == [] then 0 else Sum(q[..|q| - 1]) + q[|q| - 1].pages
  }

  /** The entries tile the heap: each starts where the one before ends, with signed sizes. */
  ghost predicate Tiled(q: seq<Entry>, last: int) {
    && (forall k :: 0 <= k < |q| ==> q[k].addr == USER_HEAP_START + PAGE_SIZE * Sum(q[..k]))
    && last == USER_HEAP_START + PAGE_SIZE * Sum(q)
  }

  /** The sum of the free entries at the end of q, and their number. */
  function Tail(q: seq<Entry>): int {
    if q == [] || q[|q| - 1].live then 0 else Tail(q[..|q| - 1]) + q[|q| - 1].pages
  }

  function TailLength(q: seq<Entry>): (n: nat)
    ensures n <= |q|
  {
    if q == [] || q[|q| - 1].live then 0 else TailLength(q[..|q| - 1]) + 1
  }

  /** Every live block has pages, and no maximal run of free entries has a negative sum. */
  ghost predicate RunsOk(q: seq<Entry>) {
    && (forall k :: 0 <= k < |q| && q[k].live ==> q[k].pages > 0 && Tail(q[..k]) >= 0)
    && Tail(q) >= 0
  }

  ghost predicate InHeap(q: seq<Entry>, last: int) {
    && USER_HEAP_START <= last <= USER_HEAP_MAX
    && forall k :: 0 <= k < |q| ==> USER_HEAP_START <= q[k].addr <= last
  }

  ghost predicate Ok(q: seq<Entry>, last: int) {
    Tiled(q, last) && RunsOk(q) && InHeap(q, last)
  }

  /** [a, b) is a maximal run of free entries. */
  predicate Maximal(q: seq<Entry>, a: nat, b: nat) {
    && a <= b <= |q| && (forall k :: a <= k < b ==> !q[k].live)
    && (a > 0 ==> q[a - 1].live) && (b < |q| ==> q[b].live)
  }

  /** The live blocks: address and number of pages. */
  ghost function Live(q: seq<Entry>): set<(int, int)> {
    set k | 0 <= k < |q| && q[k].live :: (q[k].addr, q[k].pages)
  }

  // ---------- sums over the entries ----------

  lemma {:induction false} SumConcat(a: seq<Entry>, b: seq<Entry>)
    ensures Sum(a + b) == Sum(a) + Sum(b)
  {
    if b == [] {
      assert a + b == a;
    } else {
      assert (a + b)[..|a + b| - 1] == a + b[..|b| - 1];
      SumConcat(a, b[..|b| - 1]);
    }
  }

  lemma SumNext(q: seq<Entry>, k: nat)
    requires k < |q|
    ensures Sum(q[..k + 1]) == Sum(q[..k]) + q[k].pages
    ensures Tail(q[..k + 1]) == if q[k].live then 0 else Tail(q[..k]) + q[k].pages
    ensures TailLength(q[..k + 1]) == if q[k].live then 0 else TailLength(q[..k]) + 1
  {
    assert q[..k + 1][..k] == q[..k];
  }

  /** The scan of malloc computes the sum of the maximal run that ends where it stands. */
  lemma {:induction false} TailIsRun(q: seq<Entry>, k: nat)
    requires k <= |q| && (k < |q| ==> q[k].live)
    ensures var a := k - TailLength(q[..k]);
            Maximal(q, a, k) && Sum(q[..k]) == Sum(q[..a]) + Tail(q[..k])
  {
    TailRun(q, k);
  }

  lemma {:induction false} TailRun(q: seq<Entry>, k: nat)
    requires k <= |q|
    ensures var a := k - TailLength(q[..k]);
            && a >= 0 && (forall i :: a <= i < k ==> !q[i].live) && (a > 0 ==> q[a - 1].live)
            && Sum(q[..k]) == Sum(q[..a]) + Tail(q[..k])
    decreases k
  {
    if k > 0 {
      SumNext(q, k - 1);
      if !q[k - 1].live {
        TailRun(q, k - 1);
      }
    }
  }

  /** Two maximal runs with the same end are the same. */
  lemma MaximalEnd(q: seq<Entry>, a: nat, b: nat)
    requires Maximal(q, a, b)
    ensures a == b - TailLength(q[..b]) && Sum(q[..b]) == Sum(q[..a]) + Tail(q[..b])
  {
    TailRun(q, b);
  }

  /** Every maximal run of free entries has a sum that is not negative, even when single entries are. */
  lemma RunsNotNegative(q: seq<Entry>, a: nat, b: nat)
    requires RunsOk(q) && Maximal(q, a, b)
    ensures Sum(q[..b]) - Sum(q[..a]) >= 0
  {
    MaximalEnd(q, a, b);
    assert b == |q| ==> q[..b] == q;
  }

  // ---------- live blocks are disjoint ----------

  /** From a live block on, every later block or maximal run starts at or after its end. */
  lemma {:induction false} SumAfter(q: seq<Entry>, i: nat, j: nat)
    requires RunsOk(q) && i < j <= |q| && q[i].live
    ensures Sum(q[..j]) - Tail(q[..j]) >= Sum(q[..i + 1])
    decreases j
  {
    SumNext(q, j - 1);
    if i + 1 < j {
      SumAfter(q, i, j - 1);
    }
  }

  /** Live blocks are pairwise disjoint. */
  lemma LiveDisjoint(q: seq<Entry>, last: int, i: nat, j: nat)
    requires Ok(q, last) && i < j < |q| && q[i].live && q[j].live
    ensures q[i].addr + q[i].pages * PAGE_SIZE <= q[j].addr
    ensures q[j].addr + q[j].pages * PAGE_SIZE <= last
  {
    SumNext(q, i);
    SumAfter(q, i, j);
    SumNext(q, j);
    SumAfter(q, j, |q|);
    assert q[..|q|] == q;
  }

  /** A live block lies inside the heap. */
  lemma LiveInHeap(q: seq<Entry>, last: int, i: nat)
    requires Ok(q, last) && i < |q| && q[i].live
    ensures USER_HEAP_START <= q[i].addr && q[i].addr + q[i].pages * PAGE_SIZE <= last <= USER_HEAP_MAX
  {
    SumNext(q, i);
    SumAfter(q, i, |q|);
    assert q[..|q|] == q;
  }

  // ---------- the three changes ----------

  /** A new block at last_addres. */
  function Bump(q: seq<Entry>, last: int, num: int): seq<Entry> {
    q + [Entry(last, num, true)]
  }

  lemma BumpOk(q: seq<Entry>, last: int, num: int)
    requires Ok(q, last) && num > 0 && last + num * PAGE_SIZE <= USER_HEAP_MAX
    ensures Ok(Bump(q, last, num), last + num * PAGE_SIZE)
    ensures Live(Bump(q, last, num)) == Live(q) + {(last, num)}
  {
    hide Sum, Tail;
    var q' := Bump(q, last, num);
    forall k | 0 <= k <= |q| ensures q'[..k] == q[..k] {
    }
    SumNext(q', |q|);
    assert q'[..|q| + 1] == q' && q[..|q|] == q;
    LivePush(q, Entry(last, num, true));
  }

  lemma LivePush(q: seq<Entry>, x: Entry)
    ensures Live(q + [x]) == Live(q) + if x.live then {(x.addr, x.pages)} else {}
  {
    var r := q + [x];
    forall b ensures b in Live(r) <==> b in Live(q) || (x.live && b == (x.addr, x.pages)) {
      if b in Live(q) {
        var k :| 0 <= k < |q| && q[k].live && (q[k].addr, q[k].pages) == b;
        assert r[k] == q[k];
      }
      if x.live && b == (x.addr, x.pages) {
        assert r[|q|] == x;
      }
    }
  }

  /** free: the block at index k is no longer live. */
  function Freed(q: seq<Entry>, k: nat): seq<Entry>
    requires k < |q|
  {
    q[k := q[k].(live := false)]
  }

  lemma {:induction false} FreedSum(q: seq<Entry>, k: nat, i: nat)
    requires k < |q| && i <= |q| && RunsOk(q) && q[k].live
    ensures Sum(Freed(q, k)[..i]) == Sum(q[..i])
    ensures i > 0 && q[i - 1].live && i - 1 != k ==> Tail(Freed(q, k)[..i]) == 0
    ensures Tail(Freed(q, k)[..i]) >= Tail(q[..i])
    decreases i
  {
    if i > 0 {
      FreedSum(q, k, i - 1);
      FreedStep(q, k, i - 1);
    }
  }

  lemma FreedStep(q: seq<Entry>, k: nat, i: nat)
    requires k < |q| && i < |q| && RunsOk(q) && q[k].live
    requires Sum(Freed(q, k)[..i]) == Sum(q[..i]) && Tail(Freed(q, k)[..i]) >= Tail(q[..i])
    ensures Sum(Freed(q, k)[..i + 1]) == Sum(q[..i + 1])
    ensures q[i].live && i != k ==> Tail(Freed(q, k)[..i + 1]) == 0
    ensures Tail(Freed(q, k)[..i + 1]) >= Tail(q[..i + 1])
  {
    hide Sum, Tail;
    var q' := Freed(q, k);
    SumNext(q, i);
    SumNext(q', i);
    if i == k {
      assert q'[..k] == q[..k];
    } else {
      assert q'[i] == q[i];
    }
  }

  lemma FreedOk(q: seq<Entry>, last: int, k: nat)
    requires Ok(q, last) && k < |q| && q[k].live
    ensures Ok(Freed(q, k), last)
    ensures Live(Freed(q, k)) == Live(q) - {(q[k].addr, q[k].pages)} && (q[k].addr, q[k].pages) in Live(q)
  {
    hide Sum, Tail;
    var q' := Freed(q, k);
    forall i | 0 <= i <= |q| ensures Sum(q'[..i]) == Sum(q[..i]) && Tail(q'[..i]) >= Tail(q[..i]) {
      FreedSum(q, k, i);
    }
    assert q[..|q|] == q && q'[..|q|] == q';
    forall b ensures b in Live(q') <==> b in Live(q) && b != (q[k].addr, q[k].pages) {
      if b in Live(q) {
        var i :| 0 <= i < |q| && q[i].live && (q[i].addr, q[i].pages) == b;
        AddressesDiffer(q, last, i, k);
        if i != k {
          assert q'[i] == q[i];
        }
      }
      if b in Live(q') {
        var i :| 0 <= i < |q'| && q'[i].live && (q'[i].addr, q'[i].pages) == b;
        assert q'[i] == q[i] && i != k;
        AddressesDiffer(q, last, i, k);
      }
    }
  }

  /** No two live blocks start at the same address. */
  lemma AddressesDiffer(q: seq<Entry>, last: int, i: nat, j: nat)
    requires Ok(q, last) && i < |q| && j < |q| && q[i].live && q[j].live
    ensures i != j ==> q[i].addr != q[j].addr
  {
    if i < j {
      LiveDisjoint(q, last, i, j);
    } else if j < i {
      LiveDisjoint(q, last, j, i);
    }
  }

  /** malloc from the run that starts at index and ends at the live block lastindex: the first entry
      gets the num pages, the rest of the run is one more entry. */
  function Split(q: seq<Entry>, index: nat, num: int, size: int): seq<Entry>
    requires index < |q|
  {
    var x := q[index];
    q[..index] + [Entry(x.addr, num, true), Entry(x.addr + size, x.pages - num, false)] + q[index + 1..]
  }

  /** Before the split point nothing changes; after it, everything is one place further on, and the
      run that was split has lost its num pages. */
  lemma SplitPrefix(q: seq<Entry>, index: nat, num: int, size: int, i: nat)
    requires index < |q|
    ensures var q' := Split(q, index, num, size);
            && |q'| == |q| + 1 && (i <= index ==> q'[..i] == q[..i]) && (i < index ==> q'[i] == q[i])
            && q'[index] == Entry(q[index].addr, num, true)
            && q'[index + 1] == Entry(q[index].addr + size, q[index].pages - num, false)
            && (index + 1 < i < |q'| ==> q'[i] == q[i - 1])
  {
  }

  lemma {:induction false} SplitSums(q: seq<Entry>, index: nat, num: int, size: int, lastindex: nat, i: nat)
    requires Maximal(q, index, lastindex) && index < lastindex && index + 1 <= i <= |q|
    ensures var q' := Split(q, index, num, size);
            && Sum(q'[..i + 1]) == Sum(q[..i])
            && Tail(q'[..i + 1]) == Tail(q[..i]) - (if i <= lastindex then num else 0)
    decreases i
  {
    var q' := Split(q, index, num, size);
    SplitPrefix(q, index, num, size, i);
    SplitPrefix(q, index, num, size, index);
    SumNext(q', i);
    SumNext(q, i - 1);
    if i == index + 1 {
      SumNext(q', index);
      StartTail(q, index, lastindex);
    } else {
      SplitSums(q, index, num, size, lastindex, i - 1);
      assert q'[i] == q[i - 1];
    }
  }

  lemma StartTail(q: seq<Entry>, a: nat, b: nat)
    requires Maximal(q, a, b)
    ensures Tail(q[..a]) == 0
  {
    if a > 0 {
      SumNext(q, a - 1);
    }
  }

  lemma SplitOk(q: seq<Entry>, last: int, index: nat, lastindex: nat, num: int, size: int)
    requires Ok(q, last) && Maximal(q, index, lastindex) && index < lastindex < |q|
    requires 0 < num <= Tail(q[..lastindex]) && size == num * PAGE_SIZE
    ensures Ok(Split(q, index, num, size), last)
    ensures Live(Split(q, index, num, size)) == Live(q) + {(q[index].addr, num)}
    ensures forall b :: b in Live(q) ==>
        q[index].addr + num * PAGE_SIZE <= b.0 || b.0 + b.1 * PAGE_SIZE <= q[index].addr
  {
    SplitTiled(q, last, index, lastindex, num, size);
    SplitRuns(q, last, index, lastindex, num, size);
    SplitLive(q, index, num, size);
    forall b | b in Live(q) ensures q[index].addr + num * PAGE_SIZE <= b.0 || b.0 + b.1 * PAGE_SIZE <= q[index].addr {
      var k :| 0 <= k < |q| && q[k].live && (q[k].addr, q[k].pages) == b;
      SplitApart(q, last, index, lastindex, num, k);
    }
  }

  /** The pages handed out lie between the live blocks around the run. */
  lemma SplitApart(q: seq<Entry>, last: int, index: nat, lastindex: nat, num: int, k: nat)
    requires Ok(q, last) && Maximal(q, index, lastindex) && index < lastindex < |q| && num <= Tail(q[..lastindex])
    requires k < |q| && q[k].live
    ensures if k < index then q[k].addr + q[k].pages * PAGE_SIZE <= q[index].addr
            else q[index].addr + num * PAGE_SIZE <= q[k].addr
  {
    MaximalEnd(q, index, lastindex);
    StartTail(q, index, lastindex);
    if k < index {
      SumNext(q, k);
      SumAfter(q, k, index);
    } else {
      assert k >= lastindex;
      if k > lastindex {
        LiveDisjoint(q, last, lastindex, k);
      }
    }
  }

  lemma SplitTiled(q: seq<Entry>, last: int, index: nat, lastindex: nat, num: int, size: int)
    requires Ok(q, last) && Maximal(q, index, lastindex) && index < lastindex < |q|
    requires 0 < num <= Tail(q[..lastindex]) && size == num * PAGE_SIZE
    ensures Tiled(Split(q, index, num, size), last) && InHeap(Split(q, index, num, size), last)
  {
    hide Split, Tail, Sum, Maximal, Ok;
    var q' := Split(q, index, num, size);
    SplitPrefix(q, index, num, size, index);
    OkParts(q, last);
    forall k | 0 <= k < |q'|
      ensures q'[k].addr == USER_HEAP_START + PAGE_SIZE * Sum(q'[..k]) && USER_HEAP_START <= q'[k].addr <= last
    {
      SplitTiledAt(q, last, index, lastindex, num, size, k);
    }
    SplitSums(q, index, num, size, lastindex, |q|);
    assert q'[..|q'|] == q' && q[..|q|] == q;
  }

  lemma OkParts(q: seq<Entry>, last: int)
    requires Ok(q, last)
    ensures Tiled(q, last) && RunsOk(q) && InHeap(q, last)
  {
  }

  lemma SplitTiledAt(q: seq<Entry>, last: int, index: nat, lastindex: nat, num: int, size: int, k: nat)
    requires Ok(q, last) && Maximal(q, index, lastindex) && index < lastindex < |q| && k <= |q|
    requires 0 < num <= Tail(q[..lastindex]) && size == num * PAGE_SIZE
    ensures var q' := Split(q, index, num, size);
            && |q'| == |q| + 1
            && q'[k].addr == USER_HEAP_START + PAGE_SIZE * Sum(q'[..k]) && USER_HEAP_START <= q'[k].addr <= last
  {
    hide Split, Tail, Sum, RunsOk, Maximal;
    var q' := Split(q, index, num, size);
    SplitPrefix(q, index, num, size, index);
    SplitPrefix(q, index, num, size, k);
    if k == index + 1 {
      MaximalEnd(q, index, lastindex);
      SumNext(q', index);
    } else if k > index + 1 {
      SplitSums(q, index, num, size, lastindex, k - 1);
    }
  }

  lemma SplitRuns(q: seq<Entry>, last: int, index: nat, lastindex: nat, num: int, size: int)
    requires Ok(q, last) && Maximal(q, index, lastindex) && index < lastindex < |q|
    requires 0 < num <= Tail(q[..lastindex])
    ensures RunsOk(Split(q, index, num, size))
  {
    hide Split, Tail, Sum, Maximal, Ok;
    var q' := Split(q, index, num, size);
    SplitPrefix(q, index, num, size, index);
    OkParts(q, last);
    forall k | 0 <= k < |q'| && q'[k].live ensures q'[k].pages > 0 && Tail(q'[..k]) >= 0 {
      SplitRunsAt(q, index, lastindex, num, size, k);
    }
    SplitSums(q, index, num, size, lastindex, |q|);
    assert q'[..|q'|] == q' && q[..|q|] == q;
  }

  lemma SplitRunsAt(q: seq<Entry>, index: nat, lastindex: nat, num: int, size: int, k: nat)
    requires RunsOk(q) && Maximal(q, index, lastindex) && index < lastindex < |q| && k <= |q|
    requires 0 < num <= Tail(q[..lastindex])
    ensures var q' := Split(q, index, num, size);
            |q'| == |q| + 1 && (q'[k].live ==> q'[k].pages > 0 && Tail(q'[..k]) >= 0)
  {
    hide Split, Tail, Sum;
    SplitPrefix(q, index, num, size, index);
    SplitPrefix(q, index, num, size, k);
    StartTail(q, index, lastindex);
    if k > index + 1 {
      SplitSums(q, index, num, size, lastindex, k - 1);
    }
  }

  lemma SplitLive(q: seq<Entry>, index: nat, num: int, size: int)
    requires index < |q| && !q[index].live
    ensures Live(Split(q, index, num, size)) == Live(q) + {(q[index].addr, num)}
  {
    var q' := Split(q, index, num, size);
    forall b ensures b in Live(q') <==> b in Live(q) || b == (q[index].addr, num) {
      if b in Live(q) {
        var k :| 0 <= k < |q| && q[k].live && (q[k].addr, q[k].pages) == b;
        assert q'[if k < index then k else k + 1] == q[k];
      }
      if b == (q[index].addr, num) {
        assert q'[index] == Entry(q[index].addr, num, true);
      }
      if b in Live(q') {
        var k :| 0 <= k < |q'| && q'[k].live && (q'[k].addr, q'[k].pages) == b;
        SplitPrefix(q, index, num, size, k);
        assert k < index ==> q[k] == q'[k];
        assert k > index + 1 ==> q[k - 1] == q'[k];
      }
    }
  }

  /** The split keeps the tiling if and only if the size is a whole number of pages: otherwise the
      remainder is entered at an address that is not where the block ends. */
  lemma SplitTiledIff(q: seq<Entry>, last: int, index: nat, lastindex: nat, size: nat)
    requires Ok(q, last) && Maximal(q, index, lastindex) && index < lastindex < |q| && size > 0
    requires PagesFor(size) <= Tail(q[..lastindex])
    ensures Tiled(Split(q, index, PagesFor(size), size), last) <==> size % PAGE_SIZE == 0
  {
    var num := PagesFor(size);
    if size % PAGE_SIZE == 0 {
      SplitTiled(q, last, index, lastindex, num, size);
    } else {
      var q' := Split(q, index, num, size);
      SplitPrefix(q, index, num, size, index);
      SumNext(q', index);
    }
  }

  // ---------- best fit ----------

  /** The run that ends at the live block i can hold num pages; runs of 4000 pages and more are not considered. */
  predicate Fits(q: seq<Entry>, num: int, i: nat) {
    i < |q| && q[i].live && num <= Tail(q[..i]) < 4000
  }

  /** i ends the smallest run that fits, the first of those. */
  ghost predicate Best(q: seq<Entry>, num: int, n: nat, i: nat) {
    && Fits(q, num, i) && i < n
    && (forall j :: 0 <= j < n && Fits(q, num, j) ==> Tail(q[..i]) <= Tail(q[..j]))
    && (forall j :: 0 <= j < i && Fits(q, num, j) ==> Tail(q[..i]) < Tail(q[..j]))
  }

  ghost predicate NoRun(q: seq<Entry>, num: int) {
    forall i :: !Fits(q, num, i)
  }

  /** The address of the run that ends at the block with index i. */
  function RunStart(q: seq<Entry>, i: nat): int
    requires i < |q|
  {
    q[i].addr - Tail(q[..i]) * PAGE_SIZE
  }

  /** malloc returns NULL: the size is larger than the heap, or no run fits and the rest of the heap is too small. */
  ghost predicate Refused(q: seq<Entry>, last: int, changes: nat, size: nat) {
    size > USER_HEAP_MAX - USER_HEAP_START || (changes != 0 && NoRun(q, PagesFor(size)) && size > USER_HEAP_MAX - last)
  }

  /** What malloc does to a run: as Split, but entered at the address computed from the block behind the run, and
      the loop that marks the first entry live has no rounds when the run is empty. */
  function Carve(q: seq<Entry>, index: nat, lastindex: nat, num: int, size: int): seq<Entry>
    requires index <= lastindex < |q|
  {
    var x := q[index];
    q[..index]
      + [Entry(x.addr, num, x.live || index < lastindex), Entry(RunStart(q, lastindex) + size, x.pages - num, false)]
      + q[index + 1..]
  }

  /** Carve in three steps: a copy of the entry, what both hold, and the mark. */
  lemma CarveSteps(q: seq<Entry>, index: nat, lastindex: nat, num: int, size: int, q1: seq<Entry>, q2: seq<Entry>,
                   q3: seq<Entry>)
    requires index <= lastindex < |q| && q1 == q[..index + 1] + q[index..]
    requires q2 == q1[index + 1 := Entry(RunStart(q, lastindex) + size, q1[index].pages - num, false)]
                     [index := q1[index].(pages := num)]
    requires q3 == q2[index := q2[index].(live := q2[index].live || index < lastindex)]
    ensures q3 == Carve(q, index, lastindex, num, size)
  {
    hide RunStart;
  }

  /** malloc, for every size and every state of the arrays: from q and last to q' and last', with result p. */
  ghost predicate Mallocs(q: seq<Entry>, last: int, changes: nat, size: nat, q': seq<Entry>, last': int, p: int) {
    var num := PagesFor(size);
    if Refused(q, last, changes, size) then q' == q && last' == last && p == 0
    else if changes == 0 || NoRun(q, num) then q' == Bump(q, last, num) && last' == last + num * PAGE_SIZE && p == last
    else exists i: nat :: Best(q, num, |q|, i) && Carved(q, i, num, size, q', p) && last' == last
  }

  ghost predicate Carved(q: seq<Entry>, i: nat, num: int, size: int, q': seq<Entry>, p: int)
  {
    i < |q| && p == RunStart(q, i) && q' == Carve(q, i - TailLength(q[..i]), i, num, size)
  }

  /** The sizes for which malloc does what it should: not 0, whole pages if a run is split, and room in the heap,
      which malloc does not look at as long as nothing was freed. */
  ghost predicate Proper(q: seq<Entry>, last: int, changes: nat, size: nat) {
    && size > 0
    && (changes == 0 ==> last + PagesFor(size) * PAGE_SIZE <= USER_HEAP_MAX)
    && (changes != 0 && !NoRun(q, PagesFor(size)) ==> size % PAGE_SIZE == 0)
  }

  /** The live blocks of q' are those of q and a new one of num pages at p, which lies in the heap and
      overlaps none of them. */
  ghost predicate Allocated(q: seq<Entry>, q': seq<Entry>, last': int, num: int, p: int) {
    && Live(q') == Live(q) + {(p, num)}
    && (forall b :: b in Live(q) ==> p + num * PAGE_SIZE <= b.0 || b.0 + b.1 * PAGE_SIZE <= p)
    && USER_HEAP_START <= p && p + num * PAGE_SIZE <= last' <= USER_HEAP_MAX
  }

  /** What the scan knows at index n: the best run so far, and its size in min. */
  ghost predicate Scan(q: seq<Entry>, num: int, n: nat, found: bool, i: nat, min: int) {
    n <= |q| &&
    if found then Best(q, num, n, i) && min == Tail(q[..i])
    else min == 4000 && forall j :: 0 <= j < n ==> !Fits(q, num, j)
  }

  lemma ScanStep(q: seq<Entry>, num: int, n: nat, found: bool, i: nat, min: int)
    requires n < |q| && Scan(q, num, n, found, i, min)
    ensures if q[n].live && num <= Tail(q[..n]) < min then Scan(q, num, n + 1, true, n, Tail(q[..n]))
            else Scan(q, num, n + 1, found, i, min)
  {
    hide Tail;
  }

  lemma ScanEnd(q: seq<Entry>, num: int, found: bool, i: nat, min: int)
    requires Scan(q, num, |q|, found, i, min)
    ensures found ==> Best(q, num, |q|, i) && min == Tail(q[..i]) && Fits(q, num, i)
    ensures !found ==> forall j :: !Fits(q, num, j)
  {
  }

  /** What the scan of malloc has in its variables at index n. */
  ghost predicate Scanned(q: seq<Entry>, num: int, n: nat, count: int, f: nat, found: bool, index: int, i: nat,
                          min: int, address: int)
  {
    && n <= |q| && count == Tail(q[..n]) && f == TailLength(q[..n]) && Scan(q, num, n, found, i, min)
    && (found ==> i < n && index == i - TailLength(q[..i]) && address == RunStart(q, i))
  }

  lemma ScannedStart(q: seq<Entry>, num: int)
    ensures Scanned(q, num, 0, 0, 0, false, -1, 0, 4000, 0)
  {
  }

  lemma ScannedStep(q: seq<Entry>, num: int, n: nat, count: int, f: nat, found: bool, index: int, i: nat, min: int,
                    address: int)
    requires n < |q| && Scanned(q, num, n, count, f, found, index, i, min, address)
    ensures f <= n
    ensures !q[n].live ==> Scanned(q, num, n + 1, count + q[n].pages, f + 1, found, index, i, min, address)
    ensures q[n].live && !(count < min && count >= num) ==> Scanned(q, num, n + 1, 0, 0, found, index, i, min, address)
    ensures q[n].live && count < min && count >= num ==>
              Scanned(q, num, n + 1, 0, 0, true, n - f, n, count, q[n].addr - count * PAGE_SIZE)
  {
    SumNext(q, n);
    ScanStep(q, num, n, found, i, min);
    hide Tail, Scan, TailLength;
  }

  lemma ScannedEnd(q: seq<Entry>, num: int, count: int, f: nat, found: bool, index: int, i: nat, min: int, address: int)
    requires Scanned(q, num, |q|, count, f, found, index, i, min, address)
    ensures if found then
              i < |q| && Best(q, num, |q|, i) && index == i - TailLength(q[..i]) && address == RunStart(q, i)
            else NoRun(q, num)
  {
    ScanEnd(q, num, found, i, min);
  }

  /** i is the first live entry at the address. */
  predicate FirstLive(q: seq<Entry>, va: int, i: nat) {
    && i < |q| && q[i].live && q[i].addr == va
    && forall j :: 0 <= j < i ==> !(q[j].addr == va && q[j].live)
  }

  class UserHeap {
    const addresses: array<int>
    const numOfPages: array<int>
    const changed: array<int>
    var sizeofarray: nat
    var lastAddress: int
    var changes: nat

    ghost predicate Shape()
      reads this
    {
      && addresses.Length == numOfPages.Length == changed.Length && sizeofarray <= addresses.Length
      && addresses != numOfPages && numOfPages != changed && addresses != changed
    }

    /** The flags are 0 or 1. */
    ghost predicate Flags()
      requires Shape()
      reads this, changed
    {
      forall k :: 0 <= k < sizeofarray ==> changed[k] == 0 || changed[k] == 1
    }

    ghost function Entries(): seq<Entry>
      requires Shape()
      reads this, addresses, numOfPages, changed
    {
      seq(sizeofarray, k requires 0 <= k < sizeofarray && Shape() reads this, addresses, numOfPages, changed
            => Entry(addresses[k], numOfPages[k], changed[k] != 0))
    }

    ghost predicate Valid()
      reads this, addresses, numOfPages, changed
    {
      && Shape() && Ok(Entries(), lastAddress) && Flags()
      && (changes == 0 ==> forall k :: 0 <= k < sizeofarray ==> changed[k] != 0)
    }

    constructor (capacity: nat)
      ensures Valid() && Entries() == [] && changes == 0 && lastAddress == USER_HEAP_START
      ensures fresh(addresses) && fresh(numOfPages) && fresh(changed) && addresses.Length == capacity
    {
      addresses, numOfPages, changed := new int[capacity], new int[capacity], new int[capacity];
      sizeofarray, lastAddress, changes := 0, USER_HEAP_START, 0;
    }

    /** The scan of malloc. */
    method FindRun(num: int) returns (found: bool, index: int, lastindex: nat, address: int)
      requires Shape()
      ensures !found ==> NoRun(Entries(), num)
      ensures found ==> lastindex < |Entries()| && Best(Entries(), num, |Entries()|, lastindex)
      ensures found ==> index == lastindex - TailLength(Entries()[..lastindex])
      ensures found ==> address == RunStart(Entries(), lastindex)
    {
      ghost var q := Entries();
      hide Best, Scanned, NoRun, TailLength, RunStart;
      var count, min, f := 0, 4000, 0;
      found, index, lastindex, address := false, -1, 0, 0;
      ScannedStart(q, num);
      for i := 0 to sizeofarray
        invariant f >= 0 && Scanned(q, num, i, count, f, found, index, lastindex, min, address)
      {
        ScannedStep(q, num, i, count, f, found, index, lastindex, min, address);
        if changed[i] == 0 {
          count := count + numOfPages[i];
          f := f + 1;
        } else {
          if count < min && count >= num {
            min, address, index := count, addresses[i] - count * PAGE_SIZE, i - f;
            found, lastindex := true, i;
          }
          f, count := 0, 0;
        }
      }
      ScannedEnd(q, num, count, f, found, index, lastindex, min, address);
    }

    /** The arrays move one place up from index on, and the block and the remainder are entered. */
    method SplitRun(index: nat, lastindex: nat, num: int, address: int, size: int)
      requires Shape() && Flags() && index <= lastindex < sizeofarray < addresses.Length
      requires address == RunStart(Entries(), lastindex)
      modifies this`sizeofarray, addresses, numOfPages, changed
      ensures Shape() && Flags() && Entries() == Carve(old(Entries()), index, lastindex, num, size)
    {
      hide RunStart, Carve;
      ghost var q := Entries();
      ShiftUp(index);
      ghost var q1 := Entries();
      EnterBlock(index, num, address, size);
      ghost var q2 := Entries();
      MarkLive(index, lastindex);
      CarveSteps(q, index, lastindex, num, size, q1, q2, Entries());
    }

    method EnterBlock(index: nat, num: int, address: int, size: int)
      requires Shape() && Flags() && index + 1 < sizeofarray
      modifies addresses, numOfPages, changed
      ensures Shape() && Flags()
      ensures var q := old(Entries());
              Entries() == q[index + 1 := Entry(address + size, q[index].pages - num, false)]
                            [index := q[index].(pages := num)]
    {
      ghost var q := Entries();
      addresses[index + 1] := address + size;
      numOfPages[index + 1] := numOfPages[index] - num;
      changed[index + 1] := 0;
      numOfPages[index] := num;
      forall k | 0 <= k < sizeofarray
        ensures Entries()[k] ==
          q[index + 1 := Entry(address + size, q[index].pages - num, false)][index := q[index].(pages := num)][k]
      {
      }
    }

    method MarkLive(index: nat, lastindex: nat)
      requires Shape() && Flags() && index <= lastindex < sizeofarray
      modifies changed
      ensures Shape() && Flags()
      ensures var q := old(Entries());
              Entries() == q[index := q[index].(live := q[index].live || index < lastindex)]
    {
      for i := index to lastindex
        invariant changed[..] == old(changed[..])[index := if index < i then 1 else old(changed[index])]
      {
        changed[index] := 1;
      }
    }

    /** The entries after index move one place up. */
    method ShiftUp(index: nat)
      requires Shape() && Flags() && index < sizeofarray < addresses.Length
      modifies this`sizeofarray, addresses, numOfPages, changed
      ensures Shape() && Flags() && Entries() == old(Entries())[..index + 1] + old(Entries())[index..]
    {
      sizeofarray := sizeofarray + 1;
      var i := sizeofarray - 1;
      while i > index
        invariant index <= i < sizeofarray == old(sizeofarray) + 1
        invariant forall k :: 0 <= k <= i && k < old(sizeofarray) ==>
                    && addresses[k] == old(addresses[k]) && numOfPages[k] == old(numOfPages[k])
                    && changed[k] == old(changed[k])
        invariant forall k :: i < k < sizeofarray ==>
                    && addresses[k] == old(addresses[k - 1]) && numOfPages[k] == old(numOfPages[k - 1])
                    && changed[k] == old(changed[k - 1])
      {
        addresses[i] := addresses[i - 1];
        numOfPages[i] := numOfPages[i - 1];
        changed[i] := changed[i - 1];
        i := i - 1;
      }
    }

    /** A block at last_addres. */
    method Append(num: int) returns (p: int)
      requires Shape() && sizeofarray < addresses.Length
      modifies this`sizeofarray, this`lastAddress, addresses, numOfPages, changed
      ensures Shape() && Entries() == Bump(old(Entries()), old(lastAddress), num)
      ensures p == old(lastAddress) && lastAddress == p + num * PAGE_SIZE && sizeofarray == old(sizeofarray) + 1
      ensures forall k :: 0 <= k < old(sizeofarray) ==> changed[k] == old(changed[k])
      ensures changed[old(sizeofarray)] == 1
    {
      ghost var q := Entries();
      p := lastAddress;
      lastAddress := lastAddress + num * PAGE_SIZE;
      numOfPages[sizeofarray] := num;
      addresses[sizeofarray] := p;
      changed[sizeofarray] := 1;
      sizeofarray := sizeofarray + 1;
      assert Entries() == Bump(q, old(lastAddress), num);
    }

    /** malloc; 0 is NULL.  A place in the arrays is owed by the callers. */
    method Malloc(size: nat) returns (p: int)
      requires Shape() && Flags() && sizeofarray < addresses.Length
      modifies this, addresses, numOfPages, changed
      ensures Shape() && Flags() && changes == old(changes)
      ensures Mallocs(old(Entries()), old(lastAddress), changes, size, Entries(), lastAddress, p)
      ensures old(Valid()) ==>
                (Valid() <==> Refused(old(Entries()), old(lastAddress), changes, size)
                              || Proper(old(Entries()), old(lastAddress), changes, size))
      ensures old(Valid()) && Proper(old(Entries()), old(lastAddress), changes, size) ==>
                if Refused(old(Entries()), old(lastAddress), changes, size) then p == 0
                else p != 0 && Allocated(old(Entries()), Entries(), lastAddress, PagesFor(size), p)
    {
      hide Ok, Best, TailLength, Carve, Bump, NoRun, Mallocs, Proper, Refused, RunStart, Allocated;
      ghost var q, last, valid := Entries(), lastAddress, Valid();
      if valid {
        MallocMeans(q, last, changes, size);
      }
      if size > USER_HEAP_MAX - USER_HEAP_START {
        MallocTooLarge(q, last, changes, size);
        return 0;
      }
      var num := size / PAGE_SIZE;
      if size % PAGE_SIZE != 0 {
        num := num + 1;
      }
      if changes == 0 {
        MallocFirst(q, last, size);
        p := Append(num);
        return;
      }
      var found, index, lastindex, address := FindRun(num);
      if found {
        MallocRun(q, last, changes, size, lastindex);
        SplitRun(index, lastindex, num, address, size);
        p := address;
      } else {
        MallocLast(q, last, changes, size);
        if size > USER_HEAP_MAX - lastAddress {
          return 0;
        }
        p := Append(num);
      }
    }

    /** free: the first live entry at that address is released; without one nothing happens.  In a sound heap that is
        exactly the live block there. */
    method Free(va: int)
      requires Shape() && Flags()
      modifies this`changes, changed
      ensures Shape() && Flags() && lastAddress == old(lastAddress)
      ensures var q := old(Entries());
              if exists i :: FirstLive(q, va, i) then
                changes == old(changes) + 1 && exists i :: FirstLive(q, va, i) && Entries() == Freed(q, i)
              else Entries() == q && changes == old(changes)
      ensures old(Valid()) ==> Valid()
      ensures old(Valid()) && (forall n :: (va, n) !in Live(old(Entries()))) ==>
                Entries() == old(Entries()) && changes == old(changes)
      ensures old(Valid()) ==>
                forall n :: (va, n) in Live(old(Entries())) ==>
                  Live(Entries()) == Live(old(Entries())) - {(va, n)} && changes == old(changes) + 1
    {
      ghost var q := Entries();
      var i := 0;
      while i < sizeofarray
        invariant i <= sizeofarray && forall j :: 0 <= j < i ==> !(q[j].addr == va && q[j].live)
      {
        if addresses[i] == va && changed[i] == 1 {
          assert FirstLive(q, va, i);
          if Ok(q, lastAddress) {
            FreedOk(q, lastAddress, i);
            FreedOnly(q, lastAddress, i);
          }
          changed[i] := 0;
          changes := changes + 1;
          assert Entries() == Freed(q, i);
          return;
        }
        i := i + 1;
      }
      NotLive(q, va);
    }
  }

  // ---------- malloc ----------

  lemma MallocTooLarge(q: seq<Entry>, last: int, changes: nat, size: nat)
    requires size > USER_HEAP_MAX - USER_HEAP_START
    ensures Mallocs(q, last, changes, size, q, last, 0)
  {
  }

  lemma MallocFirst(q: seq<Entry>, last: int, size: nat)
    requires size <= USER_HEAP_MAX - USER_HEAP_START
    ensures Mallocs(q, last, 0, size, Bump(q, last, PagesFor(size)), last + PagesFor(size) * PAGE_SIZE, last)
  {
  }

  lemma MallocRun(q: seq<Entry>, last: int, changes: nat, size: nat, i: nat)
    requires size <= USER_HEAP_MAX - USER_HEAP_START && changes != 0 && Best(q, PagesFor(size), |q|, i)
    ensures var q' := Carve(q, i - TailLength(q[..i]), i, PagesFor(size), size);
            Mallocs(q, last, changes, size, q', last, RunStart(q, i))
  {
    hide PagesFor, Carve, RunStart, TailLength;
    assert Fits(q, PagesFor(size), i);
    assert Carved(q, i, PagesFor(size), size, Carve(q, i - TailLength(q[..i]), i, PagesFor(size), size),
        RunStart(q, i));
  }

  lemma MallocLast(q: seq<Entry>, last: int, changes: nat, size: nat)
    requires size <= USER_HEAP_MAX - USER_HEAP_START && changes != 0 && NoRun(q, PagesFor(size))
    ensures if size > USER_HEAP_MAX - last then Mallocs(q, last, changes, size, q, last, 0)
            else Mallocs(q, last, changes, size, Bump(q, last, PagesFor(size)), last + PagesFor(size) * PAGE_SIZE, last)
  {
    hide NoRun, Bump, PagesFor;
  }

  ghost predicate AllLive(q: seq<Entry>) {
    forall k :: 0 <= k < |q| ==> q[k].live
  }

  /** Whatever malloc was asked for, the heap is sound again if and only if malloc refused or the size was proper.
      Otherwise an empty block is entered, a remainder at an address that is none, or the heap is left. */
  lemma MallocOkIff(q: seq<Entry>, last: int, changes: nat, size: nat, q': seq<Entry>, last': int, p: int)
    requires Ok(q, last) && (changes == 0 ==> AllLive(q)) && Mallocs(q, last, changes, size, q', last', p)
    ensures Ok(q', last') && (changes == 0 ==> AllLive(q')) <==>
            Refused(q, last, changes, size) || Proper(q, last, changes, size)
  {
    hide Ok, NoRun, Best, Bump, Carve, TailLength, RunStart;
    var num := PagesFor(size);
    if !Refused(q, last, changes, size) {
      if changes == 0 || NoRun(q, num) {
        BumpLive(q, last, num);
        BumpOkIff(q, last, num);
        if changes != 0 {
          LastAligned(q, last, size);
        }
      } else {
        var i: nat :| Best(q, num, |q|, i) && Carved(q, i, num, size, q', p) && last' == last;
        CarveOkIff(q, last, i, size);
      }
    }
  }

  /** A proper malloc that is not refused adds one live block, of as many pages as the size takes, in the heap and
      apart from all others: at the start of the best run, or else at last_addres. */
  lemma MallocAllocates(q: seq<Entry>, last: int, changes: nat, size: nat, q': seq<Entry>, last': int, p: int)
    requires Ok(q, last) && (changes == 0 ==> AllLive(q)) && Mallocs(q, last, changes, size, q', last', p)
    requires Proper(q, last, changes, size) && !Refused(q, last, changes, size)
    ensures Allocated(q, q', last', PagesFor(size), p) && p != 0
    ensures forall i: nat :: Best(q, PagesFor(size), |q|, i) && changes != 0 ==> last' == last && p == RunStart(q, i)
    ensures (forall i: nat :: !Best(q, PagesFor(size), |q|, i)) || changes == 0 ==> p == last
  {
    hide Ok, NoRun, Best, Bump, Carve, TailLength, RunStart, Allocated, PagesFor;
    var num := PagesFor(size);
    PagesPositive(size);
    OkLast(q, last);
    if changes == 0 || NoRun(q, num) {
      if changes != 0 {
        LastAligned(q, last, size);
        NoneFits(q, num);
      }
      BumpAllocated(q, last, num);
    } else {
      var i: nat :| Best(q, num, |q|, i) && Carved(q, i, num, size, q', p) && last' == last;
      assert Fits(q, num, i) by { BestFits(q, num, i); }
      WholePages(size);
      CarveIsSplit(q, last, i, num, size);
      SplitAllocated(q, last, i - TailLength(q[..i]), i, num, size);
    }
  }

  /** In addresses: a block that malloc returns lies in [0x80000000, 0xA0000000), the first one at the start of it, and
      before anything is freed exactly the sizes of more than 512 megabytes are refused. */
  lemma HeapLimits(q: seq<Entry>, last: int, changes: nat, size: nat, q': seq<Entry>, last': int, p: int)
    requires Ok(q, last) && (changes == 0 ==> AllLive(q)) && Mallocs(q, last, changes, size, q', last', p)
    ensures Proper(q, last, changes, size) && p != 0 ==>
              0x8000_0000 <= p && p + (size + 4095) / 4096 * 4096 <= 0xA000_0000
    ensures q == [] && size <= 0x2000_0000 ==> p == 0x8000_0000
    ensures changes == 0 ==> (Refused(q, last, changes, size) <==> size > 0x2000_0000)
    ensures size > 0x2000_0000 ==> p == 0 && q' == q && last' == last
  {
    if Proper(q, last, changes, size) && !Refused(q, last, changes, size) {
      MallocAllocates(q, last, changes, size, q', last', p);
    }
  }

  // ---------- how good the fit is ----------

  /** A maximal run of free entries ends at index b, and has num pages or more. */
  predicate Roomy(q: seq<Entry>, num: int, b: nat) {
    b <= |q| && (b < |q| ==> q[b].live) && Tail(q[..b]) >= num
  }

  /** The address of that run. */
  function AddressOfRun(q: seq<Entry>, b: nat): int
    requires b <= |q|
  {
    USER_HEAP_START + PAGE_SIZE * (Sum(q[..b]) - Tail(q[..b]))
  }

  /** No run with room for num pages is smaller. */
  ghost predicate Smallest(q: seq<Entry>, num: int, b: nat) {
    Roomy(q, num, b) && forall c: nat :: Roomy(q, num, c) ==> Tail(q[..b]) <= Tail(q[..c])
  }

  ghost predicate BestFit(q: seq<Entry>, num: int, p: int) {
    exists b: nat :: Smallest(q, num, b) && p == AddressOfRun(q, b)
  }

  /** The block is where best fit wants it if and only if some smallest run with room ends at a live block and has
      fewer than 4000 pages: malloc does not see a run behind the last live block, nor a larger one. */
  lemma BestFitIff(q: seq<Entry>, last: int, changes: nat, size: nat, q': seq<Entry>, last': int, p: int)
    requires Ok(q, last) && changes != 0 && size > 0 && Mallocs(q, last, changes, size, q', last', p)
    requires !Refused(q, last, changes, size)
    ensures BestFit(q, PagesFor(size), p) <==>
              exists b: nat :: b < |q| && Smallest(q, PagesFor(size), b) && Tail(q[..b]) < 4000
  {
    var num := PagesFor(size);
    PagesPositive(size);
    hide Ok, PagesFor, Carved, Tail;
    if NoRun(q, num) {
      NoRunNoFit(q, last, num, p);
      forall b: nat | b < |q| && Smallest(q, num, b) ensures Tail(q[..b]) >= 4000 {
        assert !Fits(q, num, b);
      }
    } else {
      var i: nat :| Best(q, num, |q|, i) && Carved(q, i, num, size, q', p) && last' == last;
      CarvedAt(q, last, i, num, size, q', p);
      forall b: nat | Smallest(q, num, b) && (p == AddressOfRun(q, b) || (b < |q| && Tail(q[..b]) < 4000))
        ensures Smallest(q, num, i)
      {
        if b < |q| && Tail(q[..b]) < 4000 {
          assert Fits(q, num, b);
        } else {
          SameRun(q, last, num, i, b);
        }
      }
    }
  }

  lemma CarvedAt(q: seq<Entry>, last: int, i: nat, num: int, size: int, q': seq<Entry>, p: int)
    requires Ok(q, last) && i < |q| && Carved(q, i, num, size, q', p)
    ensures p == AddressOfRun(q, i)
  {
    hide Carve, Tail, Sum;
  }

  /** Behind all blocks there is no run. */
  lemma NoRunNoFit(q: seq<Entry>, last: int, num: int, p: int)
    requires Ok(q, last) && num > 0 && p == last
    ensures !BestFit(q, num, p)
  {
    forall b: nat | Roomy(q, num, b) ensures AddressOfRun(q, b) < last {
      assert q[..|q|] == q;
      if b < |q| {
        SumNext(q, b);
        SumAfter(q, b, |q|);
      }
    }
    hide Roomy, AddressOfRun, Ok;
  }

  /** Different runs start at different addresses. */
  lemma SameRun(q: seq<Entry>, last: int, num: int, i: nat, b: nat)
    requires Ok(q, last) && num > 0 && Roomy(q, num, i) && Roomy(q, num, b) && AddressOfRun(q, i) == AddressOfRun(q, b)
    ensures i == b
  {
    if i < b {
      SumNext(q, i);
      SumAfter(q, i, b);
    } else if b < i {
      SumNext(q, b);
      SumAfter(q, b, i);
    }
  }

  /** Both, for whatever comes out. */
  lemma MallocMeans(q: seq<Entry>, last: int, changes: nat, size: nat)
    requires Ok(q, last) && (changes == 0 ==> AllLive(q))
    ensures forall q', last', p :: Mallocs(q, last, changes, size, q', last', p) ==>
              (Ok(q', last') && (changes == 0 ==> AllLive(q')) <==>
               Refused(q, last, changes, size) || Proper(q, last, changes, size))
    ensures forall q', last', p ::
              Mallocs(q, last, changes, size, q', last', p) && Proper(q, last, changes, size) ==>
                if Refused(q, last, changes, size) then p == 0 else p != 0 && Allocated(q, q', last', PagesFor(size), p)
  {
    hide Mallocs, Ok, Proper, Refused, Allocated, PagesFor;
    forall q', last', p | Mallocs(q, last, changes, size, q', last', p)
      ensures Ok(q', last') && (changes == 0 ==> AllLive(q')) <==>
              Refused(q, last, changes, size) || Proper(q, last, changes, size)
      ensures Proper(q, last, changes, size) ==>
                if Refused(q, last, changes, size) then p == 0 else p != 0 && Allocated(q, q', last', PagesFor(size), p)
    {
      RefusedNull(q, last, changes, size, q', last', p);
      MallocOkIff(q, last, changes, size, q', last', p);
      if Proper(q, last, changes, size) && !Refused(q, last, changes, size) {
        MallocAllocates(q, last, changes, size, q', last', p);
      }
    }
  }

  lemma RefusedNull(q: seq<Entry>, last: int, changes: nat, size: nat, q': seq<Entry>, last': int, p: int)
    requires Mallocs(q, last, changes, size, q', last', p)
    ensures Refused(q, last, changes, size) ==> p == 0
  {
  }

  lemma PagesPositive(size: nat)
    ensures size > 0 ==> PagesFor(size) > 0
    ensures PagesFor(0) == 0 && PagesFor(size) * PAGE_SIZE >= size
  {
  }

  lemma WholePages(size: nat)
    requires size % PAGE_SIZE == 0
    ensures size == PagesFor(size) * PAGE_SIZE
  {
  }

  lemma BestFits(q: seq<Entry>, num: int, i: nat)
    requires Best(q, num, |q|, i)
    ensures Fits(q, num, i) && !NoRun(q, num)
  {
  }

  lemma BumpLive(q: seq<Entry>, last: int, num: int)
    ensures AllLive(q) ==> AllLive(Bump(q, last, num))
  {
  }

  lemma BumpOkIff(q: seq<Entry>, last: int, num: int)
    requires Ok(q, last)
    ensures Ok(Bump(q, last, num), last + num * PAGE_SIZE) <==> num > 0 && last + num * PAGE_SIZE <= USER_HEAP_MAX
  {
    if num > 0 && last + num * PAGE_SIZE <= USER_HEAP_MAX {
      BumpOk(q, last, num);
    } else {
      assert Bump(q, last, num)[|q|] == Entry(last, num, true);
    }
  }

  /** A run that is not empty is split as it should. */
  lemma CarveIsSplit(q: seq<Entry>, last: int, i: nat, num: int, size: int)
    requires Ok(q, last) && i < |q| && q[i].live && Tail(q[..i]) > 0
    ensures var index := i - TailLength(q[..i]);
            && index < i && Maximal(q, index, i) && Carve(q, index, i, num, size) == Split(q, index, num, size)
            && q[index].addr == RunStart(q, i)
  {
    var index := i - TailLength(q[..i]);
    TailIsRun(q, i);
    RunAddress(q, last, index, i);
    hide Ok, Tail, TailLength, RunStart;
    RunEntry(q, i);
    CarveSplit(q, index, i, num, size);
  }

  lemma RunEntry(q: seq<Entry>, i: nat)
    requires i < |q|
    ensures RunStart(q, i) == q[i].addr - Tail(q[..i]) * PAGE_SIZE
  {
  }

  lemma CarveSplit(q: seq<Entry>, index: nat, i: nat, num: int, size: int)
    requires index < i < |q| && q[index].addr == RunStart(q, i)
    ensures Carve(q, index, i, num, size) == Split(q, index, num, size)
  {
    hide RunStart;
  }

  lemma CarveOkIff(q: seq<Entry>, last: int, i: nat, size: nat)
    requires Ok(q, last) && Best(q, PagesFor(size), |q|, i)
    ensures Ok(Carve(q, i - TailLength(q[..i]), i, PagesFor(size), size), last) <==> size > 0 && size % PAGE_SIZE == 0
  {
    hide Tail, TailLength, Carve, Split, PagesFor, Ok;
    var num, index := PagesFor(size), i - TailLength(q[..i]);
    assert Fits(q, num, i);
    PagesPositive(size);
    if size > 0 {
      CarveIsSplit(q, last, i, num, size);
      SplitTiledIff(q, last, index, i, size);
      if size % PAGE_SIZE == 0 {
        WholePages(size);
        SplitOk(q, last, index, i, num, size);
      } else {
        NotTiled(Split(q, index, num, size), last);
      }
    } else {
      TailIsRun(q, i);
      EmptyBlock(q, last, index, i, size);
    }
  }

  lemma NotTiled(q: seq<Entry>, last: int)
    requires !Tiled(q, last)
    ensures !Ok(q, last)
  {
  }

  /** A live block without pages. */
  lemma EmptyBlock(q: seq<Entry>, last: int, index: nat, lastindex: nat, size: int)
    requires index <= lastindex < |q| && q[lastindex].live
    ensures !Ok(Carve(q, index, lastindex, 0, size), last)
  {
    assert Carve(q, index, lastindex, 0, size)[index] == Entry(q[index].addr, 0, q[index].live || index < lastindex);
  }

  // ---------- failing inputs ----------

  /** Two pages freed in front of a live one, and 4097 bytes asked for: the remainder of the run, which has no
      pages, is entered one byte behind the first page of the block. */
  lemma PartialPages()
    ensures var q := [Entry(USER_HEAP_START, 2, false), Entry(USER_HEAP_START + 2 * PAGE_SIZE, 1, true)];
            var q', last := Split(q, 0, 2, 4097), USER_HEAP_START + 3 * PAGE_SIZE;
            Ok(q, last) && Mallocs(q, last, 1, 4097, q', last, USER_HEAP_START) && !Tiled(q', last)
  {
    var q := [Entry(USER_HEAP_START, 2, false), Entry(USER_HEAP_START + 2 * PAGE_SIZE, 1, true)];
    var last := USER_HEAP_START + 3 * PAGE_SIZE;
    TwoEntries(q);
    assert Ok(q, last);
    assert Fits(q, 2, 1) && Best(q, 2, 2, 1);
    MallocRun(q, last, 1, 4097, 1);
    CarveIsSplit(q, last, 1, 2, 4097);
    SplitTiledIff(q, last, 0, 1, 4097);
  }

  /** One live block and a free one behind it, and 0 bytes asked for: malloc returns the live block, which is
      left without pages, and its pages are free. */
  lemma NoBytes()
    ensures var q := [Entry(USER_HEAP_START, 1, true), Entry(USER_HEAP_START + PAGE_SIZE, 1, false)];
            var last := USER_HEAP_START + 2 * PAGE_SIZE;
            var q' := [Entry(USER_HEAP_START, 0, true), Entry(USER_HEAP_START, 1, false), q[1]];
            Ok(q, last) && Mallocs(q, last, 1, 0, q', last, USER_HEAP_START)
  {
    var q := [Entry(USER_HEAP_START, 1, true), Entry(USER_HEAP_START + PAGE_SIZE, 1, false)];
    var last := USER_HEAP_START + 2 * PAGE_SIZE;
    TwoEntries(q);
    assert Ok(q, last);
    assert Fits(q, 0, 0) && Best(q, 0, 2, 0);
    MallocRun(q, last, 1, 0, 0);
    assert Carve(q, 0, 0, 0, 0) == [Entry(USER_HEAP_START, 0, true), Entry(USER_HEAP_START, 1, false)] + [q[1]];
  }

  /** A free page behind the only block, and 4000 free pages in front of one: neither is used for a page. */
  lemma RunsPassedOver()
    ensures var behind := [Entry(USER_HEAP_START, 1, true), Entry(USER_HEAP_START + PAGE_SIZE, 1, false)];
            var last := USER_HEAP_START + 2 * PAGE_SIZE;
            && Ok(behind, last) && Mallocs(behind, last, 1, 4096, Bump(behind, last, 1), last + PAGE_SIZE, last)
            && !BestFit(behind, 1, last) && Roomy(behind, 1, 2)
    ensures var large := [Entry(USER_HEAP_START, 4000, false), Entry(USER_HEAP_START + 4000 * PAGE_SIZE, 1, true)];
            var last := USER_HEAP_START + 4001 * PAGE_SIZE;
            && Ok(large, last) && Mallocs(large, last, 1, 4096, Bump(large, last, 1), last + PAGE_SIZE, last)
            && !BestFit(large, 1, last) && Roomy(large, 1, 1)
  {
    PassedOver([Entry(USER_HEAP_START, 1, true), Entry(USER_HEAP_START + PAGE_SIZE, 1, false)],
               USER_HEAP_START + 2 * PAGE_SIZE, 2);
    PassedOver([Entry(USER_HEAP_START, 4000, false), Entry(USER_HEAP_START + 4000 * PAGE_SIZE, 1, true)],
               USER_HEAP_START + 4001 * PAGE_SIZE, 1);
  }

  lemma PassedOver(q: seq<Entry>, last: int, b: nat)
    requires |q| == 2 && q[0].addr == USER_HEAP_START && q[1].addr == USER_HEAP_START + q[0].pages * PAGE_SIZE
    requires q[0].pages > 0 && q[1].pages == 1 && last == q[1].addr + PAGE_SIZE <= USER_HEAP_MAX - PAGE_SIZE
    requires (q[0].live && !q[1].live && b == 2) || (!q[0].live && q[0].pages == 4000 && q[1].live && b == 1)
    ensures Ok(q, last) && Mallocs(q, last, 1, 4096, Bump(q, last, 1), last + PAGE_SIZE, last)
    ensures !BestFit(q, 1, last) && Roomy(q, 1, b)
  {
    TwoEntries(q);
    assert q[..2] == q;
    assert Ok(q, last);
    assert PagesFor(4096) == 1;
    hide Tail, Sum;
    assert NoRun(q, 1);
    NoRunNoFit(q, last, 1, last);
  }

  lemma TwoEntries(q: seq<Entry>)
    requires |q| == 2
    ensures Sum(q[..0]) == 0 && Sum(q[..1]) == q[0].pages && Sum(q) == q[0].pages + q[1].pages
    ensures Tail(q[..0]) == 0 && Tail(q[..1]) == (if q[0].live then 0 else q[0].pages)
    ensures TailLength(q[..0]) == 0 && TailLength(q[..1]) == (if q[0].live then 0 else 1)
    ensures Tail(q) == if q[1].live then 0 else Tail(q[..1]) + q[1].pages
  {
    SumNext(q, 0);
    SumNext(q, 1);
    assert q[..2] == q;
  }

  lemma NoneFits(q: seq<Entry>, num: int)
    requires NoRun(q, num)
    ensures forall i: nat :: !Best(q, num, |q|, i)
  {
  }

  lemma OkLast(q: seq<Entry>, last: int)
    requires Ok(q, last)
    ensures USER_HEAP_START <= last <= USER_HEAP_MAX
  {
  }

  lemma BumpAllocated(q: seq<Entry>, last: int, num: int)
    requires Ok(q, last) && num > 0 && last + num * PAGE_SIZE <= USER_HEAP_MAX
    ensures Ok(Bump(q, last, num), last + num * PAGE_SIZE)
    ensures Allocated(q, Bump(q, last, num), last + num * PAGE_SIZE, num, last)
  {
    BumpOk(q, last, num);
    BumpApart(q, last, num);
  }

  lemma BumpApart(q: seq<Entry>, last: int, num: int)
    requires Ok(q, last)
    ensures forall b :: b in Live(q) ==> b.0 + b.1 * PAGE_SIZE <= last
  {
    forall b | b in Live(q) ensures b.0 + b.1 * PAGE_SIZE <= last {
      var k :| 0 <= k < |q| && q[k].live && (q[k].addr, q[k].pages) == b;
      LiveInHeap(q, last, k);
    }
  }

  lemma SplitAllocated(q: seq<Entry>, last: int, index: nat, lastindex: nat, num: int, size: int)
    requires Ok(q, last) && Best(q, num, |q|, lastindex) && index == lastindex - TailLength(q[..lastindex])
    requires num > 0 && size == num * PAGE_SIZE
    ensures index < lastindex < |q| && q[index].addr == RunStart(q, lastindex)
    ensures Ok(Split(q, index, num, size), last) && Allocated(q, Split(q, index, num, size), last, num, q[index].addr)
    ensures forall i: nat :: Best(q, num, |q|, i) ==> i == lastindex
    ensures q[index].addr >= USER_HEAP_START
  {
    assert Fits(q, num, lastindex);
    BestIsOne(q, num, lastindex);
    RunAddress(q, last, index, lastindex);
    TailIsRun(q, lastindex);
    hide Split, Tail, TailLength;
    SplitOk(q, last, index, lastindex, num, size);
    LiveInHeapAt(Split(q, index, num, size), last, q[index].addr, num);
  }

  /** The end of the used heap is page aligned, so the space left is a whole number of pages. */
  lemma LastAligned(q: seq<Entry>, last: int, size: nat)
    requires Ok(q, last) && size <= USER_HEAP_MAX - last
    ensures last + PagesFor(size) * PAGE_SIZE <= USER_HEAP_MAX
  {
    var s := Sum(q);
    assert last == USER_HEAP_START + PAGE_SIZE * s;
    assert USER_HEAP_MAX - last == PAGE_SIZE * (0x20000 - s);
  }

  lemma BestIsOne(q: seq<Entry>, num: int, i: nat)
    requires Best(q, num, |q|, i)
    ensures forall j :: Best(q, num, |q|, j) ==> i == j
  {
    forall j | Best(q, num, |q|, j) ensures i == j {
      assert Fits(q, num, j);
    }
  }

  /** The address malloc computes is the address of the run's first entry. */
  lemma RunAddress(q: seq<Entry>, last: int, index: nat, lastindex: nat)
    requires Ok(q, last) && lastindex < |q| && q[lastindex].live && index == lastindex - TailLength(q[..lastindex])
    requires Tail(q[..lastindex]) > 0
    ensures index < lastindex && q[index].addr == q[lastindex].addr - Tail(q[..lastindex]) * PAGE_SIZE
  {
    TailIsRun(q, lastindex);
  }

  lemma LiveInHeapAt(q: seq<Entry>, last: int, p: int, num: int)
    requires Ok(q, last) && (p, num) in Live(q)
    ensures USER_HEAP_START <= p && p + num * PAGE_SIZE <= last <= USER_HEAP_MAX
  {
    var k :| 0 <= k < |q| && q[k].live && (q[k].addr, q[k].pages) == (p, num);
    LiveInHeap(q, last, k);
  }

  lemma FreedOnly(q: seq<Entry>, last: int, k: nat)
    requires Ok(q, last) && k < |q| && q[k].live
    ensures forall n :: (q[k].addr, n) in Live(q) ==> n == q[k].pages
  {
    forall n | (q[k].addr, n) in Live(q) ensures n == q[k].pages {
      var i :| 0 <= i < |q| && q[i].live && (q[i].addr, q[i].pages) == (q[k].addr, n);
      AddressesDiffer(q, last, i, k);
    }
  }

  lemma NotLive(q: seq<Entry>, va: int)
    requires forall j :: 0 <= j < |q| ==> !(q[j].addr == va && q[j].live)
    ensures forall n :: (va, n) !in Live(q)
  {
  }
}

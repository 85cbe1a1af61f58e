/** The binary search over stabs of kern/kdebug.c.  Stabs of all types are mixed; those of one type
    are sorted by value. */
module StabSearch {

  datatype Stab = Stab(typ: int, value: int)

  predicate Is(stabs: seq<Stab>, k: int, typ: int) {
    0 <= k < |stabs| && stabs[k].typ == typ
  }

  /** The stabs of the type between lo and hi have values that do not decrease. */
  ghost predicate Increasing(stabs: seq<Stab>, lo: int, hi: int, typ: int) {
    forall i, j :: lo <= i < j <= hi && Is(stabs, i, typ) && Is(stabs, j, typ) ==> stabs[i].value <= stabs[j].value
  }

  /** No stab of the type strictly between a and b. */
  ghost predicate NoneBetween(stabs: seq<Stab>, a: int, b: int, typ: int) {
    forall k :: a < k < b ==> !Is(stabs, k, typ)
  }

  /** k is a stab of the type with value at most addr. */
  predicate Low(stabs: seq<Stab>, k: int, typ: int, addr: int) {
    Is(stabs, k, typ) && stabs[k].value <= addr
  }

  // ---------- what the code computes ----------

  /** The last stab of the type in [l, m], l - 1 if there is none. */
  function LastOf(stabs: seq<Stab>, l: int, m: int, typ: int): (r: int)
    requires 0 <= l <= m + 1 && m < |stabs|
    ensures l - 1 <= r <= m && NoneBetween(stabs, r, m + 1, typ) && (r >= l ==> Is(stabs, r, typ))
    decreases m + 1
  {
    if m >= l && stabs[m].typ != typ then LastOf(stabs, l, m - 1, typ) else m
  }

  /** The variables of the search loop; addr is a pointer to uint32, so addr++ makes it addr + 4. */
  datatype Scan = Scan(l: int, r: int, addr: int, left: int, right: int, anyMatches: bool)

  ghost predicate Bounded(stabs: seq<Stab>, z: Scan) {
    0 <= z.l && z.r < |stabs| && 0 <= z.left && z.right < |stabs|
  }

  /** What becomes smaller when the interval stays the same: after an exact match at l, l is below addr. */
  function Rank(stabs: seq<Stab>, typ: int, z: Scan): nat {
    if Is(stabs, z.l, typ) && stabs[z.l].value < z.addr then 0 else 1
  }

  /** The stab that is compared with addr, below l if there is none. */
  function Probe(stabs: seq<Stab>, typ: int, z: Scan): int
    requires Bounded(stabs, z) && z.l <= z.r
  {
    LastOf(stabs, z.l, (z.l + z.r) / 2, typ)
  }

  /** One round of the search loop. */
  function Round(stabs: seq<Stab>, typ: int, z: Scan): (z': Scan)
    requires Bounded(stabs, z) && z.l <= z.r
    ensures Bounded(stabs, z') && z'.r - z'.l <= z.r - z.l
    ensures z'.r - z'.l < z.r - z.l || Rank(stabs, typ, z') < Rank(stabs, typ, z)
  {
    var trueM := (z.l + z.r) / 2;
    var m := Probe(stabs, typ, z);
    if m < z.l then z.(l := trueM + 1)
    else if stabs[m].value < z.addr then z.(l := trueM + 1, left := m, anyMatches := true)
    else if stabs[m].value > z.addr then z.(r := m - 1, right := m - 1, anyMatches := true)
    else z.(l := m, left := m, addr := z.addr + 4, anyMatches := true)
  }

  /** The search loop.  It ends for all inputs. */
  function Search(stabs: seq<Stab>, typ: int, z: Scan): (z': Scan)
    requires Bounded(stabs, z)
    ensures Bounded(stabs, z')
    decreases if z.l <= z.r then z.r - z.l + 1 else 0, Rank(stabs, typ, z)
  {
    if z.l > z.r then z else Search(stabs, typ, Round(stabs, typ, z))
  }

  lemma SearchRound(stabs: seq<Stab>, typ: int, z: Scan)
    requires Bounded(stabs, z) && z.l <= z.r
    ensures Search(stabs, typ, z) == Search(stabs, typ, Round(stabs, typ, z))
  {
  }

  lemma SearchEnd(stabs: seq<Stab>, typ: int, z: Scan)
    requires Bounded(stabs, z) && z.l > z.r
    ensures Search(stabs, typ, z) == z
  {
  }

  function Start(lo: int, hi: int, addr: int): Scan { Scan(lo, hi, addr, lo, hi, false) }

  /** The last loop: from right down to a stab of the type, or to left. */
  function Rightmost(stabs: seq<Stab>, left: int, k: int, typ: int): (r: int)
    requires 0 <= left && k < |stabs|
    ensures r <= k && (left <= k ==> left <= r) && NoneBetween(stabs, r, k + 1, typ)
    ensures r > left ==> Is(stabs, r, typ)
    decreases k - left
  {
    if k > left && stabs[k].typ != typ then Rightmost(stabs, left, k - 1, typ) else k
  }

  /** What stab_binsearch makes of *region_left and *region_right. */
  function Bracket(stabs: seq<Stab>, lo: int, hi: int, typ: int, addr: int): (int, int)
    requires 0 <= lo && hi < |stabs|
  {
    var z := Search(stabs, typ, Start(lo, hi, addr));
    if z.anyMatches then (Rightmost(stabs, z.left, z.right, typ), z.right) else (z.left, z.left - 1)
  }

  method StabBinsearch(stabs: seq<Stab>, regionLeft: int, regionRight: int, typ: int, address: int)
    returns (left: int, right: int)
    requires 0 <= regionLeft && regionRight < |stabs|
    ensures (left, right) == Bracket(stabs, regionLeft, regionRight, typ, address)
  {
    hide Search;
    var l, r, addr, anyMatches := regionLeft, regionRight, address, false;
    left, right := regionLeft, regionRight;
    while l <= r
      invariant Bounded(stabs, Scan(l, r, addr, left, right, anyMatches))
      invariant Search(stabs, typ, Scan(l, r, addr, left, right, anyMatches))
             == Search(stabs, typ, Start(regionLeft, regionRight, address))
      decreases r - l + 1, Rank(stabs, typ, Scan(l, r, addr, left, right, anyMatches))
    {
      ghost var z := Scan(l, r, addr, left, right, anyMatches);
      var trueM := (l + r) / 2;
      var m := trueM;
      while m >= l && stabs[m].typ != typ
        invariant l - 1 <= m <= trueM && LastOf(stabs, l, m, typ) == Probe(stabs, typ, z)
      {
        m := m - 1;
      }
      if m < l {
        l := trueM + 1;
      } else {
        anyMatches := true;
        if stabs[m].value < addr {
          left := m;
          l := trueM + 1;
        } else if stabs[m].value > addr {
          right := m - 1;
          r := m - 1;
        } else {
          left := m;
          l := m;
          addr := addr + 4;
        }
      }
      assert Scan(l, r, addr, left, right, anyMatches) == Round(stabs, typ, z);
      SearchRound(stabs, typ, z);
    }
    SearchEnd(stabs, typ, Scan(l, r, addr, left, right, anyMatches));
    if !anyMatches {
      right := left - 1;
    } else {
      left := RightmostMatch(stabs, left, right, typ);
    }
  }

  /** The last loop. */
  method RightmostMatch(stabs: seq<Stab>, left: int, right: int, typ: int) returns (l: int)
    requires 0 <= left && right < |stabs|
    ensures l == Rightmost(stabs, left, right, typ)
  {
    l := right;
    while l > left && stabs[l].typ != typ
      invariant l <= right && Rightmost(stabs, left, l, typ) == Rightmost(stabs, left, right, typ)
      decreases l - left
    {
      l := l - 1;
    }
  }

  // ---------- empty regions ----------

  /** left > right says that the region holds no stab of the type, for all regions.  It does not say that
      addr is in none: when all of them are above addr, left <= right. */
  lemma EmptyIff(stabs: seq<Stab>, lo: int, hi: int, typ: int, addr: int)
    requires 0 <= lo && hi < |stabs|
    ensures var (left, right) := Bracket(stabs, lo, hi, typ, addr);
            left > right <==> forall k :: lo <= k <= hi ==> !Is(stabs, k, typ)
  {
    AnyIff(stabs, typ, Start(lo, hi, addr));
  }

  /** A stab of the type is met if there is one. */
  lemma {:induction false} AnyIff(stabs: seq<Stab>, typ: int, z: Scan)
    requires Bounded(stabs, z)
    ensures Search(stabs, typ, z).anyMatches <==> z.anyMatches || exists k :: z.l <= k <= z.r && Is(stabs, k, typ)
    decreases if z.l <= z.r then z.r - z.l + 1 else 0, Rank(stabs, typ, z)
  {
    if z.l <= z.r {
      AnyIff(stabs, typ, Round(stabs, typ, z));
      AnyRound(stabs, typ, z);
    }
  }

  lemma AnyRound(stabs: seq<Stab>, typ: int, z: Scan)
    requires Bounded(stabs, z) && z.l <= z.r
    ensures var z' := Round(stabs, typ, z);
            (z.anyMatches || exists k :: z.l <= k <= z.r && Is(stabs, k, typ)) <==>
            (z'.anyMatches || exists k :: z'.l <= k <= z'.r && Is(stabs, k, typ))
  {
    var m := Probe(stabs, typ, z);
    assert m >= z.l ==> Is(stabs, m, typ);
  }

  // ---------- the outcome ----------

  /** If some stab of the type has a value of at most addr: the last such stab, and the index
      just before the next stab of the type.  If all are above addr: the index just before the first on the
      right, and on the left the start of the region, or that same index if it comes before the region. */
  ghost predicate Outcome(stabs: seq<Stab>, lo: int, hi: int, typ: int, addr: int, left: int, right: int) {
    if exists k :: lo <= k <= hi && Low(stabs, k, typ, addr) then
      && lo <= left <= right <= hi && Low(stabs, left, typ, addr)
      && (forall k :: lo <= k <= hi && Low(stabs, k, typ, addr) ==> k <= left)
      && NoneBetween(stabs, left, right + 1, typ) && (right < hi ==> Is(stabs, right + 1, typ))
    else if exists k :: lo <= k <= hi && Is(stabs, k, typ) then
      && lo - 1 <= right < hi && Is(stabs, right + 1, typ) && NoneBetween(stabs, lo - 1, right + 1, typ)
      && left == (if right < lo then right else lo)
    else left == lo && right == lo - 1
  }

  /** What the search for addr in [lo, hi] knows when z is reached.  z.addr is addr, or addr + 4 after an exact
      match; found says that a stab at most addr was seen, and then left is the last one before l, or l itself. */
  ghost predicate Searching(stabs: seq<Stab>, lo: int, hi: int, typ: int, addr: int, z: Scan, found: bool) {
    && 0 <= lo <= z.l && lo - 1 <= z.r <= hi < |stabs| && z.l <= hi + 1 && z.right == z.r
    && (z.anyMatches <==> found || z.r < hi)
    && (z.addr == addr || (z.addr == addr + 4 && found && Is(stabs, z.left, typ) && stabs[z.left].value == addr))
    && (forall k :: lo <= k < z.l && Is(stabs, k, typ) ==> stabs[k].value <= addr)
    && (forall k :: z.r < k <= hi && Is(stabs, k, typ) ==> stabs[k].value > addr)
    && (z.r < hi ==> Is(stabs, z.r + 1, typ))
    && (if found then lo <= z.left <= z.l && z.left <= z.r && Low(stabs, z.left, typ, addr)
                      && NoneBetween(stabs, z.left, z.l, typ)
        else z.left == lo && NoneBetween(stabs, lo - 1, z.l, typ) && z.addr == addr)
  }

  /** The stab compared is above addr but not above what addr++ made of it: it is taken for a lower one. */
  predicate Close(stabs: seq<Stab>, typ: int, z: Scan, addr: int)
    requires Bounded(stabs, z) && z.l <= z.r
  {
    var m := Probe(stabs, typ, z);
    m >= z.l && addr < stabs[m].value <= z.addr
  }

  /** The stab compared is taken for one at or below addr. */
  predicate Below(stabs: seq<Stab>, typ: int, z: Scan)
    requires Bounded(stabs, z) && z.l <= z.r
  {
    var m := Probe(stabs, typ, z);
    m >= z.l && stabs[m].value <= z.addr
  }

  /** The search from z on meets such a stab. */
  predicate Misled(stabs: seq<Stab>, typ: int, z: Scan, addr: int)
    requires Bounded(stabs, z)
    decreases if z.l <= z.r then z.r - z.l + 1 else 0, Rank(stabs, typ, z)
  {
    z.l <= z.r && (Close(stabs, typ, z, addr) || Misled(stabs, typ, Round(stabs, typ, z), addr))
  }

  /** One round of the search keeps what it knows. */
  lemma Step(stabs: seq<Stab>, lo: int, hi: int, typ: int, addr: int, z: Scan, found: bool)
    requires Increasing(stabs, lo, hi, typ) && Searching(stabs, lo, hi, typ, addr, z, found) && z.l <= z.r
    requires Bounded(stabs, z) && !Close(stabs, typ, z, addr)
    ensures Searching(stabs, lo, hi, typ, addr, Round(stabs, typ, z), found || Below(stabs, typ, z))
  {
    hide LastOf;
  }

  /** Where the search stops, if it is not misled. */
  lemma {:induction false} Found(stabs: seq<Stab>, lo: int, hi: int, typ: int, addr: int, z: Scan, found: bool)
    returns (found': bool)
    requires Increasing(stabs, lo, hi, typ) && Searching(stabs, lo, hi, typ, addr, z, found)
    requires Bounded(stabs, z) && !Misled(stabs, typ, z, addr)
    ensures var z' := Search(stabs, typ, z); Searching(stabs, lo, hi, typ, addr, z', found') && z'.l > z'.r
    decreases if z.l <= z.r then z.r - z.l + 1 else 0, Rank(stabs, typ, z)
  {
    hide Searching, Increasing, Round, Close, Probe;
    if z.l > z.r {
      return found;
    }
    Step(stabs, lo, hi, typ, addr, z, found);
    found' := Found(stabs, lo, hi, typ, addr, Round(stabs, typ, z), found || Below(stabs, typ, z));
  }

  /** left is at p or after it, and the search does not come back before p. */
  ghost predicate Beyond(stabs: seq<Stab>, typ: int, z: Scan, p: int) {
    && z.anyMatches && z.right == z.r && 0 <= p <= z.left <= z.r < |stabs| && Is(stabs, z.left, typ)
    && (z.l > z.left || (z.l == z.left && stabs[z.l].value < z.addr))
  }

  lemma {:induction false} StaysBeyond(stabs: seq<Stab>, typ: int, z: Scan, p: int)
    requires Beyond(stabs, typ, z, p)
    ensures Beyond(stabs, typ, Search(stabs, typ, z), p) && Search(stabs, typ, z).r <= z.r
    decreases if z.l <= z.r then z.r - z.l + 1 else 0, Rank(stabs, typ, z)
  {
    if z.l <= z.r {
      BeyondRound(stabs, typ, z, p);
      hide Round;
      StaysBeyond(stabs, typ, Round(stabs, typ, z), p);
    }
  }

  lemma BeyondRound(stabs: seq<Stab>, typ: int, z: Scan, p: int)
    requires Beyond(stabs, typ, z, p) && z.l <= z.r
    ensures Beyond(stabs, typ, Round(stabs, typ, z), p) && Round(stabs, typ, z).r <= z.r
  {
  }

  /** Where a misled search ends. */
  ghost predicate Above(stabs: seq<Stab>, lo: int, hi: int, typ: int, addr: int, z: Scan) {
    && 0 <= lo <= z.left <= z.right <= hi < |stabs| && z.anyMatches && Is(stabs, z.left, typ)
    && stabs[z.left].value > addr
  }

  /** A misled search ends at a stab above addr, although there is one at addr. */
  lemma {:induction false} MisledFails(stabs: seq<Stab>, lo: int, hi: int, typ: int, addr: int, z: Scan, found: bool)
    requires Increasing(stabs, lo, hi, typ) && Searching(stabs, lo, hi, typ, addr, z, found)
    requires Bounded(stabs, z) && Misled(stabs, typ, z, addr)
    ensures exists k :: lo <= k <= hi && Low(stabs, k, typ, addr)
    ensures Above(stabs, lo, hi, typ, addr, Search(stabs, typ, z))
    decreases if z.l <= z.r then z.r - z.l + 1 else 0, Rank(stabs, typ, z)
  {
    hide Searching, Increasing, Above, Beyond, Round, Low, Close, Probe;
    if Close(stabs, typ, z, addr) {
      CloseFails(stabs, lo, hi, typ, addr, z, found);
    } else {
      Step(stabs, lo, hi, typ, addr, z, found);
      MisledFails(stabs, lo, hi, typ, addr, Round(stabs, typ, z), found || Below(stabs, typ, z));
    }
  }

  lemma CloseFails(stabs: seq<Stab>, lo: int, hi: int, typ: int, addr: int, z: Scan, found: bool)
    requires Increasing(stabs, lo, hi, typ) && Searching(stabs, lo, hi, typ, addr, z, found)
    requires Bounded(stabs, z) && z.l <= z.r && Close(stabs, typ, z, addr)
    ensures exists k :: lo <= k <= hi && Low(stabs, k, typ, addr)
    ensures Above(stabs, lo, hi, typ, addr, Search(stabs, typ, z))
  {
    var m := Probe(stabs, typ, z);
    assert Low(stabs, z.left, typ, addr);
    assert Beyond(stabs, typ, Round(stabs, typ, z), m);
    StaysBeyond(stabs, typ, Round(stabs, typ, z), m);
    StaysAbove(stabs, lo, hi, typ, addr, Search(stabs, typ, z), m);
  }

  lemma StaysAbove(stabs: seq<Stab>, lo: int, hi: int, typ: int, addr: int, z: Scan, m: int)
    requires Increasing(stabs, lo, hi, typ) && Beyond(stabs, typ, z, m) && Is(stabs, m, typ) && stabs[m].value > addr
    requires 0 <= lo <= m && z.r <= hi < |stabs|
    ensures Above(stabs, lo, hi, typ, addr, z)
  {
    assert m < z.left ==> stabs[m].value <= stabs[z.left].value;
  }

  /** stab_binsearch meets its description if and only if it is not misled. */
  lemma OutcomeIff(stabs: seq<Stab>, lo: int, hi: int, typ: int, addr: int)
    requires 0 <= lo <= hi + 1 && hi < |stabs| && Increasing(stabs, lo, hi, typ)
    ensures var (left, right) := Bracket(stabs, lo, hi, typ, addr);
            Outcome(stabs, lo, hi, typ, addr, left, right) <==> !Misled(stabs, typ, Start(lo, hi, addr), addr)
  {
    hide Search, Misled, Increasing, Outcome;
    var z := Start(lo, hi, addr);
    if Misled(stabs, typ, z, addr) {
      MisledFails(stabs, lo, hi, typ, addr, z, false);
      NotLow(stabs, lo, hi, typ, addr, Search(stabs, typ, z));
    } else {
      var found := Found(stabs, lo, hi, typ, addr, z, false);
      Stop(stabs, lo, hi, typ, addr, Search(stabs, typ, z), found);
    }
  }

  lemma NotLow(stabs: seq<Stab>, lo: int, hi: int, typ: int, addr: int, z: Scan)
    requires Increasing(stabs, lo, hi, typ) && Above(stabs, lo, hi, typ, addr, z)
    requires exists k :: lo <= k <= hi && Low(stabs, k, typ, addr)
    ensures !Outcome(stabs, lo, hi, typ, addr, Rightmost(stabs, z.left, z.right, typ), z.right)
  {
    var k := Rightmost(stabs, z.left, z.right, typ);
    assert k > z.left && Is(stabs, k, typ) ==> stabs[z.left].value <= stabs[k].value;
  }

  lemma Stop(stabs: seq<Stab>, lo: int, hi: int, typ: int, addr: int, z: Scan, found: bool)
    requires Searching(stabs, lo, hi, typ, addr, z, found) && z.l > z.r
    ensures if z.anyMatches then Outcome(stabs, lo, hi, typ, addr, Rightmost(stabs, z.left, z.right, typ), z.right)
            else Outcome(stabs, lo, hi, typ, addr, z.left, z.left - 1)
  {
    var k := Rightmost(stabs, z.left, z.right, typ);
    if found {
      assert Low(stabs, z.left, typ, addr);
      assert k == z.left;
    } else if z.right < hi {
      assert Is(stabs, z.right + 1, typ);
    }
  }

  // ---------- when it is not misled ----------

  /** If some stab of the type is at addr, none is up to a word above it. */
  ghost predicate Gap(stabs: seq<Stab>, lo: int, hi: int, typ: int, addr: int) {
    Met(stabs, lo, hi, typ, addr) ==>
      forall k :: lo <= k <= hi && Is(stabs, k, typ) ==> !(addr < stabs[k].value <= addr + 4)
  }

  ghost predicate Met(stabs: seq<Stab>, lo: int, hi: int, typ: int, addr: int) {
    exists k :: lo <= k <= hi && Is(stabs, k, typ) && stabs[k].value == addr
  }

  lemma {:induction false} GapSuffices(stabs: seq<Stab>, lo: int, hi: int, typ: int, z: Scan, addr: int)
    requires 0 <= lo <= z.l && z.r <= hi < |stabs| && Bounded(stabs, z) && Gap(stabs, lo, hi, typ, addr)
    requires z.addr == addr || (z.addr == addr + 4 && Met(stabs, lo, hi, typ, addr))
    ensures !Misled(stabs, typ, z, addr)
    decreases if z.l <= z.r then z.r - z.l + 1 else 0, Rank(stabs, typ, z)
  {
    if z.l <= z.r {
      GapSuffices(stabs, lo, hi, typ, Round(stabs, typ, z), addr);
    }
  }

  lemma GapOutcome(stabs: seq<Stab>, lo: int, hi: int, typ: int, addr: int)
    requires 0 <= lo <= hi + 1 && hi < |stabs| && Increasing(stabs, lo, hi, typ) && Gap(stabs, lo, hi, typ, addr)
    ensures var (left, right) := Bracket(stabs, lo, hi, typ, addr); Outcome(stabs, lo, hi, typ, addr, left, right)
  {
    hide Outcome, Bracket, Misled;
    GapSuffices(stabs, lo, hi, typ, Start(lo, hi, addr), addr);
    OutcomeIff(stabs, lo, hi, typ, addr);
  }

  // ---------- failing inputs ----------

  /** Stabs two bytes apart, searched at the first: the search ends at the second. */
  lemma CloseStabs()
    ensures var stabs := [Stab(1, 100), Stab(1, 102)];
            && Increasing(stabs, 0, 1, 1) && Bracket(stabs, 0, 1, 1, 100) == (1, 1)
            && !Outcome(stabs, 0, 1, 1, 100, 1, 1)
  {
    var stabs := [Stab(1, 100), Stab(1, 102)];
    var z0, z1 := Start(0, 1, 100), Scan(0, 1, 104, 0, 1, true);
    var z2, z3 := Scan(1, 1, 104, 0, 1, true), Scan(2, 1, 104, 1, 1, true);
    assert Round(stabs, 1, z0) == z1 && Round(stabs, 1, z1) == z2 && Round(stabs, 1, z2) == z3;
    hide Round, Probe, LastOf, Search;
    SearchRound(stabs, 1, z0);
    SearchRound(stabs, 1, z1);
    SearchRound(stabs, 1, z2);
    SearchEnd(stabs, 1, z3);
    assert Low(stabs, 0, 1, 100);
  }

  /** Four bytes apart they still mislead it, five bytes apart they no longer do. */
  lemma EdgeStabs()
    ensures Bracket([Stab(1, 100), Stab(1, 104)], 0, 1, 1, 100) == (1, 1)
    ensures Bracket([Stab(1, 100), Stab(1, 105)], 0, 1, 1, 100) == (0, 0)
  {
    FourApart([Stab(1, 100), Stab(1, 104)]);
    FiveApart([Stab(1, 100), Stab(1, 105)]);
  }

  lemma FourApart(stabs: seq<Stab>)
    requires stabs == [Stab(1, 100), Stab(1, 104)]
    ensures Bracket(stabs, 0, 1, 1, 100) == (1, 1)
  {
    var z0, z1 := Start(0, 1, 100), Scan(0, 1, 104, 0, 1, true);
    var z2, z3, z4 := Scan(1, 1, 104, 0, 1, true), Scan(1, 1, 108, 1, 1, true), Scan(2, 1, 108, 1, 1, true);
    assert Round(stabs, 1, z0) == z1 && Round(stabs, 1, z1) == z2 && Round(stabs, 1, z2) == z3;
    assert Round(stabs, 1, z3) == z4;
    hide Round, Probe, LastOf, Search;
    SearchRound(stabs, 1, z0);
    SearchRound(stabs, 1, z1);
    SearchRound(stabs, 1, z2);
    SearchRound(stabs, 1, z3);
    SearchEnd(stabs, 1, z4);
  }

  lemma FiveApart(stabs: seq<Stab>)
    requires stabs == [Stab(1, 100), Stab(1, 105)]
    ensures Bracket(stabs, 0, 1, 1, 100) == (0, 0)
  {
    var z0, z1 := Start(0, 1, 100), Scan(0, 1, 104, 0, 1, true);
    var z2, z3 := Scan(1, 1, 104, 0, 1, true), Scan(1, 0, 104, 0, 0, true);
    assert Round(stabs, 1, z0) == z1 && Round(stabs, 1, z1) == z2 && Round(stabs, 1, z2) == z3;
    hide Round, Probe, LastOf, Search;
    SearchRound(stabs, 1, z0);
    SearchRound(stabs, 1, z1);
    SearchRound(stabs, 1, z2);
    SearchEnd(stabs, 1, z3);
  }

  /** One stab at 100, searched at 50: no stab contains the address, and left is not above right. */
  lemma AllAbove()
    ensures Bracket([Stab(1, 100)], 0, 0, 1, 50) == (-1, -1)
  {
    assert Round([Stab(1, 100)], 1, Start(0, 0, 50)) == Scan(0, -1, 50, 0, -1, true);
  }
}

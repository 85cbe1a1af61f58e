/** What env_create needs room for: it depends on which pages are loaded, not on their contents, and a count of free
    frames and free disk frames gives it. */
module LoadRoom {
  import opened Seqs
  import opened Mmu
  import opened FrameTable
  import opened Machine
  import opened LifeCycle
  import opened ProgramLoading
  import Lru
  import WS = WorkingSet

  // ---------- the contents do not matter ----------

  predicate SameKind(a: Step, b: Step) {
    (a.InMemory? <==> b.InMemory?) && a.v == b.v && |a.b| == |b.b|
  }

  /** The same pages, with contents that may differ. */
  ghost predicate SameShape(a: seq<Step>, b: seq<Step>) {
    |a| == |b| && forall i :: 0 <= i < |a| ==> SameKind(a[i], b[i])
  }

  /** The same state, but for the contents of pages and disk frames. */
  predicate SameBut(s: State, t: State) {
    t == s.(data := t.data, disk := t.disk)
  }

  lemma ShapeFront(a: seq<Step>, b: seq<Step>)
    requires SameShape(a, b) && a != []
    ensures b != [] && SameShape(Lru.Front(a), Lru.Front(b)) && SameKind(Lru.Last(a), Lru.Last(b))
  {
    hide SameKind;
  }

  lemma ShapeConcat(a: seq<Step>, a': seq<Step>, b: seq<Step>, b': seq<Step>)
    requires SameShape(a, a') && SameShape(b, b')
    ensures SameShape(a + b, a' + b')
  {
    hide SameKind;
  }

  lemma {:induction false} ShapeImages(a: seq<Step>, b: seq<Step>)
    requires SameShape(a, b)
    ensures forall v :: v in Image(a) <==> v in Image(b)
    ensures forall v :: v in FileImage(a) <==> v in FileImage(b)
    ensures Frames(a) == Frames(b)
  {
    if a != [] {
      ShapeFront(a, b);
      hide SameShape;
      ShapeImages(Lru.Front(a), Lru.Front(b));
    }
  }

  lemma {:induction false} ShapeOk(a: seq<Step>, b: seq<Step>)
    requires SameShape(a, b) && ProgramOk(a)
    ensures ProgramOk(b)
  {
    if a != [] {
      ShapeFront(a, b);
      hide SameShape, Image, UserPage;
      ShapeOk(Lru.Front(a), Lru.Front(b));
      ShapeImages(Lru.Front(a), Lru.Front(b));
    }
  }

  lemma ShapeCovered(a: seq<Step>, b: seq<Step>)
    requires SameShape(a, b) && Covered(a)
    ensures Covered(b)
  {
    hide SameShape, Image, FileImage;
    ShapeImages(a, b);
  }

  lemma PageSameBut(s: State, t: State, e: nat, v: Vpn, b: Block, b': Block, cap: nat)
    requires SameBut(s, t)
    ensures SameBut(LoadPage(s, e, v, b, cap), LoadPage(t, e, v, b', cap))
  {
    hide SetPerms, Mapped, Alloc, WS.LoadInsert;
  }

  lemma PutSameBut(s: State, t: State, e: nat, v: Vpn, b: Block, b': Block)
    requires SameBut(s, t)
    ensures SameBut(PfPut(s, e, v, b), PfPut(t, e, v, b'))
  {
    hide EnsureTable, Use, Alloc, PfAdd;
    AddSameBut(s, t, e, v);
  }

  lemma AddSameBut(s: State, t: State, e: nat, v: Vpn)
    requires SameBut(s, t)
    ensures SameBut(PfAdd(s, e, v), PfAdd(t, e, v))
  {
    hide EnsureTable, Use, Alloc;
    assert SameBut(DiskDir(s, e), DiskDir(t, e));
    hide DiskDir;
    assert SameBut(SwapTable(DiskDir(s, e), e, v.d), SwapTable(DiskDir(t, e), e, v.d));
  }

  lemma {:induction false} AllSameBut(s: State, t: State, e: nat, a: seq<Step>, b: seq<Step>, cap: nat)
    requires SameBut(s, t) && SameShape(a, b)
    ensures SameBut(LoadAll(s, e, a, cap), LoadAll(t, e, b, cap))
  {
    hide SameBut, LoadPage, PfPut, SameShape;
    if a != [] {
      ShapeFront(a, b);
      AllSameBut(s, t, e, Lru.Front(a), Lru.Front(b), cap);
      var s1, t1, op, op' := LoadAll(s, e, Lru.Front(a), cap), LoadAll(t, e, Lru.Front(b), cap), Lru.Last(a),
          Lru.Last(b);
      PageSameBut(s1, t1, e, op.v, op.b, op'.b, cap);
      PutSameBut(s1, t1, e, op.v, op.b, op'.b);
    } else {
      assert b == [] by { EmptyShape(b); }
    }
  }

  lemma EmptyShape(b: seq<Step>)
    requires SameShape([], b)
    ensures b == []
  {
  }

  lemma RoomSameBut(s: State, t: State, e: nat, v: Vpn)
    requires SameBut(s, t)
    ensures RoomForFrame(s, e, v) <==> RoomForFrame(t, e, v)
    ensures RoomForFile(s, e, v) <==> RoomForFile(t, e, v)
  {
    hide Alloc, Use;
    assert SameBut(DiskDir(s, e), DiskDir(t, e));
  }

  lemma {:induction false} ShapeRoomToLoad(s: State, e: nat, a: seq<Step>, b: seq<Step>, cap: nat)
    requires SameShape(a, b) && RoomToLoad(s, e, a, cap)
    ensures RoomToLoad(s, e, b, cap)
  {
    hide SameBut, LoadAll, SameShape, RoomForFrame, RoomForFile;
    if a != [] {
      ShapeFront(a, b);
      ShapeRoomToLoad(s, e, Lru.Front(a), Lru.Front(b), cap);
      SameItself(s);
      AllSameBut(s, s, e, Lru.Front(a), Lru.Front(b), cap);
      RoomSameBut(LoadAll(s, e, Lru.Front(a), cap), LoadAll(s, e, Lru.Front(b), cap), e, Lru.Last(a).v);
    } else {
      assert b == [] by { EmptyShape(b); }
    }
  }

  lemma SameItself(s: State)
    ensures SameBut(s, s)
  {
  }

  lemma {:induction false} PermsSameBut(s: State, t: State, e: nat, pages: seq<Vpn>, c: Mask)
    requires SameBut(s, t)
    ensures SameBut(Perms(s, e, pages, c), Perms(t, e, pages, c))
  {
    hide SetPerms;
    if pages != [] {
      PermsSameBut(s, t, e, Lru.Front(pages), c);
    }
  }

  /** If there is room to create one program, there is room for every program with the same pages. */
  lemma ShapeRoom(s: State, e: nat, A: nat, S: nat, a: seq<Step>, b: seq<Step>)
    requires A >= 1 && SameShape(a, b) && RoomToCreate(s, e, A, S, a)
    ensures RoomToCreate(s, e, A, S, b)
  {
    hide SameBut, LoadAll, SameShape, RoomForFrame, RoomForFile, InitEnv, Perms, LoadPage, RoomToLoad, LoadedPages;
    var s1 := InitEnv(s, e, A, S);
    ShapeRoomToLoad(s1, e, a, b, A - 1);
    SameItself(s1);
    AllSameBut(s1, s1, e, a, b, A - 1);
    var s2, t2 := LoadAll(s1, e, a, A - 1), LoadAll(s1, e, b, A - 1);
    SameEnvs(s2, t2);
    if e in s2.envs {
      PermsSameBut(s2, t2, e, LoadedPages(s2.envs[e]), MODIFIED);
    }
    var s3, t3 := CleanAll(s2, e), CleanAll(t2, e);
    RoomSameBut(s3, t3, e, STACK_PAGE);
    PageSameBut(s3, t3, e, STACK_PAGE, ZeroBlock(), ZeroBlock(), A);
    RoomSameBut(LoadPage(s3, e, STACK_PAGE, ZeroBlock(), A), LoadPage(t3, e, STACK_PAGE, ZeroBlock(), A), e,
        STACK_PAGE);
  }

  lemma SameEnvs(s: State, t: State)
    requires SameBut(s, t)
    ensures s.envs == t.envs
  {
  }

  // ---------- enough free frames ----------

  /** From s to s' at most so many frames and disk frames have been taken, and e is there. */
  ghost predicate Takes(s: State, s': State, e: nat, frames: nat, dfns: nat) {
    && |s'.m.free| + frames >= |s.m.free| && |s'.dfree| + dfns >= |s.dfree| && (e in s.envs ==> e in s'.envs)
  }

  lemma PageTakes(s: State, e: nat, v: Vpn, b: Block, cap: nat)
    ensures Takes(s, LoadPage(s, e, v, b, cap), e, 2, 0)
  {
    hide SetRef, Ref, WS.LoadInsert;
  }

  lemma PutTakes(s: State, e: nat, v: Vpn, b: Block)
    ensures Takes(s, PfPut(s, e, v, b), e, 2, 1)
  {
    hide SetRef, EnsureTable, DiskDir, NewDfn;
    DirTakes(s, e);
    TableTakes(DiskDir(s, e), e, v.d);
    DfnTakes(SwapTable(DiskDir(s, e), e, v.d), e, v);
  }

  lemma DirTakes(s: State, e: nat)
    ensures Takes(s, DiskDir(s, e), e, 1, 0)
  {
    hide SetRef;
  }

  lemma TableTakes(s: State, e: nat, d: nat)
    ensures Takes(s, SwapTable(s, e, d), e, 1, 0)
  {
    hide SetRef;
  }

  lemma DfnTakes(s: State, e: nat, v: Vpn)
    ensures Takes(s, NewDfn(s, e, v), e, 0, 1)
  {
  }

  lemma {:induction false} AllTakes(s: State, e: nat, ops: seq<Step>, cap: nat)
    ensures Takes(s, LoadAll(s, e, ops, cap), e, 2 * |ops|, |ops|)
  {
    hide LoadPage, PfPut;
    if ops != [] {
      AllTakes(s, e, Lru.Front(ops), cap);
      var s1, op := LoadAll(s, e, Lru.Front(ops), cap), Lru.Last(ops);
      PageTakes(s1, e, op.v, op.b, cap);
      PutTakes(s1, e, op.v, op.b);
    }
  }

  lemma EnoughRoom(s: State, e: nat, v: Vpn)
    requires e in s.envs && |s.m.free| >= 2 && s.dfree != []
    ensures RoomForFrame(s, e, v) && RoomForFile(s, e, v)
  {
    hide SetRef;
  }

  lemma {:induction false} EnoughToLoad(s: State, e: nat, ops: seq<Step>, cap: nat)
    requires e in s.envs && |s.m.free| >= 2 * |ops| && |s.dfree| >= |ops|
    ensures RoomToLoad(s, e, ops, cap)
  {
    hide LoadAll, RoomForFrame, RoomForFile;
    if ops != [] {
      EnoughToLoad(s, e, Lru.Front(ops), cap);
      AllTakes(s, e, Lru.Front(ops), cap);
      EnoughRoom(LoadAll(s, e, Lru.Front(ops), cap), e, Lru.Last(ops).v);
    }
  }

  lemma {:induction false} PermsTakes(s: State, e: nat, pages: seq<Vpn>, c: Mask)
    ensures Takes(s, Perms(s, e, pages, c), e, 0, 0)
  {
    hide Update;
    if pages != [] {
      PermsTakes(s, e, Lru.Front(pages), c);
    }
  }

  /** A directory, a table and a frame for every page, a disk directory, and a disk frame for every page written: with
      that many free ones every program can be created. */
  lemma EnoughToCreate(s: State, e: nat, A: nat, S: nat, ops: seq<Step>)
    requires A >= 1 && |s.m.free| >= 2 * |ops| + 5 && |s.dfree| >= |ops| + 1
    ensures RoomToCreate(s, e, A, S, ops)
  {
    hide LoadAll, RoomForFrame, RoomForFile, Perms, LoadPage, RoomToLoad, LoadedPages;
    var s1 := InitEnv(s, e, A, S);
    InitTakes(s, e, A, S);
    EnoughToLoad(s1, e, ops, A - 1);
    AllTakes(s1, e, ops, A - 1);
    var s2 := LoadAll(s1, e, ops, A - 1);
    PermsTakes(s2, e, LoadedPages(s2.envs[e]), MODIFIED);
    var s3 := CleanAll(s2, e);
    EnoughRoom(s3, e, STACK_PAGE);
    PageTakes(s3, e, STACK_PAGE, ZeroBlock(), A);
    EnoughRoom(LoadPage(s3, e, STACK_PAGE, ZeroBlock(), A), e, STACK_PAGE);
  }

  lemma InitTakes(s: State, e: nat, A: nat, S: nat)
    ensures Takes(s, InitEnv(s, e, A, S), e, 1, 0) && e in InitEnv(s, e, A, S).envs
  {
    hide SetRef, WS.NewEnv;
  }

  /** Creating a program takes no more than that. */
  lemma CreateTakes(s: State, e: nat, A: nat, S: nat, segs: seq<Segment>, zeroPage: Block)
    requires A >= 1
    ensures var n := |Steps(segs, A + S - 1)|;
            Takes(s, Create(s, e, A, S, segs, zeroPage), e, 2 * n + 5, n + 1)
  {
    hide LoadAll, Perms, LoadPage, PfPut, LoadedPages, Steps, WS.PagesOf;
    var s1, ops := InitEnv(s, e, A, S), Steps(segs, A + S - 1);
    InitTakes(s, e, A, S);
    AllTakes(s1, e, ops, A - 1);
    var s2 := LoadAll(s1, e, ops, A - 1);
    PermsTakes(s2, e, LoadedPages(s2.envs[e]), MODIFIED);
    var s3 := CleanAll(s2, e);
    PageTakes(s3, e, STACK_PAGE, ZeroBlock(), s3.envs[e].A);
    var s4 := LoadPage(s3, e, STACK_PAGE, ZeroBlock(), s3.envs[e].A);
    PutTakes(s4, e, STACK_PAGE, zeroPage);
    var s5 := AddStack(s3, e, zeroPage);
    PermsTakes(s5, e, WS.PagesOf(s5.envs[e], s5.envs[e].second), PRESENT);
  }
}

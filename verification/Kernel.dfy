/** The kernel's demand paging as it runs: kern/file_manager.c, kern/trap.c and kern/user_environment.c
    over the physical memory of kern/memory_manager.c.  Every method is proved equal to a function of
    the machine, for which the properties are proved. */
module Kernels {
  import opened Mmu
  import opened FrameTable
  import opened Memory
  import opened Machine
  import opened Paging
  import opened FlatMemory
  import opened Freeing
  import opened LifeCycle
  import opened ProgramLoading
  import opened LoadRoom
  import opened Runs
  import opened KernelFacts
  import opened PageRanges
  import opened Programs
  import Lru
  import WS = WorkingSet

  /** What the page file functions return: 0, E_NO_PAGE_FILE_SPACE or E_PAGE_NOT_EXIST_IN_PF. */
  datatype Code = Done | NoPageFileSpace | NotInPageFile

  class Kernel {
    const mm: PhysicalMemory
    var disk: map<Word, Block>
    var dfree: seq<Word>
    var envs: map<nat, Env>

    /** n is number_of_frames, kernelLimit the physical address of ptr_free_mem, contents what memory holds at boot,
        file what the PAGES_PER_FILE disk frames hold (133120 of them, in kern/file_manager.h). */
    constructor (n: nat, kernelLimit: nat, contents: seq<Block>, file: seq<Block>, kernelDir: Block)
      requires 0x10_0000 <= kernelLimit <= n * 4096 && |kernelDir| == NPTENTRIES
      requires n == |contents| && forall f :: 0 <= f < n ==> |contents[f]| == NPTENTRIES
      requires |file| >= 1 && forall d :: 0 <= d < |file| ==> |file[d]| == NPTENTRIES
      ensures mm.Valid() && fresh(mm) && mm.kernelDir == kernelDir
      ensures PagesFor(kernelLimit) <= n && IO_HOLE_END <= PagesFor(kernelLimit)
      ensures Inv(State()) && State() == BootState(n, PagesFor(kernelLimit), file)
      ensures forall f: Frame :: f in mm.free <==>
                3 <= f < n && !Overlaps(f, 0xA_0000, 0x10_0000) && !Overlaps(f, 0x10_0000, kernelLimit)
      ensures forall i, j :: 0 <= i < j < |mm.free| ==> mm.free[i] > mm.free[j]
      ensures forall d: nat :: 1 <= d < |file| ==> Decode(d) in disk && disk[Decode(d)] == file[d]
      ensures |dfree| == |file| - 1 && forall i :: 0 <= i < |dfree| ==> dfree[i] == Decode(|file| - 1 - i)
    {
      hide MemOk, WordsOk, Inv, DiskContents, BootMem, DiskList, BootState, DataOf, Overlaps, PagesFor, Decode;
      mm := new PhysicalMemory(n, kernelLimit, contents, kernelDir);
      disk, dfree, envs := DiskContents(file, |file|), [], map[];
      new;
      InitializeDiskPageFile(|file|);
      BootOwners(n, PagesFor(kernelLimit));
      NoPagesYet(mm.mem, mm.own);
      BootStateInv(n, PagesFor(kernelLimit), file);
      DiskListAt(|file|);
      DiskHolds(file, |file|);
    }

    method InitializeDiskPageFile(n: nat)
      requires dfree == [] && n >= 1
      modifies this`dfree
      ensures dfree == DiskList(n)
    {
      for i := 1 to n
        invariant dfree == DiskList(i)
      {
        dfree := [Decode(i)] + dfree;
      }
    }

    ghost function State(): State
      reads this, mm
    {
      Machine.State(mm.M(), DataOf(mm.mem, mm.own), disk, dfree, envs)
    }

    /** e is an environment with its directories; the disk directory may not exist yet. */
    ghost predicate HasDirs(e: nat)
      reads this, mm
    {
      e in envs && DirsLoading(mm.M(), e, envs[e])
    }

    // ---------- kern/file_manager.c ----------

    method AllocateDiskFrame() returns (r: Code, dfn: Word)
      modifies this`dfree
      ensures old(dfree) == [] ==> r == NoPageFileSpace && dfree == []
      ensures old(dfree) != [] ==> r == Done && dfn == old(dfree)[0] && dfree == old(dfree)[1..]
    {
      if dfree == [] {
        return NoPageFileSpace, ZERO;
      }
      r, dfn := Done, dfree[0];
      dfree := dfree[1..];
    }

    method FreeDiskFrame(dfn: Word)
      modifies this`dfree
      ensures dfree == if dfn == ZERO then old(dfree) else [dfn] + old(dfree)
    {
      if dfn == ZERO {
        return;
      }
      dfree := [dfn] + dfree;
    }

    method GetDiskPageDirectory(e: nat)
      requires mm.Valid() && HasDirs(e) && (envs[e].ddir != 0 || mm.free != [])
      modifies this`envs, mm
      ensures mm.Valid() && State() == DiskDir(old(State()), e)
      ensures HasDirs(e) && mm.IsDir(envs[e].ddir, Swap(e)) && envs[e].ddir != 0
      ensures e in old(envs) && envs == old(envs)[e := old(envs)[e].(ddir := envs[e].ddir)]
      ensures dfree == old(dfree) && (old(envs)[e].ddir != 0 ==> unchanged(mm))
    {
      if envs[e].ddir == 0 {
        ghost var s := State();
        FirstFreeUnused(mm.M(), Swap(e));
        var f := mm.NewDirectory(ZeroBlock(), false, Swap(e));
        envs := envs[e := envs[e].(ddir := f)];
        DataKept(old(mm.mem), old(mm.own), mm.mem, mm.own);
        assert State() == DiskDir(s, e);
      }
    }

    /** get_disk_page_table with create = 0. */
    method FindDiskPageTable(x: Frame, v: Vpn, ghost e: nat) returns (tbl: Frame)
      requires mm.Valid() && HasDirs(e) && envs[e].ddir == x != 0 && v.d < USER_PDX
      ensures tbl == 0 <==> Table(Swap(e), v.d) !in mm.own
      ensures tbl != 0 ==> mm.own[Table(Swap(e), v.d)] == tbl
    {
      var pde := mm.mem[x][v.d];
      tbl := if pde == ZERO then 0 else pde.frame;
      EntryFrame(mm.M(), Swap(e), v.d);
    }

    /** get_disk_page_table with create = 1. */
    method GetDiskPageTable(x: Frame, v: Vpn, ghost e: nat) returns (tbl: Frame)
      requires mm.Valid() && HasDirs(e) && envs[e].ddir == x != 0 && v.d < USER_PDX
      requires CanHaveTable(mm.M(), Swap(e), v.d)
      modifies mm
      ensures mm.Valid() && HasDirs(e) && State() == SwapTable(old(State()), e, v.d)
      ensures Table(Swap(e), v.d) in mm.own && mm.own[Table(Swap(e), v.d)] == tbl
    {
      tbl := FindDiskPageTable(x, v, e);
      if tbl == 0 {
        ghost var s := State();
        EnsureTableOk(mm.M(), Swap(e), v.d);
        tbl := mm.CreateTable(x, v.d, false, Swap(e));
        TablesWritten(old(mm.mem), old(mm.own), mm.mem, mm.own, Dir(Swap(e)), Table(Swap(e), v.d));
      }
    }

    /** The disk frame of a page, 0 (for E_PAGE_NOT_EXIST_IN_PF) if it has none. */
    method DiskFrameOf(e: nat, v: Vpn) returns (dfn: Word)
      requires mm.Valid() && HasDirs(e) && UserPage(v)
      ensures dfn == Entry(mm.M(), Swap(e), v)
      ensures dfn == ZERO <==> (Swap(e), v) !in mm.leaf
    {
      LeafTable(mm.M());
      LeafNonzero(mm.M());
      dfn := ZERO;
      if envs[e].ddir != 0 {
        var tbl := FindDiskPageTable(envs[e].ddir, v, e);
        if tbl != 0 {
          dfn := mm.GetDiskEntry(tbl, v, e);
        }
      }
    }

    /** pf_add_empty_env_page(e, va, 0). */
    method PfAddEmptyEnvPage(e: nat, v: Vpn) returns (r: Code)
      requires mm.Valid() && HasDirs(e) && UserPage(v) && (envs[e].ddir != 0 || mm.free != [])
      requires CanHaveTable(DiskDir(State(), e).m, Swap(e), v.d) && ZERO !in dfree
      modifies this`envs, this`dfree, mm
      ensures mm.Valid() && State() == PfAdd(old(State()), e, v)
      ensures r == if (Swap(e), v) in mm.leaf then Done else NoPageFileSpace
      ensures HasDirs(e) && envs[e].ddir != 0
    {
      hide DiskDir, SwapTable, NewDfn, CanHaveTable, DataOf, DirsLoading, PhysicalMemory.Valid;
      GetDiskPageDirectory(e);
      ghost var s1 := State();
      var tbl := GetDiskPageTable(envs[e].ddir, v, e);
      assert State() == SwapTable(s1, e, v.d);
      r := PfEntry(e, v, tbl);
    }

    /** The rest of pf_add_empty_env_page and pf_add_env_page: the page gets a disk frame unless it has one. */
    method PfEntry(e: nat, v: Vpn, tbl: Frame) returns (r: Code)
      requires mm.Valid() && HasDirs(e) && v.t < NPTENTRIES && Table(Swap(e), v.d) in mm.own
      requires mm.own[Table(Swap(e), v.d)] == tbl
      requires ZERO !in dfree
      modifies this`dfree, mm
      ensures mm.Valid() && State() == NewDfn(old(State()), e, v) && mm.own == old(mm.own)
      ensures r == if (Swap(e), v) in mm.leaf then Done else NoPageFileSpace
      ensures HasDirs(e)
    {
      hide MemOk, WordsOk, DataOf;
      ghost var s := State();
      var dfn := mm.GetDiskEntry(tbl, v, e);
      LeafNonzero(mm.M());
      r := Done;
      if dfn == ZERO {
        r, dfn := AllocateDiskFrame();
        if r == NoPageFileSpace {
          return;
        }
        assert dfn in s.dfree;
        mm.SetDiskEntry(tbl, v, dfn, e);
        OneTable(mm.M());
        TablesWritten(old(mm.mem), old(mm.own), mm.mem, mm.own, Table(Swap(e), v.d), Table(Swap(e), v.d));
      }
    }

    method PfAddEnvPage(e: nat, v: Vpn, b: Block) returns (r: Code)
      requires mm.Valid() && HasDirs(e) && UserPage(v) && (envs[e].ddir != 0 || mm.free != [])
      requires CanHaveTable(DiskDir(State(), e).m, Swap(e), v.d) && ZERO !in dfree
      modifies this, mm
      ensures mm.Valid() && State() == PfPut(old(State()), e, v, b)
      ensures r == if (Swap(e), v) in mm.leaf then Done else NoPageFileSpace
      ensures HasDirs(e) && envs[e].ddir != 0
    {
      hide PfAdd, DiskDir, CanHaveTable, DataOf, DirsLoading, MemOk, WordsOk;
      r := PfAddEmptyEnvPage(e, v);
      if r == Done {
        var dfn := DiskFrameOf(e, v);
        disk := disk[dfn := b];
      }
    }

    /** Writes frame f, which holds page v, to the page file. */
    method PfUpdateEnvPage(e: nat, v: Vpn, f: Frame) returns (r: Code)
      requires mm.Valid() && HasDirs(e) && UserPage(v) && (envs[e].ddir != 0 || mm.free != [])
      requires f < |mm.mem| && Page(e, v) in mm.own && mm.own[Page(e, v)] == f
      modifies this, mm
      ensures mm.Valid() && e in old(envs)
      ensures State() == PfWrite(DiskDir(CountOut(old(State()), e), e), e, v, old(mm.mem)[f])
      ensures r == if (Swap(e), v) in mm.leaf then Done else NotInPageFile
      ensures HasDirs(e) && (old(envs)[e].ddir != 0 ==> unchanged(mm))
    {
      hide CanHaveTable, DataOf, MemOk, WordsOk;
      DataAt(mm.mem, mm.own, e, v);
      envs := envs[e := envs[e].(nOut := envs[e].nOut + 1)];
      ghost var s := State();
      GetDiskPageDirectory(e);
      DirectoryKeeps(s, e, v);
      var dfn := DiskFrameOf(e, v);
      if dfn == ZERO {
        return NotInPageFile;
      }
      r := Done;
      DataAt(mm.mem, mm.own, e, v);
      disk := disk[dfn := mm.mem[f]];
    }

    /** pt_set_page_permissions. */
    method SetPagePermissions(e: nat, v: Vpn, s: Mask, c: Mask)
      requires mm.Valid() && HasDirs(e) && UserPage(v) && Table(Ram(e), v.d) in mm.own
      requires s == NONE || (Ram(e), v) in mm.leaf
      modifies mm
      ensures mm.Valid() && State() == WithPerms(old(State()), e, v, s, c)
      ensures HasDirs(e) && mm.own == old(mm.own) && forall k: (Space, Vpn) :: k in mm.leaf <==> k in old(mm.leaf)
    {
      hide MemOk, WordsOk, DataOf;
      mm.SetPermissions(envs[e].dir, v, s, c, e);
      OneTable(mm.M());
      TablesWritten(old(mm.mem), old(mm.own), mm.mem, mm.own, Table(Ram(e), v.d), Table(Ram(e), v.d));
    }

    /** allocate_frame and map_frame for a page that has a table but no frame. */
    method AllocateAndMap(e: nat, v: Vpn) returns (ghost junk: Block)
      requires mm.Valid() && HasDirs(e) && UserPage(v) && Table(Ram(e), v.d) in mm.own && (Ram(e), v) !in mm.leaf
      requires mm.free != [] && mm.limbo == {}
      modifies mm
      ensures mm.Valid() && |junk| == NPTENTRIES && State() == MapNew(old(State()), e, v, junk)
      ensures HasDirs(e) && (Ram(e), v) in mm.leaf && Table(Ram(e), v.d) in mm.own
    {
      hide MemOk, WordsOk, DataOf, Mapped, Alloc, PhysicalMemory.Sound;
      MapNewMem(mm.M(), e, v);
      AllocFacts(mm.M(), e, v);
      junk := mm.mem[mm.free[0]];
      BlockSizes(mm.mem, mm.own, mm.leaf);
      var f := mm.AllocateFrame();
      mm.MapFrame(envs[e].dir, f, v, e);
      OneTable(mm.M());
      PageMapped(old(mm.mem), old(mm.own), mm.mem, mm.own, e, v, f, Dir(Ram(e)), Table(Ram(e), v.d));
      assert DataOf(mm.mem, mm.own) == DataOf(old(mm.mem), old(mm.own))[(e, v) := junk];
    }

    /** pf_read_env_page, for a page that is mapped. */
    method PfReadEnvPage(e: nat, v: Vpn) returns (r: Code)
      requires mm.Valid() && HasDirs(e) && UserPage(v) && (Ram(e), v) in mm.leaf && Injective(mm.own)
      requires forall k :: k in mm.leaf && k.0.Swap? ==> mm.leaf[k] in disk && |disk[mm.leaf[k]]| == NPTENTRIES
      modifies this`envs, mm
      ensures mm.Valid() && State() == ReadPage(CountIn(old(State()), e), e, v)
      ensures r == if (Swap(e), v) in mm.leaf then Done else NotInPageFile
      ensures HasDirs(e) && forall k :: k in mm.leaf <==> k in old(mm.leaf)
    {
      hide MemOk, WordsOk, DataOf, Injective, SetPerms, DirsLoading;
      ghost var env := envs[e];
      envs := envs[e := envs[e].(nIn := envs[e].nIn + 1)];
      SameDirs(mm.M(), e, env, envs[e]);
      LeafTable(mm.M());
      var dfn := DiskFrameOf(e, v);
      if dfn == ZERO {
        return NotInPageFile;
      }
      ReadDiskPage(e, v, dfn);
      SetPagePermissions(e, v, NONE, MODIFIED);
      r := Done;
    }

    /** read_disk_page into the page's frame. */
    method ReadDiskPage(e: nat, v: Vpn, dfn: Word)
      requires mm.Valid() && HasDirs(e) && UserPage(v) && (Ram(e), v) in mm.leaf && Injective(mm.own)
      requires dfn in disk && |disk[dfn]| == NPTENTRIES
      modifies mm`mem
      ensures mm.Valid() && HasDirs(e)
      ensures State() == old(State()).(data := old(State()).data[(e, v) := disk[dfn]])
    {
      hide MemOk, WordsOk, DataOf;
      var w := mm.GetEntry(envs[e].dir, v, e);
      PageFrame(mm.M(), mm.mem, e, v);
      mm.WriteFrame(w.frame, disk[dfn]);
      PageWritten(old(mm.mem), mm.own, mm.mem, e, v, disk[dfn]);
    }

    // ---------- kern/trap.c ----------

    /** The first lines of Placement: the last free element gets the page and leaves PageWorkingSetList. */
    method TakeElement(e: nat, v: Vpn) returns (x: nat)
      requires e in envs && envs[e].work != [] && Lru.Last(envs[e].work) < |envs[e].va|
      modifies this`envs
      ensures e in old(envs) && x == Lru.Last(old(envs)[e].work)
      ensures envs == old(envs)[e := WS.TakeFree(old(envs)[e], v)]
    {
      x := Lru.Last(envs[e].work);
      envs := envs[e := envs[e].(va := envs[e].va[x := v])];
      envs := envs[e := envs[e].(work := Lru.Front(envs[e].work))];
    }

    /** The page's contents: read from the page file, or a new stack page of the page file. */
    method ReadOrAdd(e: nat, v: Vpn)
      requires mm.Valid() && HasDirs(e) && UserPage(v) && (Ram(e), v) in mm.leaf && Injective(mm.own)
      requires envs[e].ddir != 0
      requires forall k :: k in mm.leaf && k.0.Swap? ==> mm.leaf[k] in disk && |disk[mm.leaf[k]]| == NPTENTRIES
      requires ZERO !in dfree
      requires (Swap(e), v) in mm.leaf || (StackPage(v) && CanHaveTable(mm.M(), Swap(e), v.d) && dfree != [])
      modifies this`envs, this`dfree, mm
      ensures mm.Valid() && HasDirs(e) && State() == FillPage(CountIn(old(State()), e), e, v)
    {
      hide MemOk, WordsOk, DataOf, PhysicalMemory.Valid, SetPerms, CanHaveTable, PfAdd;
      ghost var s := State();
      SameRoom(s, e, v);
      var r := PfReadEnvPage(e, v);
      assert State() == ReadPage(CountIn(s, e), e, v);
      if r == NotInPageFile {
        r := PfAddEmptyEnvPage(e, v);
      }
    }

    /** The last part of Placement: the element goes to the head of ActiveList, whose last one makes room. */
    method InsertElement(e: nat, v: Vpn, x: nat)
      requires mm.Valid() && HasDirs(e) && UserPage(v) && (Ram(e), v) in mm.leaf
      requires forall u :: u in WS.ListsOf(envs[e]).active ==> UserPage(u) && (Ram(e), u) in mm.leaf
      requires envs[e].A >= 1 && x < |envs[e].va| && envs[e].va[x] == v
      modifies this`envs, mm
      ensures mm.Valid() && HasDirs(e) && e in old(envs)
      ensures State() == SetEnv(DemoteFor(old(State()), e, old(envs)[e], v), e, WS.Insert(old(envs)[e], x))
    {
      hide MemOk, WordsOk, DataOf, SetPerms, UserPage, DirsLoading, WS.Insert, WS.ListsOf;
      ghost var s, env := State(), envs[e];
      var full, tmp := ListElement(e, x);
      assert HasDirs(e) by { SameDirs(mm.M(), e, env, envs[e]); }
      if full {
        LastListed(env);
        LeafTable(mm.M());
        SetPagePermissions(e, WS.PageAt(envs[e], tmp), NONE, PUW);
        SetPagePermissions(e, WS.PageAt(envs[e], x), PUW, NONE);
      }
    }

    /** The list updates: the element goes to the head of ActiveList, whose last one moves to SecondList if it is
        full. */
    method ListElement(e: nat, x: nat) returns (full: bool, tmp: nat)
      requires e in envs && envs[e].A >= 1
      modifies this`envs
      ensures e in old(envs) && envs == old(envs)[e := WS.Insert(old(envs)[e], x)]
      ensures envs[e].va == old(envs)[e].va && envs[e].dir == old(envs)[e].dir && envs[e].ddir == old(envs)[e].ddir
      ensures full <==> |old(envs)[e].active| >= old(envs)[e].A
      ensures full ==> old(envs)[e].active != [] && tmp == Lru.Last(old(envs)[e].active)
    {
      full, tmp := |envs[e].active| >= envs[e].A, 0;
      if full {
        tmp := Lru.Last(envs[e].active);
        envs := envs[e := envs[e].(active := Lru.Front(envs[e].active))];
      }
      envs := envs[e := envs[e].(active := [x] + envs[e].active)];
      if full {
        envs := envs[e := envs[e].(second := [tmp] + envs[e].second)];
      }
    }

    method Placement(e: nat, v: Vpn) returns (ghost junk: Block)
      requires mm.Valid() && Inv(State()) && e in envs && envs[e].work != [] && v !in WS.Pages(envs[e])
      requires Legal(State(), e, v) && Table(Ram(e), v.d) in mm.own && RoomToPlace(State(), e, v)
      modifies this`envs, this`dfree, mm
      ensures mm.Valid() && |junk| == NPTENTRIES && State() == PlacePage(old(State()), e, v, junk)
      ensures Inv(State())
    {
      hide Inv, MapNew, FillPage, DemoteFor, WS.TakeFree, WS.Insert, PlacePage, WS.ListsOf, PhysicalMemory.Valid,
           DataOf, DirsLoading, RoomToPlace;
      ghost var s, env := State(), envs[e];
      PlacementStart(s, e, v);
      var x := TakeElement(e, v);
      assert HasDirs(e);
      junk := AllocateAndMap(e, v);
      PlacementMapped(s, e, v, junk);
      ReadOrAdd(e, v);
      PlacementFilled(s, e, v, junk);
      InsertElement(e, v, x);
      PlaceInv(s, e, v, junk);
    }

    method UnmapPage(e: nat, v: Vpn)
      requires mm.Valid() && HasDirs(e) && UserPage(v)
      modifies mm
      ensures mm.Valid() && HasDirs(e)
      ensures State() == old(State()).(m := Unmapped(old(State()).m, e, v), data := old(State()).data - {(e, v)})
      ensures (Ram(e), v) !in mm.leaf
      ensures forall o :: o in old(mm.own) && !o.Page? ==> o in mm.own
    {
      hide MemOk, WordsOk, DataOf;
      UnmapOk(mm.M(), e, v);
      UnmappedOwn(mm.M(), e, v);
      OneTable(mm.M());
      mm.UnmapFrame(envs[e].dir, v, e);
      PageUnmapped(old(mm.mem), old(mm.own), mm.mem, mm.own, e, v);
    }

    /** A page is written back if its MODIFIED bit is set. */
    method WriteBackPage(e: nat, v: Vpn)
      requires mm.Valid() && HasDirs(e) && UserPage(v) && envs[e].ddir != 0
      requires (Ram(e), v) in mm.leaf && (Swap(e), v) in mm.leaf
      modifies this, mm
      ensures mm.Valid() && HasDirs(e) && e in old(envs) && unchanged(mm)
      ensures State() == SetEnv(WriteBack(old(State()), e, v), e, old(envs)[e].(nOut := envs[e].nOut))
      ensures envs[e].nOut == old(envs)[e].nOut + if Entry(mm.M(), Ram(e), v).modified then 1 else 0
    {
      hide DataOf, MemOk, WordsOk;
      ghost var s := State();
      LeafTable(mm.M());
      BlockSizes(mm.mem, mm.own, mm.leaf);
      DataAt(mm.mem, mm.own, e, v);
      WriteBackOnce(s, e, v);
      SameRoom(CountOut(s, e), e, v);
      var w := mm.GetEntry(envs[e].dir, v, e);
      if w.modified {
        var f, tbl := mm.GetFrameInfo(envs[e].dir, v, e);
        var r := PfUpdateEnvPage(e, v, f);
      }
    }

    /** The victim's element becomes a free one. */
    method UnlinkVictim(e: nat) returns (victim: nat)
      requires e in envs && WS.HasVictim(envs[e])
      modifies this`envs
      ensures e in old(envs) && WS.HasVictim(old(envs)[e]) && victim == WS.Victim(old(envs)[e])
      ensures envs == old(envs)[e := WS.Evict(old(envs)[e])]
    {
      if envs[e].S > 0 {
        victim := Lru.Last(envs[e].second);
        envs := envs[e := envs[e].(second := Lru.Front(envs[e].second))];
      } else {
        victim := Lru.Last(envs[e].active);
        envs := envs[e := envs[e].(active := Lru.Front(envs[e].active))];
      }
      envs := envs[e := envs[e].(work := [victim] + envs[e].work)];
    }

    /** The victim is written back if its MODIFIED bit is set, and released. */
    method ReleaseVictim(e: nat)
      requires mm.Valid() && Inv(State()) && e in envs && envs[e].work == [] && WS.HasVictim(envs[e])
      modifies this, mm
      ensures mm.Valid() && State() == EvictPage(old(State()), e) && Inv(State())
    {
      hide Inv, WS.ListsOf, PhysicalMemory.Valid, DataOf, DirsLoading, DirsOk, Unmapped, EvictPage, WS.PageAt, Linked,
           MemOk, WordsOk, SetPerms, WS.EnvOk, UserPage, WS.Evict, WriteBack;
      ghost var s, env := State(), envs[e];
      VictimFacts(s, e);
      var victim := if envs[e].S > 0 then Lru.Last(envs[e].second) else Lru.Last(envs[e].active);
      var v := WS.PageAt(envs[e], victim);
      WriteBackPage(e, v);
      ghost var env1 := envs[e];
      VictimSame(env, env1.nOut);
      victim := UnlinkVictim(e);
      assert HasDirs(e) by { EvictDirs(mm.M(), e, env1); }
      assert State() == SetEnv(WriteBack(s, e, v), e, WS.Evict(env1));
      UnmapPage(e, v);
      if envs[e].S > 0 {
        SetNothing(mm.M(), e, v);
        SetPagePermissions(e, v, NONE, Mask(true, true, true, true));
      }
      EvictAssembled(s, e, env1);
      EvictInv(s, e);
    }

    /** The element at index i of SecondList and the last one of ActiveList change places. */
    method SwapElements(e: nat, i: nat) returns (aim: nat, tmp: nat)
      requires e in envs && i < |envs[e].second| && envs[e].active != []
      modifies this`envs
      ensures e in old(envs) && i < |old(envs)[e].second| && old(envs)[e].active != []
      ensures envs == old(envs)[e := WS.Promote(old(envs)[e], i)]
      ensures aim == old(envs)[e].second[i] && tmp == Lru.Last(old(envs)[e].active)
    {
      aim := envs[e].second[i];
      envs := envs[e := envs[e].(second := envs[e].second[..i] + envs[e].second[i + 1..])];
      tmp := Lru.Last(envs[e].active);
      envs := envs[e := envs[e].(active := Lru.Front(envs[e].active))];
      envs := envs[e := envs[e].(active := [aim] + envs[e].active)];
      envs := envs[e := envs[e].(second := [tmp] + envs[e].second)];
    }

    /** The branch of page_fault_handler for a page found in SecondList. */
    method PromoteElement(e: nat, i: nat)
      requires mm.Valid() && Inv(State()) && e in envs && i < |envs[e].second|
      modifies this`envs, mm
      ensures mm.Valid() && e in old(envs) && i < |old(envs)[e].second| && old(envs)[e].active != []
      ensures State() == PromotePage(old(State()), e, WS.PageAt(old(envs)[e], old(envs)[e].second[i]), i)
      ensures Inv(State())
    {
      hide Inv, WS.ListsOf, PhysicalMemory.Valid, DataOf, DirsLoading, DirsOk, SetPerms, UserPage, Linked, MemOk,
           WordsOk, WS.EnvOk, WS.Promote;
      ghost var s, env := State(), envs[e];
      PromoteFacts(s, e, i);
      LeafTable(mm.M()) by { NoLimbo(s); }
      PromoteSame(mm.M(), e, env, i);
      var aim, tmp := SwapElements(e, i);
      SetPagePermissions(e, WS.PageAt(envs[e], aim), PUW, NONE);
      SetPagePermissions(e, WS.PageAt(envs[e], tmp), NONE, PUW);
      PromoteInv(s, e, WS.PageAt(env, env.second[i]), i);
    }

    method PageFaultHandler(e: nat, v: Vpn) returns (ghost junk: Block)
      requires mm.Valid() && Inv(State()) && e in envs && v !in WS.ListsOf(envs[e]).active
      requires Legal(State(), e, v) && Table(Ram(e), v.d) in mm.own && RoomToFault(State(), e, v)
      modifies this, mm
      ensures mm.Valid() && |junk| == NPTENTRIES && State() == PageFault(old(State()), e, v, junk) && Inv(State())
    {
      hide Inv, PhysicalMemory.Valid, DataOf, DirsLoading, DirsOk, SetPerms, Linked, MemOk, WordsOk, WS.EnvOk,
           EvictPage, PlacePage, PromotePage, WS.ListsOf, WS.PageAt, RoomToFault, RoomToPlace, Legal;
      ghost var s, env := State(), envs[e];
      junk := ZeroBlock();
      var i := 0;
      while i < |envs[e].second|
        invariant State() == s && mm.Valid() && i <= |env.second|
        invariant forall j :: 0 <= j < i ==> WS.PageAt(env, env.second[j]) != v
      {
        if WS.PageAt(envs[e], envs[e].second[i]) == v {
          FindAt(env, v, i);
          PromoteElement(e, i);
          return;
        }
        i := i + 1;
      }
      FindAt(env, v, i);
      if envs[e].work != [] {
        FreeFacts(s, e, v);
        junk := Placement(e, v);
      } else {
        FullFacts(s, e, v);
        ReleaseVictim(e);
        EvictedFacts(s, e, v);
        junk := Placement(e, v);
      }
    }

    method TableFaultHandler(e: nat, v: Vpn)
      requires mm.Valid() && Inv(State()) && e in envs && v.d < USER_PDX && Table(Ram(e), v.d) !in mm.own
      requires mm.free != []
      modifies mm
      ensures mm.Valid() && State() == TableFault(old(State()), e, v.d) && Inv(State())
    {
      hide Inv, DataOf, MemOk, WordsOk, EnsureTable, DirsLoading;
      ghost var s := State();
      DirsOf(s, e);
      BaseOf(s);
      NoLimbo(s);
      EnsureTableOk(mm.M(), Ram(e), v.d);
      var tbl := mm.CreateTable(envs[e].dir, v.d, true, Ram(e));
      OneTable(mm.M());
      TableOwn(s.m, Ram(e), v.d);
      TablesWritten(old(mm.mem), old(mm.own), mm.mem, mm.own, Dir(Ram(e)), Table(Ram(e), v.d));
      TableFaultInv(s, e, v.d);
    }

    /** fault_handler for a user access to a page that is not PRESENT. */
    method FaultHandler(e: nat, v: Vpn) returns (ghost junk: Block)
      requires mm.Valid() && Inv(State()) && e in envs && !Entry(mm.M(), Ram(e), v).present
      requires Legal(State(), e, v) && RoomToTouch(State(), e, v)
      modifies this, mm
      ensures mm.Valid() && Inv(State()) && |junk| == NPTENTRIES
      ensures State() == if Table(Ram(e), v.d) in old(mm.own) then PageFault(old(State()), e, v, junk)
                         else TableFault(old(State()), e, v.d)
    {
      hide Inv, DataOf, MemOk, WordsOk, EnsureTable, RoomToFault, WS.ListsOf, PageFault, Legal;
      ghost var s := State();
      DirsOf(s, e);
      TablePresent(mm.mem, mm.own, mm.leaf, e, v.d) by { LegalUser(s, e, v); }
      PresentIsActive(s, e, v);
      LegalUser(s, e, v);
      if !mm.mem[envs[e].dir][v.d].present {
        junk := ZeroBlock();
        RoomForTable(s, e, v);
        TableFaultHandler(e, v);
      } else {
        RoomNow(s, e, v);
        junk := PageFaultHandler(e, v);
      }
    }

    /** The processor translates an address, and faults until the page is PRESENT: at most twice. */
    method Translate(e: nat, v: Vpn) returns (f: Frame, ghost junk: Block)
      requires mm.Valid() && Inv(State()) && e in envs && Legal(State(), e, v) && RoomToTouch(State(), e, v)
      modifies this, mm
      ensures mm.Valid() && Inv(State()) && |junk| == NPTENTRIES && State() == Touch(old(State()), e, v, junk)
      ensures e in envs && Page(e, v) in mm.own && mm.own[Page(e, v)] == f && HasDirs(e)
      ensures Reaches(mm.mem, envs[e].dir, v, f)
    {
      hide Reaches, Inv, DataOf, MemOk, WordsOk, PageFault, WS.ListsOf, RoomToTouch, Legal, TableFault, DirsLoading;
      ghost var s := State();
      junk := ZeroBlock();
      LegalUser(s, e, v);
      DirsOf(s, e);
      var ok;
      ok, f := mm.Walk(envs[e].dir, v, e);
      TableThere(s, e, v);
      ActiveBits(s, e, v);
      while !ok
        invariant mm.Valid() && Inv(State()) && e in envs && |junk| == NPTENTRIES && HasDirs(e)
        invariant ok <==> Entry(mm.M(), Ram(e), v).present
        invariant ok ==> Reaches(mm.mem, envs[e].dir, v, f) && f == Entry(mm.M(), Ram(e), v).frame
        invariant ok || !Entry(s.m, Ram(e), v).present
        invariant if ok then State() == Touch(s, e, v, junk)
                  else if Table(Ram(e), v.d) in mm.own then State() == TableFault(s, e, v.d) else State() == s
        decreases if ok then 0 else if Table(Ram(e), v.d) in mm.own then 1 else 2
      {
        TouchSteps(s, State(), e, v);
        junk := FaultHandler(e, v);
        TouchedNow(s, e, v, junk);
        DirsOf(State(), e);
        ok, f := mm.Walk(envs[e].dir, v, e);
        ActiveBits(State(), e, v);
      }
      NoLimbo(State()) by { BaseOf(State()); }
      EntryMapped(mm.M(), e, v);
    }

    /** A user load of word i of page v. */
    method UserLoad(e: nat, v: Vpn, i: nat) returns (w: Word, ghost junk: Block)
      requires mm.Valid() && Inv(State()) && e in envs && Legal(State(), e, v) && RoomToTouch(State(), e, v)
      requires i < NPTENTRIES
      modifies this, mm
      ensures mm.Valid() && Inv(State()) && |junk| == NPTENTRIES && State() == Touch(old(State()), e, v, junk)
      ensures w == Load(old(State()), e, v, i, junk)
      ensures e in envs && Page(e, v) in mm.own && Reaches(mm.mem, envs[e].dir, v, mm.own[Page(e, v)])
    {
      hide Reaches, KernelHalf, Inv, DataOf, MemOk, Touch, Legal, RoomToTouch, DirsLoading;
      var f;
      f, junk := Translate(e, v);
      BlockSizes(mm.mem, mm.own, mm.leaf);
      DataAt(mm.mem, mm.own, e, v);
      w := mm.mem[f][i];
    }

    /** A user store to word i of page v; the processor sets the MODIFIED bit. */
    method UserStore(e: nat, v: Vpn, i: nat, w: Word) returns (ghost junk: Block)
      requires mm.Valid() && Inv(State()) && e in envs && Legal(State(), e, v) && RoomToTouch(State(), e, v)
      requires i < NPTENTRIES
      modifies this, mm
      ensures mm.Valid() && Inv(State()) && |junk| == NPTENTRIES && State() == Store(old(State()), e, v, i, w, junk)
      ensures e in envs && Page(e, v) in mm.own && Reaches(mm.mem, envs[e].dir, v, mm.own[Page(e, v)])
    {
      hide Reaches, WS.ListsOf, KernelHalf, Inv, DataOf, MemOk, Touch, Legal, RoomToTouch, DirsLoading, WordsOk,
           SetPerms;
      ghost var s := State();
      var f;
      f, junk := Translate(e, v);
      LegalUser(s, e, v);
      ReachesActive(e, v, f);
      ghost var s1 := State();
      BaseOf(s1);
      NoLimbo(s1);
      BlockSizes(mm.mem, mm.own, mm.leaf);
      DataAt(mm.mem, mm.own, e, v);
      LeafTable(mm.M());
      PageFrame(mm.M(), mm.mem, e, v);
      ghost var mem0 := mm.mem;
      mm.WriteFrame(f, mm.mem[f][i := w]);
      PageWritten(mem0, mm.own, mm.mem, e, v, mem0[f][i := w]);
      assert State() == s1.(data := s1.data[(e, v) := s1.data[(e, v)][i := w]]);
      SetPagePermissions(e, v, MODIFIED, NONE);
      StoreInv(s, e, v, i, w, junk, map[]);
      ReachesActive(e, v, f);
    }

    // ---------- the rest of kern/file_manager.c ----------

    method PfRemoveEnvPage(e: nat, v: Vpn)
      requires mm.Valid() && HasDirs(e) && UserPage(v)
      modifies this`dfree, mm
      ensures mm.Valid() && HasDirs(e) && State() == PfRemove(old(State()), e, v)
    {
      hide MemOk, WordsOk, DataOf, DirsLoading;
      LeafTable(mm.M());
      LeafNonzero(mm.M());
      NoDir(mm.M(), e, envs[e]);
      if envs[e].ddir == 0 {
        return;
      }
      var tbl := FindDiskPageTable(envs[e].ddir, v, e);
      if tbl == 0 {
        return;
      }
      var dfn := mm.GetDiskEntry(tbl, v, e);
      mm.SetDiskEntry(tbl, v, ZERO, e);
      OneTable(mm.M());
      TablesWritten(old(mm.mem), old(mm.own), mm.mem, mm.own, Table(Swap(e), v.d), Table(Swap(e), v.d));
      SameOwners(old(mm.M()), mm.M(), e, envs[e]);
      FreeDiskFrame(dfn);
      EntryGone(old(State()).m, e, v);
    }

    /** The inner loop of pf_free_env: the entries of disk table d. */
    method FreeTableEntries(d: nat, tbl: Frame, ghost e: nat)
      requires mm.Valid() && d < USER_PDX && Table(Swap(e), d) in mm.own && mm.own[Table(Swap(e), d)] == tbl
      modifies this`dfree, mm
      ensures mm.Valid() && mm.M() == RowCleared(old(mm.M()), e, d, NPTENTRIES)
      ensures dfree == FreeRow(old(mm.leaf), e, d, NPTENTRIES, old(dfree))
      ensures DataOf(mm.mem, mm.own) == DataOf(old(mm.mem), old(mm.own))
    {
      hide MemOk, WordsOk, DataOf;
      ghost var m0 := mm.M();
      NoRowCleared(m0, e, d);
      for t := 0 to NPTENTRIES
        invariant mm.Valid() && mm.M() == RowCleared(m0, e, d, t)
        invariant dfree == FreeRow(m0.leaf, e, d, t, old(dfree))
        invariant DataOf(mm.mem, mm.own) == DataOf(old(mm.mem), old(mm.own))
      {
        ghost var mem := mm.mem;
        LeafNonzero(mm.M());
        var dfn := mm.GetDiskEntry(tbl, Vpn(d, t), e);
        mm.SetDiskEntry(tbl, Vpn(d, t), ZERO, e);
        OneTable(mm.M());
        TablesWritten(mem, mm.own, mm.mem, mm.own, Table(Swap(e), d), Table(Swap(e), d));
        OneMoreInRow(m0, e, d, t);
        FreeDiskFrame(dfn);
      }
    }

    /** pf_free_env: every disk frame, every disk table and the disk directory. */
    method PfFreeEnv(e: nat)
      requires mm.Valid() && e in envs && mm.IsDir(envs[e].ddir, Swap(e))
      modifies this`dfree, this`envs, mm
      ensures mm.Valid() && e in old(envs) && envs == old(envs)[e := old(envs)[e].(ddir := 0)]
      ensures mm.M() == DropSpace(old(mm.M()), Swap(e))
      ensures dfree == FreeRows(old(mm.leaf), e, USER_PDX, old(dfree))
      ensures DataOf(mm.mem, mm.own) == DataOf(old(mm.mem), old(mm.own))
    {
      hide MemOk, WordsOk, DataOf, RowCleared, DropTable, Release;
      ghost var m0 := mm.M();
      ghost var q := dfree;
      var x := envs[e].ddir;
      for d := 0 to USER_PDX
        invariant mm.Valid() && mm.IsDir(x, Swap(e)) && mm.M() == DropTables(m0, Swap(e), d)
        invariant dfree == FreeRows(m0.leaf, e, d, q)
        invariant DataOf(mm.mem, mm.own) == DataOf(old(mm.mem), old(mm.own))
        invariant envs == old(envs)
      {
        ghost var m1 := mm.M();
        RowsAgree(m0, e, d, dfree);
        DiskTablePresent(mm.mem, mm.own, mm.leaf, e, d);
        LeafTable(m1);
        var pde := mm.mem[x][d];
        if !pde.present {
          EmptyRow(m1, e, d, NPTENTRIES, dfree);
          NoTableToDrop(m1, e, d);
          continue;
        }
        FreeTableEntries(d, pde.frame, e);
        ghost var mem, m2 := mm.mem, mm.M();
        RowGone(m1, e, d);
        RowThenTable(m1, e, d);
        OneTable(m2);
        DropTableOk(m2, Swap(e), d);
        mm.DropDiskTable(x, d, e);
        DirectoryWritten(mem, m2.own, mm.mem, Swap(e), d);
      }
      AllDropped(m0, e);
      ghost var mem := mm.mem;
      ghost var own := mm.own;
      mm.DropDirectory(x, e);
      DropDirPages(DropTables(m0, Swap(e), USER_PDX), e);
      DataKept(mem, own, mm.mem, mm.own);
      envs := envs[e := envs[e].(ddir := 0)];
    }

    /** pf_calculate_allocated_pages counts exactly the pages in the page file. */
    method PfCalculateAllocatedPages(e: nat) returns (counter: nat)
      requires mm.Valid() && HasDirs(e) && envs[e].ddir != 0
      ensures counter == |InPageFile(mm.leaf, e)|
    {
      hide MemOk, WordsOk, InPageFile;
      counter := 0;
      var x := envs[e].ddir;
      NothingBefore(mm.leaf, e);
      for d := 0 to USER_PDX
        invariant counter == |Before(mm.leaf, e, d, 0)|
      {
        DiskTablePresent(mm.mem, mm.own, mm.leaf, e, d);
        LeafTable(mm.M());
        LeafNonzero(mm.M());
        var pde := mm.mem[x][d];
        if !pde.present {
          SkipRow(mm.leaf, e, d);
          continue;
        }
        for t := 0 to NPTENTRIES
          invariant counter == |Before(mm.leaf, e, d, t)|
        {
          var dfn := mm.GetDiskEntry(pde.frame, Vpn(d, t), e);
          CountNext(mm.leaf, e, d, t);
          if dfn != ZERO {
            counter := counter + 1;
          }
        }
        NextRow(mm.leaf, e, d);
      }
      AllBefore(mm.M(), e);
    }

    // ---------- kern/user_environment.c: env_free ----------

    /** Steps 1 and 2 of env_free for ActiveList. */
    method FreeActive(e: nat)
      requires mm.Valid() && HasDirs(e) && forall u :: u in WS.PagesOf(envs[e], envs[e].active) ==> UserPage(u)
      modifies this`envs, mm
      ensures mm.Valid() && HasDirs(e) && e in old(envs) && envs == old(envs)[e := envs[e]]
      ensures State().(envs := old(envs)) == UnmapPages(old(State()), e, WS.PagesOf(old(envs)[e], old(envs)[e].active))
      ensures envs[e].va == old(envs)[e].va && envs[e].second == old(envs)[e].second
      ensures envs[e].ddir == old(envs)[e].ddir
      ensures envs[e].dir == old(envs)[e].dir && envs[e].active == []
    {
      hide MemOk, WordsOk, DataOf, Unmapped, DirsLoading, UserPage;
      ghost var s, env := State(), envs[e];
      ghost var pages := WS.PagesOf(env, env.active);
      var elms := envs[e].active;
      for i := 0 to |elms|
        invariant mm.Valid() && HasDirs(e) && envs == s.envs[e := envs[e]]
        invariant State().(envs := s.envs) == UnmapPages(s, e, pages[..i])
        invariant envs[e] == env.(active := elms[i..], work := envs[e].work)
      {
        var x := elms[i];
        assert pages[i] == WS.PageAt(env, x) && pages[i] in pages;
        UnmapNext(s, e, pages, i);
        SameDirs(mm.M(), e, envs[e], envs[e].(active := elms[i + 1..], work := [x] + envs[e].work));
        envs := envs[e := envs[e].(active := envs[e].active[1..])];
        envs := envs[e := envs[e].(work := [x] + envs[e].work)];
        UnmapPage(e, WS.PageAt(envs[e], x));
      }
      assert pages[..|elms|] == pages;
    }

    /** Steps 1 and 2 of env_free for SecondList. */
    method FreeSecond(e: nat)
      requires mm.Valid() && HasDirs(e) && forall u :: u in WS.PagesOf(envs[e], envs[e].second) ==> UserPage(u)
      modifies this`envs, mm
      ensures mm.Valid() && HasDirs(e) && e in old(envs) && envs == old(envs)[e := envs[e]]
      ensures State().(envs := old(envs)) == UnmapPages(old(State()), e, WS.PagesOf(old(envs)[e], old(envs)[e].second))
      ensures envs[e].dir == old(envs)[e].dir && envs[e].ddir == old(envs)[e].ddir
    {
      hide MemOk, WordsOk, DataOf, Unmapped, DirsLoading, UserPage;
      ghost var s, env := State(), envs[e];
      ghost var pages := WS.PagesOf(env, env.second);
      var elms := envs[e].second;
      for i := 0 to |elms|
        invariant mm.Valid() && HasDirs(e) && envs == s.envs[e := envs[e]]
        invariant State().(envs := s.envs) == UnmapPages(s, e, pages[..i])
        invariant envs[e] == env.(second := elms[i..], work := envs[e].work)
      {
        var x := elms[i];
        assert pages[i] == WS.PageAt(env, x) && pages[i] in pages;
        UnmapNext(s, e, pages, i);
        SameDirs(mm.M(), e, envs[e], envs[e].(second := elms[i + 1..], work := [x] + envs[e].work));
        envs := envs[e := envs[e].(second := envs[e].second[1..])];
        envs := envs[e := envs[e].(work := [x] + envs[e].work)];
        UnmapPage(e, WS.PageAt(envs[e], x));
      }
      assert pages[..|elms|] == pages;
    }

    method EnvFree(e: nat)
      requires mm.Valid() && Inv(State()) && e in envs
      modifies this, mm
      ensures mm.Valid() && State() == Destroy(old(State()), e) && Inv(State())
    {
      hide Inv, PhysicalMemory.Valid, MemOk, WordsOk, DataOf, DirsLoading, UserPage, Unmapping, DropSpace, FreeRows,
           UnmapPages;
      ghost var s := State();
      FreePagesOfLists(e);
      FreeReady(s, e);
      DirFacts(mm.M(), e, envs[e]);
      ghost var m2 := mm.M();
      DropSpaceOk(m2, Ram(e));
      mm.FreePageTables(envs[e].dir, e);
      SpacePages(m2.own, mm.own, Ram(e));
      DataKept(mm.mem, m2.own, mm.mem, mm.own);
      PfFreeEnv(e);
      envs := envs - {e};
      assert envs == s.envs - {e};
      DestroyInv(s, e);
    }

    /** The two loops of env_free over the lists. */
    method FreePagesOfLists(e: nat)
      requires mm.Valid() && Inv(State()) && e in envs
      modifies this`envs, mm
      ensures mm.Valid() && HasDirs(e) && e in old(envs) && envs == old(envs)[e := envs[e]] && envs[e].ddir != 0
      ensures State().(envs := old(envs)) == UnmapPages(old(State()), e, WS.Pages(old(envs)[e]))
    {
      hide Inv, MemOk, WordsOk, DataOf, DirsLoading, UserPage, WS.PagesOf, UnmapPages;
      ghost var s, env := State(), envs[e];
      DirsOf(s, e);
      PagesUser(s, e);
      FreeActive(e);
      ghost var s1 := State();
      PagesSameVa(env, envs[e]);
      FreeSecond(e);
      UnmapBoth(s, s1, State(), e);
    }

    // ---------- kern/user_environment.c: env_create ----------

    /** The lists and fields initialize_environment sets; the elements go to the head one by one. */
    method InitializeEnvironment(e: nat, x: Frame, A: nat, S: nat)
      modifies this`envs
      ensures envs == old(envs)[e := WS.NewEnv(x, A, S)]
    {
      var work := [];
      for i := 0 to A + S
        invariant work == WS.Down(i)
      {
        work := [i] + work;
      }
      envs := envs[e := WS.Env(x, 0, A, S, seq(A + S, i => Vpn(0, 0)), work, [], [], 0, 0)];
    }

    /** The new page directory: the kernel's entries are copied, the user's cleared. */
    method CreateDirectory(e: nat, A: nat, S: nat)
      requires mm.Valid() && mm.free != [] && Dir(Ram(e)) !in mm.own && |mm.kernelDir| == NPTENTRIES
      modifies this`envs, mm
      ensures mm.Valid() && State() == InitEnv(old(State()), e, A, S)
    {
      hide MemOk, WordsOk, DataOf, WS.NewEnv, KernelHalf, SelfMapped;
      var init := ZeroBlock();
      for d := USER_PDX to NPTENTRIES
        invariant |init| == NPTENTRIES && forall c :: 0 <= c < USER_PDX ==> init[c] == ZERO
        invariant forall c :: USER_PDX <= c < d ==> init[c] == mm.kernelDir[c]
      {
        init := init[d := mm.kernelDir[d]];
      }
      FirstFreeUnused(mm.M(), Ram(e));
      var x := mm.NewDirectory(init, true, Ram(e));
      DataKept(old(mm.mem), old(mm.own), mm.mem, mm.own);
      InitializeEnvironment(e, x, A, S);
    }

    /** allocate_frame and loadtime_map_frame; the page table may be missing. */
    method AllocateAndLoad(e: nat, v: Vpn) returns (f: Frame, ghost junk: Block)
      requires mm.Valid() && HasDirs(e) && UserPage(v) && (Ram(e), v) !in mm.leaf && RoomForFrame(State(), e, v)
      requires mm.limbo == {} && Injective(mm.own)
      modifies mm
      ensures mm.Valid() && HasDirs(e) && State() == MapNew(old(State()), e, v, junk) && Injective(mm.own)
      ensures (Ram(e), v) in mm.leaf && Page(e, v) in mm.own && mm.own[Page(e, v)] == f
    {
      hide MemOk, WordsOk, DataOf, Mapped, Alloc, Injective, CanHaveTable, DirsLoading;
      ghost var m := mm.M();
      RamDir(m, e, envs[e]);
      LoadMapMem(mm.M(), e, v);
      LoadFacts(mm.M(), e, v);
      junk := mm.mem[mm.free[0]];
      f := MapFirstFree(e, v);
      assert HasDirs(e) by { LoadDirs(m, mm.M(), e, v, envs[e]); }
      RamDir(mm.M(), e, envs[e]);
      LeafTable(mm.M());
      OneTable(mm.M());
      PageFrame(mm.M(), mm.mem, e, v);
      PageMapped(old(mm.mem), old(mm.own), mm.mem, mm.own, e, v, f, Dir(Ram(e)), Table(Ram(e), v.d));
      assert DataOf(mm.mem, mm.own) == DataOf(old(mm.mem), old(mm.own))[(e, v) := junk];
    }

    method MapFirstFree(e: nat, v: Vpn) returns (f: Frame)
      requires mm.Valid() && HasDirs(e) && UserPage(v) && (Ram(e), v) !in mm.leaf && RoomForFrame(State(), e, v)
      modifies mm
      ensures mm.Valid() && mm.M() == Mapped(Alloc(old(mm.M())), e, v, f) && f == FirstFree(old(mm.M()))
      ensures Table(Ram(e), v.d) in mm.own && f < |mm.mem| && Page(e, v) !in old(mm.own)
      ensures |mm.mem| == |old(mm.mem)|
      ensures forall g :: 0 <= g < |mm.mem| && g != envs[e].dir && g != mm.own[Table(Ram(e), v.d)] ==>
                mm.mem[g] == old(mm.mem[g])
    {
      hide MemOk, WordsOk, DataOf, Mapped, Alloc, CanHaveTable, PhysicalMemory.Sound, Enter, EnsureTable;
      LoadFacts(mm.M(), e, v);
      f := mm.AllocateFrame();
      mm.LoadtimeMapFrame(envs[e].dir, f, v, e);
    }

    /** The element with index page_last_WS_index gets the page and joins ActiveList or SecondList. */
    method InsertLoaded(e: nat, v: Vpn, cap: nat)
      requires e in envs && envs[e].work != [] && |envs[e].work| <= |envs[e].va|
      requires Lru.Last(envs[e].work) == |envs[e].va| - |envs[e].work|
      modifies this`envs
      ensures e in old(envs) && old(envs)[e].work != [] && envs == old(envs)[e := WS.LoadInsert(old(envs)[e], v, cap)]
    {
      var x := |envs[e].va| - |envs[e].work|;
      envs := envs[e := envs[e].(va := envs[e].va[x := v])];
      envs := envs[e := envs[e].(work := Lru.Front(envs[e].work))];
      if |envs[e].active| < cap {
        envs := envs[e := envs[e].(active := [x] + envs[e].active)];
      } else {
        envs := envs[e := envs[e].(second := [x] + envs[e].second)];
      }
    }

    /** A frame for one page of the program, or the stack page: mapped and listed, with whatever it held. */
    method BeginLoad(e: nat, v: Vpn, cap: nat) returns (f: Frame, ghost junk: Block)
      requires mm.Valid() && HasDirs(e) && UserPage(v) && (Ram(e), v) !in mm.leaf
      requires RoomForFrame(State(), e, v) && mm.limbo == {} && Injective(mm.own)
      requires envs[e].work != [] && |envs[e].work| <= |envs[e].va|
      requires Lru.Last(envs[e].work) == |envs[e].va| - |envs[e].work|
      modifies this`envs, mm
      ensures mm.Valid() && HasDirs(e) && Injective(mm.own) && (Ram(e), v) in mm.leaf
      ensures e in old(envs) && old(envs)[e].work != []
      ensures State() == SetEnv(MapNew(old(State()), e, v, junk), e, WS.LoadInsert(old(envs)[e], v, cap))
      ensures Page(e, v) in mm.own && mm.own[Page(e, v)] == f && f < |mm.mem| && mm.mem[f] == junk
      ensures |junk| == NPTENTRIES
    {
      hide MemOk, WordsOk, MapNew, Injective, RoomForFrame, DirsLoading, WS.LoadInsert, DataOf;
      ghost var s, env := State(), envs[e];
      f, junk := AllocateAndLoad(e, v);
      InsertLoaded(e, v, cap);
      WS.LoadFields(env, v, cap);
      SameDirs(mm.M(), e, env, envs[e]);
      PageFrame(mm.M(), mm.mem, e, v);
      DataAt(mm.mem, mm.own, e, v);
      BlockLengths(mm.mem, mm.own, mm.leaf);
      MapNewHolds(s, e, v, junk);
    }

    /** The page is written through its mapping, which sets its MODIFIED bit. */
    method EndLoad(e: nat, v: Vpn, f: Frame, b: Block)
      requires mm.Valid() && HasDirs(e) && UserPage(v) && (Ram(e), v) in mm.leaf && |b| == NPTENTRIES
      requires Page(e, v) in mm.own && mm.own[Page(e, v)] == f && Injective(mm.own)
      modifies mm
      ensures mm.Valid() && HasDirs(e)
      ensures State() == WithPerms(old(State()).(data := old(State()).data[(e, v) := b]), e, v, MODIFIED, NONE)
    {
      hide MemOk, WordsOk, DataOf, Injective, SetPerms, DirsLoading;
      ghost var mem := mm.mem;
      LeafTable(mm.M());
      PageFrame(mm.M(), mm.mem, e, v);
      mm.WriteFrame(f, b);
      PageWritten(mem, mm.own, mm.mem, e, v, b);
      SetPagePermissions(e, v, MODIFIED, NONE);
    }

    /** The stack page. */
    method LoadOne(e: nat, v: Vpn, b: Block, cap: nat)
      requires mm.Valid() && HasDirs(e) && UserPage(v) && |b| == NPTENTRIES && (Ram(e), v) !in mm.leaf
      requires RoomForFrame(State(), e, v) && mm.limbo == {} && Injective(mm.own)
      requires envs[e].work != [] && |envs[e].work| <= |envs[e].va|
      requires Lru.Last(envs[e].work) == |envs[e].va| - |envs[e].work|
      modifies this`envs, mm
      ensures mm.Valid() && State() == LoadPage(old(State()), e, v, b, cap) && HasDirs(e)
    {
      hide MemOk, WordsOk, DataOf, MapNew, Injective, SetPerms, RoomForFrame, DirsLoading, WS.LoadInsert, LoadPage;
      ghost var s := State();
      var f;
      ghost var junk;
      f, junk := BeginLoad(e, v, cap);
      EndLoad(e, v, f, b);
      LoadAssembled(s, e, v, junk, b, cap);
    }

    /** A page of a segment: what lies before the virtual address stays as the frame held it. */
    method LoadPiece(e: nat, seg: ProgramSegment, i: nat, cap: nat) returns (ghost held: Block)
      requires var v := SegPage(seg, i);
               && mm.Valid() && HasDirs(e) && UserPage(v) && (Ram(e), v) !in mm.leaf
               && RoomForFrame(State(), e, v) && mm.limbo == {} && Injective(mm.own)
      requires envs[e].work != [] && |envs[e].work| <= |envs[e].va|
      requires Lru.Last(envs[e].work) == |envs[e].va| - |envs[e].work|
      modifies this`envs, mm
      ensures mm.Valid() && |held| == NPTENTRIES && HasDirs(e)
      ensures State() == LoadPage(old(State()), e, SegPage(seg, i), PageBlock(seg, i, held), cap)
    {
      hide MemOk, WordsOk, DataOf, MapNew, Injective, SetPerms, RoomForFrame, DirsLoading, WS.LoadInsert, LoadPage,
           SegPage, PageBlock;
      ghost var s := State();
      var f;
      f, held := BeginLoad(e, SegPage(seg, i), cap);
      var b := CopyPage(seg, i, mm.mem[f]);
      EndLoad(e, SegPage(seg, i), f, b);
      LoadAssembled(s, e, SegPage(seg, i), held, b, cap);
    }

    /** What the copying loop and the zero-filling loop of the loader make of a page that held something else. */
    method CopyPage(seg: ProgramSegment, i: nat, held: Block) returns (b: Block)
      requires |held| == NPTENTRIES
      ensures b == PageBlock(seg, i, held)
    {
      hide ImageAt, ByteOf, Words;
      var page := BytesOf(held);
      var dst: nat := if PAGE_SIZE * i < seg.offset then seg.offset else PAGE_SIZE * i;
      var src := dst - seg.offset;
      while dst < PAGE_SIZE * (i + 1) && dst < seg.offset + seg.file
        invariant PAGE_SIZE * i <= dst && seg.offset <= dst && src == dst - seg.offset
        invariant dst <= PAGE_SIZE * (i + 1) || dst == seg.offset
        invariant |page| == PAGE_SIZE && forall x: nat :: x < PAGE_SIZE ==>
                    page[x] == if PAGE_SIZE * i + x < dst then MemoryByte(seg, i, held, x) else ByteOf(held, x)
      {
        page := page[dst - PAGE_SIZE * i := ImageAt(seg, src)];
        dst, src := dst + 1, src + 1;
      }
      while dst < PAGE_SIZE * (i + 1)
        invariant PAGE_SIZE * i <= dst && seg.offset <= dst
        invariant (dst < PAGE_SIZE * (i + 1) ==> seg.offset + seg.file <= dst)
        invariant dst <= PAGE_SIZE * (i + 1) || dst == seg.offset
        invariant |page| == PAGE_SIZE && forall x: nat :: x < PAGE_SIZE ==>
                    page[x] == if PAGE_SIZE * i + x < dst then MemoryByte(seg, i, held, x) else ByteOf(held, x)
      {
        page := page[dst - PAGE_SIZE * i := 0];
        dst := dst + 1;
      }
      assert page == MemoryBytes(seg, i, held);
      b := Words(page);
    }

    /** The first page of a segment, put together at ptr_temp_page. */
    method FirstTemporaryPage(seg: ProgramSegment) returns (page: seq<Byte>, src: nat)
      requires SegmentOk(seg)
      ensures page == FirstBytes(seg) && src == SourceAfter(seg, 0)
    {
      hide ImageAt;
      page := seq(PAGE_SIZE, x => 0);
      var end := if seg.offset == 0 then 0 else PAGE_SIZE;
      src := 0;
      for dst := seg.offset to if seg.offset == 0 then 0 else PAGE_SIZE
        invariant |page| == PAGE_SIZE && src == dst - seg.offset
        invariant forall x: nat :: x < PAGE_SIZE ==> page[x] == if x < dst then FirstByte(seg, x) else 0
      {
        page := page[dst := ImageAt(seg, src)];
        src := src + 1;
      }
    }

    /** A page of the file contents. */
    method WholePage(seg: ProgramSegment, src: nat) returns (page: seq<Byte>)
      ensures |page| == PAGE_SIZE && forall x: nat :: x < PAGE_SIZE ==> page[x] == ImageAt(seg, src + x)
    {
      page := [];
      for x := 0 to PAGE_SIZE
        invariant |page| == x && forall y: nat :: y < x ==> page[y] == ImageAt(seg, src + y)
      {
        page := page + [ImageAt(seg, src + x)];
      }
    }

    /** The last page of the file contents, put together at ptr_temp_page. */
    method LastTemporaryPage(seg: ProgramSegment, source: nat) returns (page: seq<Byte>)
      requires source == SourceAfter(seg, WholePages(seg))
      ensures page == LastBytes(seg)
    {
      hide ImageAt, SourceAfter, WholePages;
      page := seq(PAGE_SIZE, x => 0);
      var end := seg.offset + seg.file - PAGE_SIZE * LastPage(seg);
      var src := source;
      for dst := 0 to end
        invariant |page| == PAGE_SIZE && src == source + dst
        invariant forall x: nat :: x < PAGE_SIZE ==> page[x] == if x < dst then LastByte(seg, x) else 0
      {
        page := page[dst := ImageAt(seg, src)];
        src := src + 1;
      }
    }

    /** The page file half of the segment loop: the first page, the whole pages of the file contents, the page they end
        in, and the zero page for the rest. */
    method WriteSegment(e: nat, seg: ProgramSegment, zeroPage: Block, ghost junk: Block, ghost remaining: nat, cap: nat,
                        ghost s0: Machine.State, ghost s1: Machine.State, ghost ops: seq<Step>, ghost n: nat)
      requires mm.Valid() && SegmentOk(seg) && |junk| == NPTENTRIES
      requires CanLoad(s0, s1, e, ops, cap) && SegmentNext(seg, zeroPage, junk, remaining, ops, n)
      requires State() == LoadAll(s1, e, ops[..n + LoadCount(Plan(seg, zeroPage, junk), remaining)], cap)
      modifies this, mm
      ensures mm.Valid() && n + |SegmentSteps(Plan(seg, zeroPage, junk), remaining)| <= |ops|
      ensures State() == LoadAll(s1, e, ops[..n + |SegmentSteps(Plan(seg, zeroPage, junk), remaining)|], cap)
    {
      hide CanLoad, LoadAll, DataOf, DirsLoading, PfPut, PhysicalMemory.Valid, UserPage, SegmentNext, SegPage,
           WholePages, ZeroPages, FilePages, LastPage, MemPages, FirstWhole, LoadCount, SegmentSteps, CanHaveTable,
           DiskDir, Plan, Words, FirstBytes, LastBytes, WholeBytes, SourceAfter;
      ghost var m := n + LoadCount(Plan(seg, zeroPage, junk), remaining);
      var w, z := WholePages(seg), ZeroPages(seg);
      FileSizes(seg, zeroPage, junk, remaining, ops, n);
      WriteReady(s0, s1, e, ops, cap, seg, zeroPage, junk, remaining, n, 0);
      var page, src := FirstTemporaryPage(seg);
      var code := PfAddEnvPage(e, SegPage(seg, 0), Words(page));
      src := WriteWholePages(e, seg, zeroPage, junk, remaining, cap, s0, s1, ops, n, src);
      WriteReady(s0, s1, e, ops, cap, seg, zeroPage, junk, remaining, n, 1 + w);
      page := LastTemporaryPage(seg, src);
      code := PfAddEnvPage(e, SegPage(seg, LastPage(seg)), Words(page));
      for i := 0 to z
        invariant mm.Valid() && State() == LoadAll(s1, e, ops[..m + 2 + w + i], cap)
      {
        WriteReady(s0, s1, e, ops, cap, seg, zeroPage, junk, remaining, n, 2 + w + i);
        code := PfAddEnvPage(e, SegPage(seg, FilePages(seg) + i), zeroPage);
      }
    }

    method WriteWholePages(e: nat, seg: ProgramSegment, ghost zeroPage: Block, ghost junk: Block, ghost remaining: nat,
                           ghost cap: nat, ghost s0: Machine.State, ghost s1: Machine.State, ghost ops: seq<Step>,
                           ghost n: nat, source: nat)
      returns (src: nat)
      requires mm.Valid() && SegmentOk(seg) && |junk| == NPTENTRIES
      requires CanLoad(s0, s1, e, ops, cap) && SegmentNext(seg, zeroPage, junk, remaining, ops, n)
      requires var m := n + LoadCount(Plan(seg, zeroPage, junk), remaining);
               m + 1 + WholePages(seg) <= |ops| && State() == LoadAll(s1, e, ops[..m + 1], cap)
      requires source == SourceAfter(seg, 0)
      modifies this, mm
      ensures mm.Valid() && src == SourceAfter(seg, WholePages(seg))
      ensures var m := n + LoadCount(Plan(seg, zeroPage, junk), remaining);
              State() == LoadAll(s1, e, ops[..m + 1 + WholePages(seg)], cap)
    {
      hide CanLoad, LoadAll, DataOf, DirsLoading, PfPut, PhysicalMemory.Valid, UserPage, SegmentNext, SegPage,
           WholePages, ZeroPages, FilePages, LastPage, FirstWhole, LoadCount, CanHaveTable, DiskDir, Plan, Words,
           FirstBytes, LastBytes, WholeBytes, SourceAfter;
      ghost var m := n + LoadCount(Plan(seg, zeroPage, junk), remaining);
      src := source;
      for i := 0 to WholePages(seg)
        invariant mm.Valid() && State() == LoadAll(s1, e, ops[..m + 1 + i], cap) && src == SourceAfter(seg, i)
      {
        WriteReady(s0, s1, e, ops, cap, seg, zeroPage, junk, remaining, n, 1 + i);
        var page := WholePage(seg, src);
        WholeSource(seg, i, page);
        var code := PfAddEnvPage(e, SegPage(seg, FirstWhole(seg) + i), Words(page));
        src := src + PAGE_SIZE;
      }
    }

    /** One segment: as many pages as fit go to memory, then all of them to the page file. */
    method LoadSegment(e: nat, seg: ProgramSegment, zeroPage: Block, remaining: nat, cap: nat,
                       ghost s0: Machine.State, ghost s1: Machine.State, ghost pre: seq<Step>, ghost rest: seq<Step>)
      returns (k: nat, ghost junk: Block)
      requires mm.Valid() && SegmentOk(seg)
      requires CanLoad(s0, s1, e, Around(pre, seg, zeroPage, ZeroBlock(), remaining, rest), cap)
      requires State() == LoadAll(s1, e, pre, cap)
      modifies this, mm
      ensures mm.Valid() && |junk| == NPTENTRIES && k == LoadCount(Plan(seg, zeroPage, junk), remaining)
      ensures CanLoad(s0, s1, e, Around(pre, seg, zeroPage, junk, remaining, rest), cap)
      ensures State() == LoadAll(s1, e, pre + SegmentSteps(Plan(seg, zeroPage, junk), remaining), cap)
    {
      hide CanLoad, LoadAll, DataOf, DirsLoading, LoadPage, PfPut, PhysicalMemory.Valid, RoomForFrame, UserPage,
           SegmentNext, PageBlock, SegPage, MemPages, SegmentSteps, Around;
      var r := if seg.start == 0x200 && !seg.tpp && remaining > 6 then 6 else remaining;
      k, junk := 0, ZeroBlock();
      ghost var n, ops := |pre|, Around(pre, seg, zeroPage, ZeroBlock(), remaining, rest);
      AroundNext(pre, seg, zeroPage, junk, remaining, rest);
      Counted(seg, zeroPage, junk, remaining);
      while k < MemPages(seg) && k < r
        invariant mm.Valid() && |junk| == NPTENTRIES && k <= LoadCount(Plan(seg, zeroPage, junk), remaining)
        invariant LoadCount(Plan(seg, zeroPage, junk), remaining) == if MemPages(seg) < r then MemPages(seg) else r
        invariant ops == Around(pre, seg, zeroPage, junk, remaining, rest) && CanLoad(s0, s1, e, ops, cap)
        invariant n + k <= |ops| && SegmentNext(seg, zeroPage, junk, remaining, ops, n) && ops[..n] == pre
        invariant State() == LoadAll(s1, e, ops[..n + k], cap)
      {
        MemoryStep(seg, zeroPage, junk, remaining, ops, n, k);
        StepReady(s0, s1, e, ops, cap, n + k);
        ghost var held := LoadPiece(e, seg, k, cap);
        if k == 0 {
          FirstLoaded(s0, s1, e, pre, seg, zeroPage, junk, held, remaining, rest, cap);
          Counted(seg, zeroPage, held, remaining);
          AroundNext(pre, seg, zeroPage, held, remaining, rest);
          junk, ops := held, Around(pre, seg, zeroPage, held, remaining, rest);
        } else {
          OldIrrelevant(seg, k, held, junk);
        }
        k := k + 1;
      }
      WriteSegment(e, seg, zeroPage, junk, remaining, cap, s0, s1, ops, n);
      AroundNext(pre, seg, zeroPage, junk, remaining, rest);
    }

    /** MODIFIED is cleared for every working-set element in use. */
    method CleanLoaded(e: nat)
      requires mm.Valid() && HasDirs(e) && |envs[e].work| <= |envs[e].va|
      requires forall u :: u in LoadedPages(envs[e]) ==> UserPage(u) && (Ram(e), u) in mm.leaf
      modifies mm
      ensures mm.Valid() && State() == CleanAll(old(State()), e) && HasDirs(e)
    {
      hide MemOk, WordsOk, DataOf, SetPerms, DirsLoading, UserPage;
      ghost var s, pages := State(), LoadedPages(envs[e]);
      var n := |envs[e].va| - |envs[e].work|;
      for i := 0 to n
        invariant mm.Valid() && HasDirs(e) && State() == Perms(s, e, pages[..i], MODIFIED)
        invariant forall u :: u in pages ==> (Ram(e), u) in mm.leaf
      {
        assert pages[i] == envs[e].va[i] && pages[i] in pages;
        LeafTable(mm.M());
        PermsNext(s, e, pages, i, MODIFIED);
        SetPagePermissions(e, envs[e].va[i], NONE, MODIFIED);
      }
      assert pages[..n] == pages;
    }

    /** PRESENT is cleared for every page of SecondList. */
    method HideSecondList(e: nat)
      requires mm.Valid() && HasDirs(e)
      requires forall u :: u in WS.PagesOf(envs[e], envs[e].second) ==> UserPage(u) && (Ram(e), u) in mm.leaf
      modifies mm
      ensures mm.Valid() && State() == HideSecond(old(State()), e)
    {
      hide MemOk, WordsOk, DataOf, SetPerms, DirsLoading, UserPage;
      ghost var s, pages := State(), WS.PagesOf(envs[e], envs[e].second);
      for i := 0 to |envs[e].second|
        invariant mm.Valid() && HasDirs(e) && State() == Perms(s, e, pages[..i], PRESENT)
        invariant forall u :: u in pages ==> (Ram(e), u) in mm.leaf
      {
        assert pages[i] == WS.PageAt(envs[e], envs[e].second[i]) && pages[i] in pages;
        LeafTable(mm.M());
        PermsNext(s, e, pages, i, PRESENT);
        SetPagePermissions(e, WS.PageAt(envs[e], envs[e].second[i]), NONE, PRESENT);
      }
      assert pages[..|envs[e].second|] == pages;
    }

    /** The segment loop of env_create. */
    method LoadProgram(e: nat, A: nat, S: nat, prog: seq<ProgramSegment>, zeroPage: Block, ghost s0: Machine.State)
      returns (ghost junks: seq<Block>)
      requires mm.Valid() && A >= 1 && forall j :: 0 <= j < |prog| ==> SegmentOk(prog[j])
      requires CanLoad(s0, State(), e, Steps(Plans(prog, zeroPage, []), A + S - 1), A - 1)
      modifies this, mm
      ensures mm.Valid() && State() == LoadAll(old(State()), e, Steps(Plans(prog, zeroPage, junks), A + S - 1), A - 1)
    {
      hide CanLoad, LoadAll, DataOf, PhysicalMemory.Valid, Steps, Plans, Plan, SegmentSteps, SegmentNext, Around,
           SegmentOk, LoadCount, LoadedSoFar;
      ghost var s1 := State();
      ghost var pre: seq<Step> := [];
      junks := [];
      var remaining: nat := A + S - 1;
      NothingDone(prog, zeroPage, A + S - 1);
      LoadNothing(s1, e, A - 1);
      for j := 0 to |prog|
        invariant mm.Valid() && State() == LoadAll(s1, e, pre, A - 1)
        invariant LoadedSoFar(prog, zeroPage, junks, A + S - 1, j, pre, remaining)
        invariant CanLoad(s0, s1, e, pre + Steps(Plans(prog[j..], zeroPage, []), remaining), A - 1)
      {
        NextSegment(prog, zeroPage, j, pre, remaining);
        ghost var left := remaining - LoadCount(Plan(prog[j], zeroPage, ZeroBlock()), remaining);
        ghost var rest := Steps(Plans(prog[j + 1..], zeroPage, []), left);
        var k;
        ghost var junk;
        k, junk := LoadSegment(e, prog[j], zeroPage, remaining, A - 1, s0, s1, pre, rest);
        SegmentDone(prog, zeroPage, junks, A + S - 1, j, pre, remaining, junk);
        AroundRest(pre, prog[j], zeroPage, junk, remaining, rest);
        pre := pre + SegmentSteps(Plan(prog[j], zeroPage, junk), remaining);
        junks := junks + [junk];
        remaining := remaining - k;
      }
      AllDone(prog, zeroPage, junks, A + S - 1, pre, remaining);
    }

    method EnvCreate(e: nat, A: nat, S: nat, prog: seq<ProgramSegment>, zeroPage: Block)
      returns (ghost junks: seq<Block>)
      requires mm.Valid() && Inv(State()) && e !in envs && A >= 1
      requires |zeroPage| == NPTENTRIES && forall j :: 0 <= j < |prog| ==> SegmentOk(prog[j])
      requires ProgramOk(Steps(Plans(prog, zeroPage, []), A + S - 1))
      requires Covered(Steps(Plans(prog, zeroPage, []), A + S - 1))
      requires RoomToCreate(State(), e, A, S, Steps(Plans(prog, zeroPage, []), A + S - 1))
      modifies this, mm
      ensures mm.Valid() && Inv(State()) && KernelThere(e)
      ensures State() == Create(old(State()), e, A, S, Plans(prog, zeroPage, junks), zeroPage)
    {
      hide Inv, DataOf, PhysicalMemory.Valid, CanLoad, LoadAll, InitEnv, CleanAll, LoadPage, PfPut, HideSecond,
           RoomForFrame, RoomForFile, ProgramOk, Covered, DirsLoading, RoomToLoad, LoadedPages, Steps, Plans, SegmentOk,
           RoomToCreate, Create;
      ghost var s := State();
      CreateStart(s, e, A, S, Plans(prog, zeroPage, []));
      assert |mm.kernelDir| == NPTENTRIES by { KernelDirSize(); }
      CreateDirectory(e, A, S);
      junks := LoadProgram(e, A, S, prog, zeroPage, s);
      AnyJunk(s, e, A, S, prog, zeroPage, junks);
      ghost var segs, ops := Plans(prog, zeroPage, junks), Steps(Plans(prog, zeroPage, junks), A + S - 1);
      CreateLoaded(s, e, A, S, segs, ops);
      CleanLoaded(e);
      CreateCleaned(s, e, A, S, segs, ops);
      LoadOne(e, STACK_PAGE, ZeroBlock(), envs[e].A);
      CreateStacked(s, e, A, S, segs, ops);
      var code := PfAddEnvPage(e, STACK_PAGE, zeroPage);
      CreateHidden(s, e, A, S, segs, ops, zeroPage);
      HideSecondList(e);
      CreateInv(s, e, A, S, segs, zeroPage, map[]);
      KernelMapped(e);
    }

    /** Address by address: the directory of e has the kernel's entries from USER_TOP on, but for the two places where
        it has itself for a page table. */
    ghost predicate KernelThere(e: nat)
      reads this, mm
    {
      && e in envs && envs[e].dir < |mm.mem| && |mm.mem[envs[e].dir]| == |mm.kernelDir| == NPTENTRIES
      && forall va: nat :: 0xEEC0_0000 <= va < 0x1_0000_0000 ==>
           && Pdx(va) == va / 0x40_0000 < NPTENTRIES
           && var w := mm.mem[envs[e].dir][Pdx(va)];
              if 0xEFC0_0000 <= va < 0xF000_0000 then
                w == Word(true, true, false, false, false, false, false, 0, envs[e].dir)
              else if 0xEF40_0000 <= va < 0xEF80_0000 then
                w == Word(true, false, true, false, false, false, false, 0, envs[e].dir)
              else w == mm.kernelDir[Pdx(va)]
    }

    lemma KernelDirSize()
      requires mm.Valid()
      ensures |mm.kernelDir| == NPTENTRIES
    {
    }

    /** So it is for every environment after every operation: none of them leaves a state that is not Valid. */
    lemma KernelMapped(e: nat)
      requires mm.Valid() && Inv(State()) && e in envs
      ensures KernelThere(e)
    {
      hide Inv, MemOk, WordsOk, KernelHalf, DataOf, DirsLoading;
      DirsOf(State(), e);
      BlockLengths(mm.mem, mm.own, mm.leaf);
      KernelDirSize();
      forall va: nat | 0xEEC0_0000 <= va < 0x1_0000_0000
        ensures Pdx(va) == va / 0x40_0000 < NPTENTRIES
        ensures var w := mm.mem[envs[e].dir][Pdx(va)];
                if 0xEFC0_0000 <= va < 0xF000_0000 then
                  w == Word(true, true, false, false, false, false, false, 0, envs[e].dir)
                else if 0xEF40_0000 <= va < 0xEF80_0000 then
                  w == Word(true, false, true, false, false, false, false, 0, envs[e].dir)
                else w == mm.kernelDir[Pdx(va)]
      {
        KernelEntries(mm.mem, mm.own, mm.kernelDir, e, va);
        AddressRoundTrip(va);
      }
    }

    /** A user access to page v gets through exactly if the page is in ActiveList, and then ends at its frame. */
    lemma ReachesActive(e: nat, v: Vpn, f: Frame)
      requires mm.Valid() && Inv(State()) && e in envs && UserPage(v)
      ensures Reaches(mm.mem, envs[e].dir, v, f) <==>
                v in WS.ListsOf(envs[e]).active && Page(e, v) in mm.own && mm.own[Page(e, v)] == f
    {
      hide Inv, MemOk, WordsOk, KernelHalf, DataOf, DirsLoading, WS.ListsOf;
      DirsOf(State(), e);
      ReachesIff(mm.mem, mm.M(), e, v, f);
      ActiveBits(State(), e, v);
    }

    // ---------- the loops of kern/memory_manager.c over ranges of pages ----------

    method AllocateMem(e: nat, virtualAddress: nat, size: nat)
      requires mm.Valid() && HasDirs(e) && ZERO !in dfree
      requires virtualAddress / 4096 + PagesFor(size) <= USER_PDX * 1024
      requires RoomForRange(State(), e, virtualAddress / 4096, PagesFor(size))
      modifies this`envs, this`dfree, mm
      ensures mm.Valid() && State() == AllocRange(old(State()), e, virtualAddress / 4096, PagesFor(size))
    {
      hide DataOf, DirsLoading, PhysicalMemory.Valid, PfAdd, RoomForRange, CanHaveTable, DiskDir, Nth, PageOf;
      ghost var s, p := State(), virtualAddress / 4096;
      var num := size / PAGE_SIZE;
      if size % PAGE_SIZE != 0 {
        num := num + 1;
      }
      assert num == PagesFor(size);
      var va := virtualAddress;
      for i := 0 to num
        invariant mm.Valid() && HasDirs(e) && ZERO !in dfree && va == virtualAddress + i * 4096
        invariant State() == AllocRange(s, e, p, i)
      {
        AddressOf(virtualAddress, i);
        RoomAt(s, e, p, num, i);
        StillNonzero(State(), e, Nth(p + i));
        var r := PfAddEmptyEnvPage(e, PageOf(va));
        va := va + PAGE_SIZE;
      }
    }

    // ---------- freeMem ----------

    /** The branch of freeMem for a page of ActiveList: its element is unlinked, and the head of SecondList moves to
        the tail of ActiveList. */
    method ForgetActive(e: nat, v: Vpn, i: nat)
      requires mm.Valid() && HasDirs(e) && i < |envs[e].active| && UserPage(v)
      requires envs[e].second != [] ==>
                 var u := WS.PageAt(envs[e], envs[e].second[0]); UserPage(u) && (Ram(e), u) in mm.leaf
      modifies this`envs, mm
      ensures mm.Valid() && HasDirs(e) && e in old(envs) && i < |old(envs)[e].active|
      ensures State() == SetEnv(Unmap(ShowHead(old(State()), e, old(envs)[e]), e, v), e, WS.DropActive(old(envs)[e], i))
    {
      hide MemOk, WordsOk, DataOf, DirsLoading, SetPerms, Unmapped, WS.DropActive;
      ghost var env := envs[e];
      var moved, head := UnlinkActive(e, i);
      assert HasDirs(e) by { SameDirs(mm.M(), e, env, envs[e]); }
      if moved {
        LeafTable(mm.M());
        SetPagePermissions(e, WS.PageAt(envs[e], head), PUW, NONE);
      }
      UnmapPage(e, v);
    }

    /** The list updates of that branch. */
    method UnlinkActive(e: nat, i: nat) returns (moved: bool, head: nat)
      requires e in envs && i < |envs[e].active|
      modifies this`envs
      ensures e in old(envs) && i < |old(envs)[e].active| && envs == old(envs)[e := WS.DropActive(old(envs)[e], i)]
      ensures envs[e].va == old(envs)[e].va && envs[e].dir == old(envs)[e].dir && envs[e].ddir == old(envs)[e].ddir
      ensures moved <==> old(envs)[e].second != []
      ensures moved ==> head == old(envs)[e].second[0]
    {
      envs := envs[e := envs[e].(active := envs[e].active[..i] + envs[e].active[i + 1..])];
      moved, head := |envs[e].second| > 0, 0;
      if moved {
        head := envs[e].second[0];
        envs := envs[e := envs[e].(second := envs[e].second[1..])];
        envs := envs[e := envs[e].(active := envs[e].active + [head])];
      }
    }

    /** The branch for a page of SecondList: its element is free again. */
    method ForgetSecond(e: nat, v: Vpn, j: nat)
      requires mm.Valid() && HasDirs(e) && j < |envs[e].second| && UserPage(v)
      modifies this`envs, mm
      ensures mm.Valid() && HasDirs(e) && e in old(envs) && j < |old(envs)[e].second|
      ensures State() == SetEnv(Unmap(old(State()), e, v), e, WS.DropSecond(old(envs)[e], j))
    {
      hide MemOk, WordsOk, DataOf, DirsLoading, Unmapped;
      ghost var env := envs[e];
      var x := envs[e].second[j];
      envs := envs[e := envs[e].(second := envs[e].second[..j] + envs[e].second[j + 1..])];
      envs := envs[e := envs[e].(work := [x] + envs[e].work)];
      assert HasDirs(e) by { SameDirs(mm.M(), e, env, envs[e]); }
      UnmapPage(e, v);
    }

    /** One round of the first loop of freeMem.  SecondList is searched anew for every element of ActiveList, until the
        page is found. */
    method FreeMemPage(e: nat, v: Vpn)
      requires mm.Valid() && Inv(State()) && e in envs && UserPage(v)
      modifies this`envs, this`dfree, mm
      ensures mm.Valid() && State() == FreePage(old(State()), e, v) && Inv(State()) && e in envs
    {
      hide Inv, DataOf, MemOk, WordsOk, DirsLoading, PfRemove, Unmap, ShowHead, WS.DropActive, WS.DropSecond,
           WS.ListsOf, PhysicalMemory.Valid;
      ghost var s, env := State(), envs[e];
      FreeStart(s, e, v);
      PfRemoveEnvPage(e, v);
      var found, i := false, 0;
      while i < |envs[e].active| && !found
        invariant mm.Valid() && i <= |env.active|
        invariant !found ==> State() == PfRemove(s, e, v) && HasDirs(e)
        invariant !found ==> (forall k :: 0 <= k < i ==> WS.PageAt(env, env.active[k]) != v)
                             && (i > 0 ==> WS.Find(env, env.second, v) == |env.second|)
        invariant found ==> State() == FreePage(s, e, v) && e in envs
        decreases |env.active| - i, if found then 0 else 1
      {
        if WS.PageAt(envs[e], envs[e].active[i]) == v {
          FoundActive(s, e, v, i);
          ForgetActive(e, v, i);
          found := true;
        } else {
          var j := 0;
          while j < |envs[e].second| && WS.PageAt(envs[e], envs[e].second[j]) != v
            invariant j <= |env.second| && forall k :: 0 <= k < j ==> WS.PageAt(env, env.second[k]) != v
          {
            j := j + 1;
          }
          FindAt(env, v, j);
          if j < |envs[e].second| {
            FoundSecond(s, e, v, j);
            ForgetSecond(e, v, j);
            found := true;
          } else {
            i := i + 1;
          }
        }
      }
      if !found {
        FoundNowhere(s, e, v);
      }
      FreePageInv(s, e, v, map[]);
    }

    /** freeMem, for a page-aligned address: the pages, and then the tables that became empty. */
    method FreeMem(e: nat, virtualAddress: nat, size: nat)
      requires mm.Valid() && Inv(State()) && e in envs && virtualAddress + size < USER_PDX * 0x40_0000
      modifies this`envs, this`dfree, mm
      ensures mm.Valid() && Base(State()) && e in envs
      ensures var s, p, n, k := old(State()), virtualAddress / 4096, PagesFor(size), size / 0x40_0000 + 1;
              if virtualAddress % PAGE_SIZE == 0 then State() == Freeing.FreeMem(s, e, p, n, k) && Inv(State())
              else
                && State() == FreeInside(s, e, p, n, k)
                && (Inv(State()) <==> forall v :: Inside(v, p, n) ==> v !in WS.Pages(s.envs[e]))
    {
      hide Inv, DataOf, DirsLoading, PhysicalMemory.Valid, FreePages, RemoveRange, DropEmpties, Base, Inside,
           WS.ListsOf;
      ghost var s, p := State(), virtualAddress / 4096;
      FreePagesOf(e, virtualAddress, size);
      FreeEmptyTables(e, virtualAddress, size);
      if virtualAddress % PAGE_SIZE == 0 {
        FreeMemInv(s, e, p, PagesFor(size), size / 0x40_0000 + 1, map[]);
      } else {
        FreeInsideIff(s, e, p, PagesFor(size), size / 0x40_0000 + 1);
      }
    }

    /** The first loop.  An address inside a page is not that of any element, so that the searches of the lists then
        find
        nothing. */
    method FreePagesOf(e: nat, virtualAddress: nat, size: nat)
      requires mm.Valid() && Inv(State()) && e in envs && virtualAddress + size < USER_PDX * 0x40_0000
      modifies this`envs, this`dfree, mm
      ensures mm.Valid() && Base(State()) && HasDirs(e)
      ensures var s, p, n := old(State()), virtualAddress / 4096, PagesFor(size);
              State() == if virtualAddress % PAGE_SIZE == 0 then FreePages(s, e, p, n) else RemoveRange(s, e, p, n)
    {
      hide Inv, DataOf, DirsLoading, PhysicalMemory.Valid, FreePage, PfRemove, Nth, PageOf, Base;
      ghost var s, p := State(), virtualAddress / 4096;
      BaseOf(s);
      var aligned := virtualAddress % PAGE_SIZE == 0;
      var nPages := (size + PAGE_SIZE - 1) / PAGE_SIZE;
      var va := virtualAddress;
      FirstState(s, e);
      for i := 0 to nPages
        invariant mm.Valid() && Base(State()) && HasDirs(e) && va == virtualAddress + i * 4096
        invariant aligned ==> Inv(State()) && State() == FreePages(s, e, p, i)
        invariant !aligned ==> State() == RemoveRange(s, e, p, i)
      {
        AddressOf(virtualAddress, i);
        RangeUser(virtualAddress, size, i);
        if aligned {
          FreeMemPage(e, PageOf(va));
          FirstState(State(), e);
          BaseOf(State());
        } else {
          ghost var t := State();
          PfRemoveEnvPage(e, PageOf(va));
          RemoveBase(t, e, PageOf(va));
        }
        va := va + PAGE_SIZE;
      }
    }

    /** The second loop. */
    method FreeEmptyTables(e: nat, virtualAddress: nat, size: nat)
      requires mm.Valid() && Base(State()) && HasDirs(e) && virtualAddress + size < USER_PDX * 0x40_0000
      modifies mm
      ensures mm.Valid() && Base(State()) && HasDirs(e)
      ensures State() == DropEmpties(old(State()), e, virtualAddress / 4096 / 1024, size / 0x40_0000 + 1)
    {
      hide DataOf, DirsLoading, PhysicalMemory.Valid, DropEmpty, Base;
      ghost var s := State();
      var va, end, c := virtualAddress, virtualAddress + size, 0;
      while va <= end
        invariant mm.Valid() && Base(State()) && HasDirs(e) && va == virtualAddress + c * 0x40_0000
        invariant State() == DropEmpties(s, e, virtualAddress / 4096 / 1024, c) && c <= size / 0x40_0000 + 1
        decreases end + 0x40_0000 - va
      {
        EntryOf(virtualAddress, size, c);
        DropTableIfEmpty(e, Pdx(va));
        va := va + PAGE_SIZE * 1024;
        c := c + 1;
      }
      assert c == size / 0x40_0000 + 1;
    }

    method DropTableIfEmpty(e: nat, d: nat)
      requires mm.Valid() && Base(State()) && HasDirs(e) && d < USER_PDX
      modifies mm
      ensures mm.Valid() && Base(State()) && HasDirs(e) && State() == DropEmpty(old(State()), e, d)
    {
      hide Base, DataOf, DirsLoading, MemOk, WordsOk, Release, EmptyTable;
      ghost var s, mem, own := State(), mm.mem, mm.own;
      RamDir(mm.M(), e, envs[e]);
      OneTable(mm.M());
      mm.DropEmptyTable(envs[e].dir, d, e);
      DirectoryWritten(mem, own, mm.mem, Ram(e), d);
      DroppedState(s, e, d);
    }
  }
}

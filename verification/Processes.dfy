/** process.cpp and the page mapping of elf_loader.cpp: address spaces are made of pages and
    frames of the kernel, and taken down again. */
module Processes {
  import opened PagingSpec
  import opened ProcessSpec
  import opened Paging

  ghost function Now(pg: Pager): Snap
    reads pg, pg.phys
  {
    Snap(pg.phys[..], pg.owner, pg.stale)
  }

  /** Frames that are free, and pages that allocate_page can find. */
  ghost function Left(pg: Pager): Budget
    requires Paged(pg.phys[..])
    reads pg, pg.bits, pg.phys
  {
    Budget(FreeFrames(pg.bits[..]), FreePages(pg.phys[..]))
  }

  /** An address space is being made, next to pages of others that are to be kept. */
  ghost predicate Building(pg: Pager, s: Space, keep: set<int>)
    reads pg, pg.bits, pg.phys
  {
    && pg.Valid() && SharedMapped(pg.phys[..]) && SpaceOk(Now(pg), s)
    && (forall v :: v in keep ==> Held(Now(pg), v) && !Uses(s, v))
  }

  /** A page for a directory or a table: one that nobody uses. */
  method NewPage(pg: Pager, ghost keep: set<int>) returns (v: nat)
    requires pg.Valid()
    modifies pg, pg.bits, pg.phys
    ensures pg.panicked <==> Short(old(Left(pg)), 1, 1)
    ensures !pg.panicked ==>
      && pg.Valid() && Held(Now(pg), v) && !Held(old(Now(pg)), v) && pg.stale == old(pg.stale)
      && Keeps(old(Now(pg)), Now(pg), keep)
    ensures !pg.panicked ==> UserPage(v) && pg.Valid() && Spent(old(Left(pg)), Left(pg), 1, 1)
  {
    hide DirOk, Owned, Keeps, Taken, Grown;
    ghost var a, b := Now(pg), pg.bits[..];
    NoneFreeCounts(b);
    NoneUnmappedCounts(a.mem);
    v := pg.AllocateUserPage();
    if !pg.panicked {
      ghost var a', b' := Now(pg), pg.bits[..];
      PageTaken(a, b, a', b', v, keep);
      TakenCounts(a.mem, b, a.owner, a'.mem, b', a'.owner, v);
    }
  }

  /** Entry j of the directory or table at page v becomes x. */
  method Write(pg: Pager, v: nat, j: nat, x: int, ghost keep: set<int>)
    requires pg.Valid() && Held(Now(pg), v) && j < ENTRIES && v !in keep
    modifies pg.phys
    ensures pg.Valid() && Held(Now(pg), v) && Keeps(old(Now(pg)), Now(pg), keep)
    ensures pg.phys[DIR] == old(pg.phys[DIR])
    ensures SameWalks(old(pg.phys[..]), pg.phys[..]) && Left(pg) == old(Left(pg))
    ensures forall k :: 0 <= k < ENTRIES ==>
      Entry(pg.phys[..], v, k) == if k == j then x else old(Entry(pg.phys[..], v, k))
  {
    ghost var a, b := Now(pg), pg.bits[..];
    var f := FrameOf(pg, v);
    pg.phys[f] := pg.phys[f][j := x];
    ghost var m' := pg.phys[..];
    WrittenFacts(a, b, pg.next, m', v, j, x);
    UnmappedSame(a.mem, m', USER_TABLES * ENTRIES);
  }

  /** The frame that the kernel maps page v to, looked up in its tables. */
  method FrameOf(pg: Pager, v: nat) returns (f: nat)
    requires pg.Valid() && Held(Now(pg), v)
    ensures f == Walk(pg.phys[..], v) && LOCKED <= f < pg.phys.Length
  {
    WalksInjective(pg.phys[..], pg.bits[..], pg.owner, pg.stale, v, v);
    f := pg.phys[pg.phys[DIR][v / 1024]][v % 1024];
  }

  /** All entries of a table get frames of their own. */
  method Fill(pg: Pager, vt: nat, ghost keep: set<int>)
    requires pg.Valid() && Held(Now(pg), vt) && vt !in keep
    modifies pg, pg.bits, pg.phys
    ensures pg.panicked <==> Short(old(Left(pg)), 1024, 0)
    ensures !pg.panicked ==>
      && pg.Valid() && Held(Now(pg), vt) && TableOk(Now(pg), vt, ENTRIES) && pg.stale == old(pg.stale)
      && Keeps(old(Now(pg)), Now(pg), keep)
      && forall j :: 0 <= j < ENTRIES ==> Entry(pg.phys[..], vt, j) != UNMAPPED
    ensures !pg.panicked ==> pg.Valid() && Spent(old(Left(pg)), Left(pg), 1024, 0)
  {
    ghost var a := Now(pg);
    KeepsSame(a, keep);
    hide DirOk, Owned, Keeps, Walk, FreePages, FreeFrames;
    for j := 0 to ENTRIES
      invariant pg.Valid() && Held(Now(pg), vt) && TableOk(Now(pg), vt, j) && pg.stale == a.stale
      invariant Keeps(a, Now(pg), keep) && Spent(old(Left(pg)), Left(pg), j, 0)
      invariant forall k :: 0 <= k < j ==> Entry(pg.phys[..], vt, k) != UNMAPPED
    {
      ghost var c := Now(pg);
      GiveFrame(pg, vt, j, keep);
      if pg.panicked {
        return;
      }
      ghost var d := Now(pg);
      KeepsOn(a, c, d, keep);
    }
  }

  /** Entry j of table vt gets the least free frame. */
  method GiveFrame(pg: Pager, vt: nat, j: nat, ghost keep: set<int>)
    requires pg.Valid() && Held(Now(pg), vt) && vt !in keep && j < ENTRIES
    modifies pg, pg.bits, pg.phys
    ensures pg.panicked <==> Short(old(Left(pg)), 1, 0)
    ensures !pg.panicked ==>
      && pg.Valid() && Held(Now(pg), vt) && Keeps(old(Now(pg)), Now(pg), keep) && pg.stale == old(pg.stale)
      && EntryOk(Now(pg), vt, j) && Entry(pg.phys[..], vt, j) != UNMAPPED
      && forall k :: 0 <= k < ENTRIES && k != j ==>
        && Entry(pg.phys[..], vt, k) == old(Entry(pg.phys[..], vt, k))
        && (old(EntryOk(Now(pg), vt, k)) ==> EntryOk(Now(pg), vt, k))
    ensures !pg.panicked ==> pg.Valid() && Spent(old(Left(pg)), Left(pg), 1, 0)
  {
    hide DirOk, Owned, Keeps, Walk, FreeFrames, FreePages;
    ghost var a, b := Now(pg), pg.bits[..];
    NoneFreeCounts(b);
    var f := pg.AllocateFrame();
    if pg.panicked {
      return;
    }
    FrameTaken(a, b, f, keep);
    FreeFramesUpdate(b, f, true);
    ghost var a1 := Now(pg);
    Write(pg, vt, j, f, keep);
    ghost var a2 := Now(pg);
    FrameGiven(a2, pg.bits[..], vt, j, f, keep);
    pg.owner := pg.owner[f := UserEntry(vt, j)];
    ghost var a3 := Now(pg);
    KeepsOn(a, a1, a2, keep);
    KeepsOn(a, a2, a3, keep);
  }

  // ---------- allocate_page_dir ----------

  /** Pages that others hold, and the kernel's part of every directory. */
  ghost predicate Ready(pg: Pager, keep: set<int>)
    reads pg, pg.bits, pg.phys
  {
    pg.Valid() && SharedMapped(pg.phys[..]) && forall v :: v in keep ==> Held(Now(pg), v)
  }

  /** The page directory of a new process: the kernel's tables, and none of its own yet. */
  method AllocatePageDir(pg: Pager, ghost keep: set<int>) returns (s: Space)
    requires Ready(pg, keep)
    modifies pg, pg.bits, pg.phys
    ensures pg.panicked <==> Short(old(Left(pg)), 1, 1)
    ensures !pg.panicked ==>
      && Building(pg, s, keep) && s.tables == [] && Keeps(old(Now(pg)), Now(pg), keep) && pg.stale == old(pg.stale)
    ensures !pg.panicked ==> pg.Valid() && SeesKernel(pg.phys[..], s) && KernelSame(old(pg.phys[..]), pg.phys[..])
    ensures !pg.panicked ==> pg.Valid() && Spent(old(Left(pg)), Left(pg), 1, 1)
  {
    hide SeesKernel;
    ghost var a := Now(pg);
    var v := NewPage(pg, keep);
    s := Space(v, []);
    if pg.panicked {
      return;
    }
    ghost var b := Now(pg);
    SetUpDirectory(pg, v, keep);
    ghost var c := Now(pg);
    KeepsOn(a, b, c, keep);
    KernelSeen(c, s);
  }

  method SetUpDirectory(pg: Pager, v: nat, ghost keep: set<int>)
    requires pg.Valid() && Held(Now(pg), v) && v !in keep
    modifies pg.phys
    ensures pg.Valid() && Held(Now(pg), v) && Keeps(old(Now(pg)), Now(pg), keep) && pg.phys[DIR] == old(pg.phys[DIR])
    ensures Left(pg) == old(Left(pg))
    ensures forall k :: 0 <= k < ENTRIES ==>
      Entry(pg.phys[..], v, k) == if Shared(k) then pg.phys[DIR][k] else UNMAPPED
  {
    ghost var a := Now(pg);
    KeepsSame(a, keep);
    hide Owned, Keeps, Walk, Entry, FreePages, FreeFrames, DirOk;
    ClearEntries(pg, a, v, keep);
    EnterPresets(pg, a, v, keep);
    CopyTables(pg, a, v, KERNEL_HEAP_START, KERNEL_HEAP_END, keep);
    CopyTables(pg, a, v, FS_START, FS_END, keep);
  }

  /** The new directory maps nothing behind its first entry. */
  method ClearEntries(pg: Pager, ghost a: Snap, v: nat, ghost keep: set<int>)
    requires Paged(a.mem) && Step(pg, a, v, keep)
    modifies pg.phys
    ensures Step(pg, a, v, keep) && Left(pg) == old(Left(pg))
    ensures forall k :: 1 <= k < ENTRIES ==> Entry(pg.phys[..], v, k) == UNMAPPED
  {
    hide Owned, Keeps, Walk, Entry, FreePages, FreeFrames;
    for i := 1 to ENTRIES
      invariant Step(pg, a, v, keep) && Left(pg) == old(Left(pg))
      invariant forall k :: 1 <= k < i ==> Entry(pg.phys[..], v, k) == UNMAPPED
    {
      WriteOn(pg, a, v, i, UNMAPPED, keep);
    }
  }

  method EnterPresets(pg: Pager, ghost a: Snap, v: nat, ghost keep: set<int>)
    requires Paged(a.mem) && Step(pg, a, v, keep)
    modifies pg.phys
    ensures Step(pg, a, v, keep) && Left(pg) == old(Left(pg))
    ensures forall k :: 0 <= k < ENTRIES ==>
      Entry(pg.phys[..], v, k) == if Preset(k) then pg.phys[DIR][k] else old(Entry(pg.phys[..], v, k))
  {
    hide Owned, Keeps, Walk, Entry, FreePages, FreeFrames;
    WriteOn(pg, a, v, 0, TABLE_0, keep);
    WriteOn(pg, a, v, 1, TABLE_1, keep);
    WriteOn(pg, a, v, 768, TABLE_768, keep);
  }

  /** The kernel's tables `from` to `to` are entered in the directory. */
  method CopyTables(pg: Pager, ghost a: Snap, v: nat, from: nat, to: nat, ghost keep: set<int>)
    requires Paged(a.mem) && Step(pg, a, v, keep) && from <= to < ENTRIES
    modifies pg.phys
    ensures Step(pg, a, v, keep) && Left(pg) == old(Left(pg))
    ensures forall k :: 0 <= k < ENTRIES ==>
      Entry(pg.phys[..], v, k) == if from <= k <= to then pg.phys[DIR][k] else old(Entry(pg.phys[..], v, k))
  {
    hide Owned, Keeps, Walk, Entry, FreePages, FreeFrames;
    ghost var m := pg.phys[..];
    for i := from to to + 1
      invariant Step(pg, a, v, keep) && Left(pg) == old(Left(pg))
      invariant forall k :: 0 <= k < ENTRIES ==>
        Entry(pg.phys[..], v, k) == if from <= k < i then pg.phys[DIR][k] else Entry(m, v, k)
    {
      WriteOn(pg, a, v, i, pg.phys[DIR][i], keep);
    }
  }

  /** Since a, only the page v has been written. */
  ghost predicate Step(pg: Pager, a: Snap, v: int, keep: set<int>)
    requires Paged(a.mem)
    reads pg, pg.bits, pg.phys
  {
    pg.Valid() && Held(Now(pg), v) && v !in keep && Keeps(a, Now(pg), keep) && pg.phys[..][DIR] == a.mem[DIR]
  }

  method WriteOn(pg: Pager, ghost a: Snap, v: nat, j: nat, x: int, ghost keep: set<int>)
    requires Paged(a.mem) && Step(pg, a, v, keep) && j < ENTRIES
    modifies pg.phys
    ensures Step(pg, a, v, keep) && SameWalks(old(pg.phys[..]), pg.phys[..]) && Left(pg) == old(Left(pg))
    ensures forall k :: 0 <= k < ENTRIES ==>
      Entry(pg.phys[..], v, k) == if k == j then x else old(Entry(pg.phys[..], v, k))
  {
    hide DirOk, Owned, Keeps, Walk, Entry;
    ghost var b := Now(pg);
    Write(pg, v, j, x, keep);
    ghost var c := Now(pg);
    KeepsOn(a, b, c, keep);
  }

  // ---------- allocate_stack_page and allocate_heap_pages ----------

  /** A table, all of whose pages have frames, becomes table i of the process. */
  method AddFullTable(pg: Pager, s: Space, i: nat, ghost keep: set<int>) returns (t: Space)
    requires Building(pg, s, keep) && i < ENTRIES && !Shared(i)
    modifies pg, pg.bits, pg.phys
    ensures pg.panicked <==> Short(old(Left(pg)), 1025, 1)
    ensures !pg.panicked ==>
      && Building(pg, t, keep) && Keeps(old(Now(pg)), Now(pg), keep)
      && pg.stale == old(pg.stale)
      && t.dir == s.dir && |t.tables| == |s.tables| + 1 && t.tables[..|s.tables|] == s.tables
      && StillMaps(old(pg.phys[..]), s, pg.phys[..], t, {i}) && FullTable(pg.phys[..], t, i)
    ensures !pg.panicked ==> pg.Valid() && Spent(old(Left(pg)), Left(pg), 1025, 1)
  {
    hide DirOk, Owned, Keeps, Walk, SpaceOk, Entry, TableOk, StillMaps, Maps;
    ghost var mine := keep + PagesOf(s);
    ghost var a := Now(pg);
    SpaceHolds(a, s);
    var v := NewPage(pg, mine);
    t := s.(tables := s.tables + [v]);
    if pg.panicked {
      return;
    }
    ghost var b := Now(pg);
    Fill(pg, v, mine);
    if pg.panicked {
      return;
    }
    ghost var c := Now(pg);
    KeepsOn(a, b, c, mine);
    SpaceKept(a, c, mine, s);
    TranslateKept(a, c, mine, s);
    Enter(pg, s, v, i, keep, a);
    StillMapsOn(a.mem, s, c.mem, s, pg.phys[..], t, {}, {i});
    assert {} + {i as int} == {i as int};
  }

  /** The table at page v is entered in the directory. */
  method Enter(pg: Pager, s: Space, v: nat, i: nat, ghost keep: set<int>, ghost a: Snap)
    requires Paged(a.mem) && SharedMapped(a.mem) && (forall w :: w in keep ==> Held(a, w) && !Uses(s, w)) && v !in keep
    requires pg.Valid() && Keeps(a, Now(pg), keep + PagesOf(s))
    requires SpaceOk(Now(pg), s) && i < ENTRIES && !Shared(i)
    requires !Uses(s, v) && Held(Now(pg), v) && TableOk(Now(pg), v, ENTRIES)
    modifies pg.phys
    ensures Building(pg, s.(tables := s.tables + [v]), keep) && Keeps(a, Now(pg), keep)
    ensures Entry(pg.phys[..], s.dir, i) == Walk(pg.phys[..], v) && Left(pg) == old(Left(pg))
    ensures StillMaps(old(pg.phys[..]), s, pg.phys[..], s.(tables := s.tables + [v]), {i})
    ensures forall p ::
      i * ENTRIES <= p < i * ENTRIES + ENTRIES && old(Entry(pg.phys[..], v, p - i * ENTRIES)) != UNMAPPED ==>
      Maps(pg.phys[..], s.(tables := s.tables + [v]), p)
  {
    hide DirOk, Owned, Walk, StillMaps, Maps;
    ghost var c := Now(pg);
    SpaceHolds(c, s);
    var f := FrameOf(pg, v);
    ghost var others := keep + PagesOf(s) + {v as int} - {s.dir as int};
    Write(pg, s.dir, i, f, others);
    ghost var d := Now(pg);
    assert PageKept(c, d, v);
    TableEntered(c, d, s, v, i);
    TranslateEntered(c, d, s, v, i);
    KeepsLess(a, c, keep + PagesOf(s), keep);
    KeepsLess(c, d, others, keep);
    KeepsOn(a, c, d, keep);
    KeptHeld(a, d, keep);
  }

  /** The stack has a whole table, below the kernel. */
  method AllocateStackPage(pg: Pager, s: Space, ghost keep: set<int>) returns (t: Space)
    requires Building(pg, s, keep)
    modifies pg, pg.bits, pg.phys
    ensures pg.panicked <==> Short(old(Left(pg)), 1025, 1)
    ensures !pg.panicked ==>
      && Building(pg, t, keep) && Keeps(old(Now(pg)), Now(pg), keep) && pg.stale == old(pg.stale)
      && t.dir == s.dir && s.tables <= t.tables
      && StillMaps(old(pg.phys[..]), s, pg.phys[..], t, {STACK_TABLE}) && FullTable(pg.phys[..], t, STACK_TABLE)
    ensures !pg.panicked ==> pg.Valid() && Spent(old(Left(pg)), Left(pg), 1025, 1)
  {
    t := AddFullTable(pg, s, STACK_TABLE, keep);
  }

  function HeapTables(i: int): (r: set<int>)
    ensures forall k :: k in r <==> HEAP_TABLES_START <= k < i
    decreases i - HEAP_TABLES_START
  {
    if i <= HEAP_TABLES_START then {} else HeapTables(i - 1) + {i - 1}
  }

  /** The heap has whole tables too, one more than its size asks for. */
  method AllocateHeapPages(pg: Pager, s: Space, ghost keep: set<int>) returns (t: Space)
    requires Building(pg, s, keep)
    modifies pg, pg.bits, pg.phys
    ensures pg.panicked <==> Short(old(Left(pg)), 3 * 1025, 3)
    ensures !pg.panicked ==>
      && Building(pg, t, keep) && Keeps(old(Now(pg)), Now(pg), keep) && pg.stale == old(pg.stale)
      && t.dir == s.dir && s.tables <= t.tables
      && StillMaps(old(pg.phys[..]), s, pg.phys[..], t, HeapTables(HEAP_TABLES_END + 1))
      && forall i :: HEAP_TABLES_START <= i <= HEAP_TABLES_END ==> FullTable(pg.phys[..], t, i)
    ensures !pg.panicked ==> pg.Valid() && Spent(old(Left(pg)), Left(pg), 3 * 1025, 3)
  {
    hide Building, Keeps, Held, StillMaps, FullTable;
    ghost var a := Now(pg);
    BuildingPaged(pg, s, keep);
    KeepsSame(a, keep);
    MapsSame(a.mem, s);
    t := s;
    for i := HEAP_TABLES_START to HEAP_TABLES_END + 1
      invariant Building(pg, t, keep) && pg.Valid() && Keeps(a, Now(pg), keep) && pg.stale == a.stale
      invariant t.dir == s.dir && s.tables <= t.tables
      invariant Spent(old(Left(pg)), Left(pg), 1025 * (i - HEAP_TABLES_START), i - HEAP_TABLES_START)
      invariant StillMaps(a.mem, s, pg.phys[..], t, HeapTables(i))
      invariant forall k :: HEAP_TABLES_START <= k < i ==> FullTable(pg.phys[..], t, k)
    {
      t := AddHeapTable(pg, t, i, keep, a, s);
      if pg.panicked {
        return;
      }
    }
  }

  lemma MapsSame(m: Mem, s: Space)
    requires Paged(m)
    ensures StillMaps(m, s, m, s, {}) && HeapTables(HEAP_TABLES_START) == {}
  {
    assert StillMaps(m, s, m, s, HeapTables(HEAP_TABLES_START));
  }

  method AddHeapTable(pg: Pager, s: Space, i: nat, ghost keep: set<int>, ghost a: Snap,
                      ghost r: Space) returns (t: Space)
    requires Building(pg, s, keep) && Paged(a.mem) && Keeps(a, Now(pg), keep)
    requires HEAP_TABLES_START <= i <= HEAP_TABLES_END
    requires StillMaps(a.mem, r, pg.phys[..], s, HeapTables(i))
    requires forall k :: HEAP_TABLES_START <= k < i ==> FullTable(pg.phys[..], s, k)
    modifies pg, pg.bits, pg.phys
    ensures pg.panicked <==> Short(old(Left(pg)), 1025, 1)
    ensures !pg.panicked ==>
      && Building(pg, t, keep) && pg.Valid() && Keeps(a, Now(pg), keep) && pg.stale == old(pg.stale)
      && t.dir == s.dir && s.tables <= t.tables
      && StillMaps(a.mem, r, pg.phys[..], t, HeapTables(i + 1))
      && forall k :: HEAP_TABLES_START <= k <= i ==> FullTable(pg.phys[..], t, k)
    ensures !pg.panicked ==> pg.Valid() && Spent(old(Left(pg)), Left(pg), 1025, 1)
  {
    hide Building, Keeps, Held, StillMaps, FullTable;
    BuildingPaged(pg, s, keep);
    ghost var b := Now(pg);
    t := AddFullTable(pg, s, i, keep);
    if pg.panicked {
      return;
    }
    BuildingPaged(pg, t, keep);
    ghost var c := Now(pg);
    KeepsOn(a, b, c, keep);
    StillMapsOn(a.mem, r, b.mem, s, c.mem, t, HeapTables(i), {i});
    assert HeapTables(i) + {i as int} == HeapTables(i + 1);
    forall k | HEAP_TABLES_START <= k < i ensures FullTable(c.mem, t, k) {
      FullTableKept(b.mem, s, c.mem, t, {i}, k);
    }
  }

  // ---------- the segments of an ELF file ----------

  /** A page of a segment: entry j of table vt gets the frame of a new page of the kernel. */
  method AddDataPage(pg: Pager, s: Space, vt: nat, j: nat, ghost keep: set<int>) returns (va: nat)
    requires Building(pg, s, keep) && vt in s.tables && j < ENTRIES
    modifies pg, pg.bits, pg.phys
    ensures pg.panicked <==> Short(old(Left(pg)), 1, 1)
    ensures !pg.panicked ==>
      && Building(pg, s, keep) && Keeps(old(Now(pg)), Now(pg), keep)
      && va !in old(pg.stale) && pg.stale == old(pg.stale) + {va as int}
      && SameDirectory(old(pg.phys[..]), pg.phys[..], s) && StillMaps(old(pg.phys[..]), s, pg.phys[..], s, {})
      && Entry(pg.phys[..], vt, j) != UNMAPPED
      && forall k :: 0 <= k < ENTRIES && k != j ==> Entry(pg.phys[..], vt, k) == old(Entry(pg.phys[..], vt, k))
    ensures !pg.panicked ==> UserPage(va) && pg.Valid() && Spent(old(Left(pg)), Left(pg), 1, 1)
  {
    hide DirOk, Owned, Keeps, Walk, SpaceOk, Entry, TableOk, StillMaps, Maps, SameDirectory;
    ghost var mine := keep + PagesOf(s);
    ghost var a := Now(pg);
    SpaceHolds(a, s);
    va := NewPage(pg, mine);
    if pg.panicked {
      return;
    }
    ghost var b := Now(pg);
    SpaceKept(a, b, mine, s);
    KeptHeld(a, b, mine);
    var f := FrameOf(pg, va);
    SpaceHolds(b, s);
    Write(pg, vt, j, f, mine - {vt as int});
    ghost var c, bits := Now(pg), pg.bits[..];
    DataGiven(b, bits, c, s, vt, j, va, keep);
    pg.owner := Losing(c.owner, Entry(b.mem, vt, j))[f := UserEntry(vt, j)];
    pg.stale := pg.stale + {va as int};
    ghost var d := Now(pg);
    PageAdded(a, b, d, s, vt, j, mine);
    KeepsLess(a, b, mine, keep);
    KeepsOn(a, b, d, keep);
    KeptHeld(a, d, keep);
  }

  /** The kernel's mapping of a page that was handed over goes away. */
  method UnmapData(pg: Pager, s: Space, va: nat, ghost keep: set<int>)
    requires Building(pg, s, keep) && va in pg.stale && UserPage(va)
    modifies pg`stale, pg.phys
    ensures Building(pg, s, keep) && Keeps(old(Now(pg)), Now(pg), keep) && pg.stale == old(pg.stale) - {va as int}
    ensures Spent(old(Left(pg)), Left(pg), 0, -1)
    ensures SameDirectory(old(pg.phys[..]), pg.phys[..], s) && StillMaps(old(pg.phys[..]), s, pg.phys[..], s, {})
  {
    hide DirOk, Keeps, SpaceOk, Entry, TableOk, StillMaps, Maps, SameDirectory;
    ghost var a, b := Now(pg), pg.bits[..];
    ghost var mine := keep + PagesOf(s);
    pg.SetEntry(va / 1024, va % 1024, UNMAPPED);
    ghost var m' := pg.phys[..];
    StaleUnmapped(a, b, m', va, mine);
    UnmappedBut(a.mem, m', va, UNMAPPED, USER_TABLES * ENTRIES);
    pg.stale := pg.stale - {va as int};
    ghost var c := Now(pg);
    SpaceKept(a, c, mine, s);
    TranslateKept(a, c, mine, s);
    DirectorySame(a, c, mine, s);
    KeepsLess(a, c, mine, keep);
    KeptHeld(a, c, keep);
  }

  /** An empty table becomes table i of the process. */
  method AddEmptyTable(pg: Pager, s: Space, i: nat, ghost keep: set<int>) returns (t: Space)
    requires Building(pg, s, keep) && i < ENTRIES && !Shared(i)
    modifies pg, pg.bits, pg.phys
    ensures pg.panicked <==> Short(old(Left(pg)), 1, 1)
    ensures !pg.panicked ==>
      && Building(pg, t, keep) && Keeps(old(Now(pg)), Now(pg), keep) && pg.stale == old(pg.stale)
      && t.dir == s.dir && |t.tables| == |s.tables| + 1 && s.tables <= t.tables
      && StillMaps(old(pg.phys[..]), s, pg.phys[..], t, {i})
      && Entry(pg.phys[..], t.dir, i) == Walk(pg.phys[..], t.tables[|s.tables|])
    ensures !pg.panicked ==> pg.Valid() && Spent(old(Left(pg)), Left(pg), 1, 1)
  {
    hide DirOk, Owned, Keeps, Walk, SpaceOk, Entry, TableOk, StillMaps, Maps;
    ghost var mine := keep + PagesOf(s);
    ghost var a := Now(pg);
    SpaceHolds(a, s);
    var v := NewPage(pg, mine);
    t := s.(tables := s.tables + [v]);
    if pg.panicked {
      return;
    }
    ghost var b := Now(pg);
    ClearTable(pg, v, mine);
    ghost var c := Now(pg);
    KeepsOn(a, b, c, mine);
    SpaceKept(a, c, mine, s);
    TranslateKept(a, c, mine, s);
    Enter(pg, s, v, i, keep, a);
    StillMapsOn(a.mem, s, c.mem, s, pg.phys[..], t, {}, {i});
    assert {} + {i as int} == {i as int};
  }

  method ClearTable(pg: Pager, v: nat, ghost keep: set<int>)
    requires pg.Valid() && Held(Now(pg), v) && v !in keep
    modifies pg.phys
    ensures pg.Valid() && Held(Now(pg), v) && Keeps(old(Now(pg)), Now(pg), keep) && TableOk(Now(pg), v, ENTRIES)
    ensures Left(pg) == old(Left(pg))
  {
    hide DirOk, Owned, Keeps, Walk, Entry, FreePages, FreeFrames;
    ghost var a := Now(pg);
    KeepsSame(a, keep);
    for j := 0 to ENTRIES
      invariant Step(pg, a, v, keep) && Left(pg) == old(Left(pg))
      invariant forall k :: 0 <= k < j ==> Entry(pg.phys[..], v, k) == UNMAPPED
    {
      WriteOn(pg, a, v, j, UNMAPPED, keep);
    }
  }

  /** A segment to be loaded: its virtual address and its size in the file. */
  datatype Segment = Segment(start: nat, size: nat)

  /** Bytes of its own, below the kernel and above the first 8 MB. */
  predicate Loadable(g: Segment) {
    g.size > 0 && 2 * 0x400000 <= g.start && g.start + g.size < USER_TABLES * 0x400000
  }

  /** The pages of a segment from its first to its last byte, and one more if it ends on a page boundary. */
  function PagesSpanned(start: nat, size: nat): nat { (start + size) / 4096 - start / 4096 + 1 }

  /** The pages that hold the segment's bytes if it starts on a page boundary. */
  function PagesNeeded(size: nat): nat { size / 4096 + if size % 4096 != 0 then 1 else 0 }

  /** Every page of the segment holds bytes of it. */
  predicate Snug(g: Segment) { PagesSpanned(g.start, g.size) == PagesNeeded(g.size) }

  /** Every segment fills its last page only in part, so that no page is left stale. */
  predicate Tidy(program: seq<Segment>) {
    forall g :: g in program ==> Snug(g)
  }

  lemma TidySnoc(program: seq<Segment>, k: nat)
    requires k < |program|
    ensures Tidy(program[..k + 1]) <==> Tidy(program[..k]) && Snug(program[k])
  {
    assert program[..k + 1] == program[..k] + [program[k]];
    assert program[k] in program[..k + 1];
  }

  lemma SpannedExactly(start: nat, size: nat)
    ensures PagesSpanned(start, size) >= PagesNeeded(size)
    ensures start % 4096 == 0 ==> (PagesSpanned(start, size) == PagesNeeded(size) <==> size % 4096 != 0)
  {
  }

  function PageSet(ps: seq<nat>): (r: set<int>)
    ensures forall p :: p in ps ==> p as int in r
  {
    set p | p in ps :: p as int
  }

  lemma PageSetSnoc(ps: seq<nat>, p: nat)
    ensures PageSet(ps + [p]) == PageSet(ps) + {p as int}
  {
    forall q | q in PageSet(ps) ensures q in PageSet(ps + [p]) {
      assert q as nat in ps + [p];
    }
    assert p in ps + [p];
  }

  lemma PageSetNext(ps: seq<nat>, k: nat)
    requires k < |ps| && forall i, j :: 0 <= i < j < |ps| ==> ps[i] != ps[j]
    ensures PageSet(ps[k..]) == {ps[k] as int} + PageSet(ps[k + 1..]) && ps[k] as int !in PageSet(ps[k + 1..])
  {
    assert ps[k..] == [ps[k]] + ps[k + 1..];
    assert ps[k] in ps[k..];
    forall q | q in PageSet(ps[k + 1..]) ensures q in PageSet(ps[k..]) {
      assert q as nat in ps[k..];
    }
  }

  /** Since a, the pages `ps` were handed over to the process, and are stale. */
  ghost predicate HandedOver(pg: Pager, a: Snap, t: Space, ps: seq<nat>, keep: set<int>)
    requires Paged(a.mem)
    reads pg, pg.bits, pg.phys
  {
    && Building(pg, t, keep) && Keeps(a, Now(pg), keep)
    && pg.stale == a.stale + PageSet(ps)
    && (forall p :: p in ps ==> p as int !in a.stale && UserPage(p))
    && forall i, k :: 0 <= i < k < |ps| ==> ps[i] != ps[k]
  }

  /** Pages for entries from..to of table vt, which may or may not be table i of the directory. */
  method MapPages(pg: Pager, t: Space, vt: nat, ghost i: nat, from: nat, to: nat, ps: seq<nat>, ghost a: Snap,
                  ghost keep: set<int>)
    returns (ps': seq<nat>)
    requires Paged(a.mem) && HandedOver(pg, a, t, ps, keep)
    requires vt in t.tables && from <= to <= ENTRIES && i < USER_TABLES
    modifies pg, pg.bits, pg.phys
    ensures pg.panicked <==> Short(old(Left(pg)), to - from, to - from)
    ensures !pg.panicked ==>
      && HandedOver(pg, a, t, ps', keep) && pg.Valid() && |ps'| == |ps| + to - from
      && SameDirectory(old(pg.phys[..]), pg.phys[..], t) && StillMaps(old(pg.phys[..]), t, pg.phys[..], t, {})
      && (Entry(pg.phys[..], t.dir, i) == Walk(pg.phys[..], vt) ==>
            forall p :: i * ENTRIES + from <= p < i * ENTRIES + to ==> Maps(pg.phys[..], t, p))
    ensures !pg.panicked ==> pg.Valid() && Spent(old(Left(pg)), Left(pg), to - from, to - from)
  {
    hide Building, Keeps, Held, SameDirectory, StillMaps, Maps, Entry, Walk;
    ps' := ps;
    ghost var m := pg.phys[..];
    BuildingPaged(pg, t, keep);
    DirectoryItself(m, t);
    for j := from to to
      invariant HandedOver(pg, a, t, ps', keep) && pg.Valid() && |ps'| == |ps| + j - from
      invariant Spent(old(Left(pg)), Left(pg), j - from, j - from)
      invariant SameDirectory(m, pg.phys[..], t) && StillMaps(m, t, pg.phys[..], t, {})
      invariant forall k :: from <= k < j ==> Entry(pg.phys[..], vt, k) != UNMAPPED
    {
      ps' := MapOnePage(pg, t, vt, j, ps', m, a, keep);
      if pg.panicked {
        return;
      }
    }
    BuildingPaged(pg, t, keep);
    ReachedThrough(pg.phys[..], t, vt, i, from, to);
  }

  method MapOnePage(pg: Pager, t: Space, vt: nat, j: nat, ps: seq<nat>, ghost m: Mem, ghost a: Snap,
                    ghost keep: set<int>)
    returns (ps': seq<nat>)
    requires Paged(a.mem) && HandedOver(pg, a, t, ps, keep) && pg.Valid() && vt in t.tables && j < ENTRIES
    requires Paged(m) && SameDirectory(m, pg.phys[..], t) && StillMaps(m, t, pg.phys[..], t, {})
    modifies pg, pg.bits, pg.phys
    ensures pg.panicked <==> Short(old(Left(pg)), 1, 1)
    ensures !pg.panicked ==>
      && HandedOver(pg, a, t, ps', keep) && pg.Valid() && |ps'| == |ps| + 1
      && SameDirectory(m, pg.phys[..], t) && StillMaps(m, t, pg.phys[..], t, {})
      && Entry(pg.phys[..], vt, j) != UNMAPPED
      && forall k :: 0 <= k < ENTRIES && k != j ==> Entry(pg.phys[..], vt, k) == old(Entry(pg.phys[..], vt, k))
    ensures !pg.panicked ==> pg.Valid() && Spent(old(Left(pg)), Left(pg), 1, 1)
  {
    hide Building, Keeps, Held, SameDirectory, StillMaps, Maps, Entry, Walk;
    ghost var b := Now(pg);
    BuildingPaged(pg, t, keep);
    var va := AddDataPage(pg, t, vt, j, keep);
    ps' := ps + [va];
    if pg.panicked {
      return;
    }
    ghost var c := Now(pg);
    BuildingPaged(pg, t, keep);
    KeepsOn(a, b, c, keep);
    PageSetSnoc(ps, va);
    assert va !in ps;
    SameDirectoryOn(m, b.mem, c.mem, t);
    ghost var none: set<int> := {};
    StillMapsOn(m, t, b.mem, t, c.mem, t, none, none);
    assert none + none == none;
  }

  lemma BuildingPaged(pg: Pager, t: Space, keep: set<int>)
    requires Building(pg, t, keep)
    ensures pg.Valid() && Paged(pg.phys[..]) && SharedMapped(pg.phys[..])
  {
  }

  /** The table for index i: the last one of the process if the index was seen before, or a new one. */
  method SegmentTable(pg: Pager, s: Space, indexes: seq<nat>, i: nat, ps: seq<nat>, ghost a: Snap, ghost keep: set<int>)
    returns (t: Space, vt: nat, indexes': seq<nat>)
    requires Paged(a.mem) && HandedOver(pg, a, s, ps, keep) && pg.Valid() && i < ENTRIES && !Shared(i)
    requires TopOk(pg.phys[..], s, indexes)
    modifies pg, pg.bits, pg.phys
    ensures pg.panicked <==> Short(old(Left(pg)), if i in indexes then 0 else 1, if i in indexes then 0 else 1)
    ensures !pg.panicked ==>
      && HandedOver(pg, a, t, ps, keep) && pg.Valid() && t.tables != [] && vt == t.tables[|t.tables| - 1]
      && t.dir == s.dir && s.tables <= t.tables
      && indexes' == (if i in indexes then indexes else indexes + [i]) && TopOk(pg.phys[..], t, indexes')
      && StillMaps(old(pg.phys[..]), s, pg.phys[..], t, if i in indexes then {} else {i})
    ensures !pg.panicked ==>
      pg.Valid() && Spent(old(Left(pg)), Left(pg), if i in indexes then 0 else 1, if i in indexes then 0 else 1)
  {
    hide Building, Keeps, Held, StillMaps, Walk, Entry;
    ghost var b := Now(pg);
    MapsSame(b.mem, s);
    if i in indexes {
      return s, s.tables[|s.tables| - 1], indexes;
    }
    BuildingPaged(pg, s, keep);
    t := AddEmptyTable(pg, s, i, keep);
    vt := 0;
    indexes' := indexes + [i];
    if !pg.panicked {
      vt := t.tables[|t.tables| - 1];
      ghost var c := Now(pg);
      BuildingPaged(pg, t, keep);
      KeepsOn(a, b, c, keep);
    }
  }

  /** Frames, and as many pages of the kernel, that a segment takes: its pages and the tables that are new. */
  function Grant(indexes: seq<nat>, start: nat, size: nat): (r: nat)
    ensures r >= PagesSpanned(start, size)
  {
    |IndexesAfter(indexes, start / 0x400000, (start + size) / 0x400000 + 1)| - |indexes| + PagesSpanned(start, size)
  }

  lemma NextTable(indexes: seq<nat>, from: nat, i: nat)
    requires from <= i
    ensures var r := IndexesAfter(indexes, from, i);
      (i in r <==> i in indexes) && IndexesAfter(indexes, from, i + 1) == if i in r then r else r + [i]
  {
  }

  lemma NoTables(indexes: seq<nat>, from: nat)
    ensures IndexesAfter(indexes, from, from) == indexes
  {
  }

  lemma NothingHanded(pg: Pager, s: Space, keep: set<int>)
    requires Building(pg, s, keep)
    ensures HandedOver(pg, Now(pg), s, [], keep)
  {
    KeepsSame(Now(pg), keep);
  }

  /** What the tables below i of a segment take. */
  function GrantUpTo(indexes: seq<nat>, start: nat, size: nat, i: nat): int {
    |IndexesAfter(indexes, start / 0x400000, i)| - |indexes| + PagesUpTo(start, size, i) - start / 4096
  }

  lemma GrantEnds(indexes: seq<nat>, start: nat, size: nat)
    ensures GrantUpTo(indexes, start, size, start / 0x400000) == 0
    ensures GrantUpTo(indexes, start, size, (start + size) / 0x400000 + 1) == Grant(indexes, start, size)
  {
    UpToEnds(start, size);
  }

  lemma GrantNext(indexes: seq<nat>, start: nat, size: nat, i: nat, from: nat, end: nat)
    requires start / 0x400000 <= i <= (start + size) / 0x400000
    requires start + size < USER_TABLES * 0x400000 && 2 * 0x400000 <= start
    requires from == if i == start / 0x400000 then start / 4096 % 1024 else 0
    requires end == if i == (start + size) / 0x400000 then (start + size) / 4096 % 1024 + 1 else ENTRIES
    ensures var g := GrantUpTo(indexes, start, size, i + 1);
      && g == GrantUpTo(indexes, start, size, i)
              + (if i in IndexesAfter(indexes, start / 0x400000, i) then 0 else 1) + end - from
      && g <= Grant(indexes, start, size)
  {
    hide PagesUpTo, IndexesAfter, PagesSpanned;
    UpToNext(start, size, i, from, end);
    NextTable(indexes, start / 0x400000, i);
    IndexesMore(indexes, start / 0x400000, i + 1, (start + size) / 0x400000 + 1);
    UpToMore(start, size, i + 1);
  }

  lemma UpToMore(start: nat, size: nat, i: nat)
    ensures PagesUpTo(start, size, i) - start / 4096 <= PagesSpanned(start, size)
  {
  }

  method MapSegment(pg: Pager, s: Space, indexes: seq<nat>, start: nat, size: nat, ghost keep: set<int>)
    returns (t: Space, indexes': seq<nat>, ps: seq<nat>)
    requires Building(pg, s, keep) && pg.Valid() && TopOk(pg.phys[..], s, indexes)
    requires 2 * 0x400000 <= start && start + size < USER_TABLES * 0x400000
    modifies pg, pg.bits, pg.phys
    ensures pg.panicked <==> Short(old(Left(pg)), Grant(indexes, start, size), Grant(indexes, start, size))
    ensures !pg.panicked ==>
      && HandedOver(pg, old(Now(pg)), t, ps, keep) && pg.Valid() && |ps| == PagesSpanned(start, size)
      && t.dir == s.dir && s.tables <= t.tables
      && TopOk(pg.phys[..], t, indexes')
      && indexes' == IndexesAfter(indexes, start / 0x400000, (start + size) / 0x400000 + 1)
      && Laid(old(pg.phys[..]), s, indexes, pg.phys[..], t, indexes', start / 4096, (start + size) / 4096 + 1)
    ensures !pg.panicked ==>
      pg.Valid() && Spent(old(Left(pg)), Left(pg), Grant(indexes, start, size), Grant(indexes, start, size))
  {
    hide Building, Keeps, Held, PagesSpanned, Laid, TopOk, PagesUpTo, TableEnd, IndexesAfter, Left, HandedOver, Grant,
      GrantUpTo;
    var firstTable, firstPage := start / 0x400000, start / 4096 % 1024;
    var lastTable, lastPage := (start + size) / 0x400000, (start + size) / 4096 % 1024;
    t, indexes', ps := s, indexes, [];
    ghost var a := Now(pg);
    KeepsSame(a, keep);
    LaidNothing(a.mem, s, indexes, start / 4096);
    NothingHanded(pg, s, keep);
    NoTables(indexes, firstTable);
    UpToEnds(start, size);
    GrantEnds(indexes, start, size);
    for i := firstTable to lastTable + 1
      invariant HandedOver(pg, a, t, ps, keep) && pg.Valid() && t.dir == s.dir && s.tables <= t.tables
      invariant TopOk(pg.phys[..], t, indexes') && indexes' == IndexesAfter(indexes, firstTable, i)
      invariant Spent(old(Left(pg)), Left(pg), GrantUpTo(indexes, start, size, i), GrantUpTo(indexes, start, size, i))
      invariant Laid(a.mem, s, indexes, pg.phys[..], t, indexes', start / 4096, PagesUpTo(start, size, i))
      invariant |ps| == PagesUpTo(start, size, i) - start / 4096
    {
      var from, end := if i == firstTable then firstPage else 0, if i == lastTable then lastPage + 1 else ENTRIES;
      UpToNext(start, size, i, from, end);
      NextTable(indexes, firstTable, i);
      GrantNext(indexes, start, size, i, from, end);
      t, indexes', ps := MapTable(pg, s, t, indexes, indexes', i, from, end, ps, a, start / 4096, keep);
      if pg.panicked {
        return;
      }
    }
  }

  lemma UpToEnds(start: nat, size: nat)
    ensures PagesUpTo(start, size, start / 0x400000) == start / 4096
    ensures PagesUpTo(start, size, (start + size) / 0x400000 + 1) == (start + size) / 4096 + 1
    ensures PagesSpanned(start, size) == (start + size) / 4096 + 1 - start / 4096
    ensures start / 0x400000 <= (start + size) / 0x400000
  {
  }

  lemma UpToNext(start: nat, size: nat, i: nat, from: nat, end: nat)
    requires start / 0x400000 <= i <= (start + size) / 0x400000
    requires start + size < USER_TABLES * 0x400000 && 2 * 0x400000 <= start
    requires from == if i == start / 0x400000 then start / 4096 % 1024 else 0
    requires end == if i == (start + size) / 0x400000 then (start + size) / 4096 % 1024 + 1 else ENTRIES
    ensures PagesUpTo(start, size, i) == i * ENTRIES + from && PagesUpTo(start, size, i + 1) == i * ENTRIES + end
    ensures from < end <= ENTRIES && i < USER_TABLES && !Shared(i)
    ensures 2 * ENTRIES <= start / 4096 <= i * ENTRIES + from && TableEnd(start / 4096, i * ENTRIES + from) == i
  {
  }

  /** The first page behind those of the segment that lie in tables below i. */
  function PagesUpTo(start: nat, size: nat, i: nat): nat {
    if i <= start / 0x400000 then start / 4096
    else if i > (start + size) / 0x400000 then (start + size) / 4096 + 1
    else i * 1024
  }

  /** One table of a segment, with pages for its entries from..to. */
  method MapTable(pg: Pager, ghost s: Space, t: Space, ghost indexes: seq<nat>, indexes1: seq<nat>, i: nat, from: nat,
                  to: nat,
                  ps: seq<nat>, ghost a: Snap, ghost first: nat, ghost keep: set<int>)
    returns (t': Space, indexes': seq<nat>, ps': seq<nat>)
    requires Paged(a.mem) && HandedOver(pg, a, t, ps, keep) && pg.Valid() && i < USER_TABLES && !Shared(i)
    requires from < to <= ENTRIES && TopOk(pg.phys[..], t, indexes1)
    requires 2 * ENTRIES <= first <= i * ENTRIES + from && TableEnd(first, i * ENTRIES + from) == i
    requires Laid(a.mem, s, indexes, pg.phys[..], t, indexes1, first, i * ENTRIES + from)
    modifies pg, pg.bits, pg.phys
    ensures pg.panicked <==>
      Short(old(Left(pg)), (if i in indexes1 then 0 else 1) + to - from, (if i in indexes1 then 0 else 1) + to - from)
    ensures !pg.panicked ==>
      && HandedOver(pg, a, t', ps', keep) && pg.Valid() && |ps'| == |ps| + to - from
      && t'.dir == t.dir && t.tables <= t'.tables && TopOk(pg.phys[..], t', indexes')
      && indexes' == (if i in indexes1 then indexes1 else indexes1 + [i])
      && Laid(a.mem, s, indexes, pg.phys[..], t', indexes', first, i * ENTRIES + to)
    ensures !pg.panicked ==>
      var n := (if i in indexes1 then 0 else 1) + to - from;
      pg.Valid() && Spent(old(Left(pg)), Left(pg), n, n)
  {
    hide Building, Keeps, Held, StillMaps, Walk, Entry, Maps, SameDirectory, Laid;
    ghost var m1 := pg.phys[..];
    var vt;
    t', vt, indexes' := SegmentTable(pg, t, indexes1, i, ps, a, keep);
    ps' := ps;
    if pg.panicked {
      return;
    }
    ghost var m2 := pg.phys[..];
    ps' := MapPages(pg, t', vt, i, from, to, ps, a, keep);
    if pg.panicked {
      return;
    }
    ghost var m3 := pg.phys[..];
    TopKept(m2, m3, t', indexes');
    LaidOn(a.mem, s, indexes, m1, t, indexes1, m2, m3, t', indexes', first, i, from, to);
  }

  /** allocate_segment: the tables and pages for the addresses of the segment. Data pages beyond those
      that the bytes need stay mapped in the kernel. */
  method AllocateSegment(pg: Pager, s: Space, indexes: seq<nat>, g: Segment, ghost keep: set<int>)
    returns (t: Space, indexes': seq<nat>)
    requires Building(pg, s, keep) && pg.Valid() && Loadable(g) && TopOk(pg.phys[..], s, indexes)
    modifies pg, pg.bits, pg.phys
    ensures pg.panicked <==> Short(old(Left(pg)), Grant(indexes, g.start, g.size), Grant(indexes, g.start, g.size))
    ensures !pg.panicked ==>
      && Building(pg, t, keep) && pg.Valid() && Keeps(old(Now(pg)), Now(pg), keep)
      && t.dir == s.dir && s.tables <= t.tables && TopOk(pg.phys[..], t, indexes')
      && indexes' == IndexesAfter(indexes, g.start / 0x400000, (g.start + g.size) / 0x400000 + 1)
      && Laid(old(pg.phys[..]), s, indexes, pg.phys[..], t, indexes', FirstPage(g), LastPage(g) + 1)
      && old(pg.stale) <= pg.stale && (pg.stale == old(pg.stale) <==> Snug(g))
    ensures !pg.panicked ==>
      pg.Valid() && Spent(old(Left(pg)), Left(pg), Grant(indexes, g.start, g.size),
                            Grant(indexes, g.start, g.size) - PagesNeeded(g.size))
  {
    hide Building, Keeps, Held, Laid, TopOk;
    ghost var a := Now(pg);
    var dataPages: seq<nat>;
    t, indexes', dataPages := MapSegment(pg, s, indexes, g.start, g.size, keep);
    if pg.panicked {
      return;
    }
    SpannedExactly(g.start, g.size);
    UnmapAll(pg, t, dataPages, PagesNeeded(g.size), a, keep, s, indexes, indexes', FirstPage(g), LastPage(g) + 1);
  }

  function FirstPage(g: Segment): nat { g.start / 4096 }

  function LastPage(g: Segment): nat { (g.start + g.size) / 4096 }

  /** The kernel forgets the first pages of the segment, which it has filled; it keeps the others. */
  method UnmapAll(pg: Pager, t: Space, ps: seq<nat>, needed: nat, ghost a: Snap, ghost keep: set<int>,
                  ghost s: Space, ghost ix: seq<nat>, ghost ix': seq<nat>, ghost first: nat, ghost upto: nat)
    requires Paged(a.mem) && HandedOver(pg, a, t, ps, keep) && pg.Valid()
    requires needed <= |ps| && TopOk(pg.phys[..], t, ix')
    requires 2 * ENTRIES <= first && upto <= USER_TABLES * ENTRIES
    requires Laid(a.mem, s, ix, pg.phys[..], t, ix', first, upto)
    modifies pg`stale, pg.phys
    ensures Building(pg, t, keep) && pg.Valid() && Keeps(a, Now(pg), keep) && TopOk(pg.phys[..], t, ix')
    ensures Laid(a.mem, s, ix, pg.phys[..], t, ix', first, upto)
    ensures Spent(old(Left(pg)), Left(pg), 0, 0 - needed)
    ensures a.stale <= pg.stale && (pg.stale == a.stale <==> needed == |ps|)
  {
    hide Building, Keeps, Held, Laid, TopOk, SameDirectory, StillMaps;
    BuildingPaged(pg, t, keep);
    for k := 0 to needed
      invariant Building(pg, t, keep) && pg.Valid() && Keeps(a, Now(pg), keep) && TopOk(pg.phys[..], t, ix')
      invariant Laid(a.mem, s, ix, pg.phys[..], t, ix', first, upto)
      invariant pg.stale == a.stale + PageSet(ps[k..]) && Spent(old(Left(pg)), Left(pg), 0, -k)
    {
      ghost var b := Now(pg);
      PageSetNext(ps, k);
      assert ps[k] in ps;
      UnmapData(pg, t, ps[k], keep);
      ghost var c := Now(pg);
      BuildingPaged(pg, t, keep);
      KeepsOn(a, b, c, keep);
      TopKept(b.mem, c.mem, t, ix');
      LaidKept(a.mem, s, ix, b.mem, c.mem, t, ix', first, upto);
    }
    if needed < |ps| {
      PageSetNext(ps, needed);
      assert ps[needed] as int in pg.stale && ps[needed] in ps;
    }
  }

  // ---------- creating a process ----------

  predicate Ascending(segments: seq<Segment>) {
    forall k :: 0 < k < |segments| ==> LastPage(segments[k - 1]) / ENTRIES <= FirstPage(segments[k]) / ENTRIES
  }

  /** All pages of the segments are mapped, but perhaps those of some tables. */
  ghost predicate AllLaid(m: Mem, t: Space, segments: seq<Segment>, except: set<int>)
    requires Paged(m)
  {
    forall k, p ::
      0 <= k < |segments| && FirstPage(segments[k]) <= p <= LastPage(segments[k]) && p / ENTRIES !in except ==>
      Maps(m, t, p)
  }

  /** What loading the first k segments takes: frames, the most pages of the kernel at any time, and those
      that are taken in the end; and the table indexes that were seen. */
  datatype Need = Need(indexes: seq<nat>, frames: nat, peak: nat, pages: nat)

  function NeedOf(segments: seq<Segment>, k: nat): (n: Need)
    requires k <= |segments|
    ensures n.pages <= n.peak
  {
    if k == 0 then Need([], 0, 0, 0)
    else
      var n, g := NeedOf(segments, k - 1), segments[k - 1];
      var grant := Grant(n.indexes, g.start, g.size);
      SpannedExactly(g.start, g.size);
      assert grant >= PagesNeeded(g.size);
      Need(IndexesAfter(n.indexes, g.start / 0x400000, (g.start + g.size) / 0x400000 + 1), n.frames + grant,
           if n.pages + grant > n.peak then n.pages + grant else n.peak, n.pages + grant - PagesNeeded(g.size))
  }

  lemma {:induction false} NeedsMore(segments: seq<Segment>, k: nat, n: nat)
    requires k <= n <= |segments|
    ensures NeedOf(segments, k).frames <= NeedOf(segments, n).frames
    ensures NeedOf(segments, k).peak <= NeedOf(segments, n).peak
  {
    hide NeedOf, Grant;
    if k < n {
      NeedsMore(segments, k, n - 1);
      NextNeed(segments, n - 1);
    }
  }

  lemma NextNeed(segments: seq<Segment>, k: nat)
    requires k < |segments|
    ensures var n, m, g := NeedOf(segments, k), NeedOf(segments, k + 1), segments[k];
      var grant := Grant(n.indexes, g.start, g.size);
      && m.indexes == IndexesAfter(n.indexes, g.start / 0x400000, (g.start + g.size) / 0x400000 + 1)
      && m.frames == n.frames + grant && n.pages + grant <= m.peak && m.pages == n.pages + grant - PagesNeeded(g.size)
      && n.peak <= m.peak && (m.peak == n.peak || m.peak == n.pages + grant)
  {
  }

  /** load_elf_file: the segments share the list of table indexes. */
  method LoadSegments(pg: Pager, s: Space, segments: seq<Segment>, ghost keep: set<int>) returns (t: Space)
    requires Building(pg, s, keep) && pg.Valid() && forall g :: g in segments ==> Loadable(g)
    modifies pg, pg.bits, pg.phys
    ensures pg.panicked <==>
      Short(old(Left(pg)), NeedOf(segments, |segments|).frames, NeedOf(segments, |segments|).peak)
    ensures !pg.panicked ==>
      && Building(pg, t, keep) && pg.Valid() && Keeps(old(Now(pg)), Now(pg), keep) && old(pg.stale) <= pg.stale
      && (Tidy(segments) <==> pg.stale == old(pg.stale))
      && (Ascending(segments) ==> AllLaid(pg.phys[..], t, segments, {}))
      && StillMaps(old(pg.phys[..]), s, pg.phys[..], t, TablesUpTo(segments, |segments|))
    ensures !pg.panicked ==>
      pg.Valid() && Spent(old(Left(pg)), Left(pg), NeedOf(segments, |segments|).frames,
        NeedOf(segments, |segments|).pages)
  {
    hide NeedOf, Grant, Building, Keeps, Snug, Loadable, Tidy, StillMaps, TopOk, Loaded, Ascending, AllLaid, TablesUpTo;
    ghost var a := Now(pg);
    KeepsSame(a, keep);
    NothingLoaded(a.mem, s, segments);
    NothingNeeded(segments);
    assert segments[..|segments|] == segments && segments[..0] == [];
    var indexes := [];
    t := s;
    for k := 0 to |segments|
      invariant Building(pg, t, keep) && pg.Valid() && Keeps(a, Now(pg), keep) && a.stale <= pg.stale
      invariant TopOk(pg.phys[..], t, indexes) && indexes == NeedOf(segments, k).indexes
      invariant Spent(old(Left(pg)), Left(pg), NeedOf(segments, k).frames, NeedOf(segments, k).pages)
      invariant !Short(old(Left(pg)), NeedOf(segments, k).frames, NeedOf(segments, k).peak)
      invariant Tidy(segments[..k]) <==> pg.stale == a.stale
      invariant Ascending(segments) ==> Loaded(pg.phys[..], t, segments, k, indexes)
      invariant StillMaps(a.mem, s, pg.phys[..], t, TablesUpTo(segments, k))
    {
      assert segments[k] in segments;
      TidySnoc(segments, k);
      NextNeed(segments, k);
      NeedsMore(segments, k + 1, |segments|);
      t, indexes := LoadSegment(pg, s, t, indexes, segments, k, a, keep);
      if pg.panicked {
        return;
      }
    }
    AllLoaded(pg.phys[..], t, segments, indexes);
  }

  lemma NothingNeeded(segments: seq<Segment>)
    ensures NeedOf(segments, 0) == Need([], 0, 0, 0)
  {
  }

  lemma NothingLoaded(m: Mem, s: Space, segments: seq<Segment>)
    requires Paged(m)
    ensures Tidy([]) && TopOk(m, s, []) && Loaded(m, s, segments, 0, [])
    ensures StillMaps(m, s, m, s, TablesUpTo(segments, 0))
  {
    DirectoryItself(m, s);
  }

  lemma AllLoaded(m: Mem, t: Space, segments: seq<Segment>, indexes: seq<nat>)
    requires Paged(m) && (Ascending(segments) ==> Loaded(m, t, segments, |segments|, indexes))
    ensures Ascending(segments) ==> AllLaid(m, t, segments, {})
  {
  }

  /** The tables that the first k segments may have entered in the directory. */
  function TablesUpTo(segments: seq<Segment>, k: nat): (r: set<int>)
    requires k <= |segments|
    ensures forall i :: i in r ==>
      exists q :: 0 <= q < k && FirstPage(segments[q]) / ENTRIES <= i <= LastPage(segments[q]) / ENTRIES
  {
    if k == 0 then {}
    else
      var g := segments[k - 1];
      TablesUpTo(segments, k - 1) + NewTables([], FirstPage(g) / ENTRIES, LastPage(g) / ENTRIES + 1)
  }

  /** The first k segments are mapped, and their tables were made in order. */
  ghost predicate Loaded(m: Mem, t: Space, segments: seq<Segment>, k: nat, indexes: seq<nat>)
    requires Paged(m) && k <= |segments|
  {
    && Sorted(indexes) && (k == 0 ==> indexes == [])
    && (k > 0 ==> indexes != [] && indexes[|indexes| - 1] == LastPage(segments[k - 1]) / ENTRIES)
    && forall q, p :: 0 <= q < k && FirstPage(segments[q]) <= p <= LastPage(segments[q]) ==>
      Maps(m, t, p) && p / ENTRIES in indexes
  }

  method LoadSegment(pg: Pager, ghost r: Space, s: Space, indexes: seq<nat>, segments: seq<Segment>, k: nat,
                     ghost a: Snap, ghost keep: set<int>)
    returns (t: Space, indexes': seq<nat>)
    requires Paged(a.mem) && Building(pg, s, keep) && pg.Valid() && TopOk(pg.phys[..], s, indexes)
    requires k < |segments| && (forall g :: g in segments ==> Loadable(g)) && Keeps(a, Now(pg), keep)
    requires Ascending(segments) ==> Loaded(pg.phys[..], s, segments, k, indexes)
    requires StillMaps(a.mem, r, pg.phys[..], s, TablesUpTo(segments, k))
    modifies pg, pg.bits, pg.phys
    ensures var n := Grant(indexes, segments[k].start, segments[k].size);
      pg.panicked <==> Short(old(Left(pg)), n, n)
    ensures !pg.panicked ==>
      && Building(pg, t, keep) && pg.Valid() && Keeps(a, Now(pg), keep) && old(pg.stale) <= pg.stale
      && indexes' == IndexesAfter(indexes, segments[k].start / 0x400000,
          (segments[k].start + segments[k].size) / 0x400000 + 1)
      && TopOk(pg.phys[..], t, indexes') && (pg.stale == old(pg.stale) <==> Snug(segments[k]))
      && (Ascending(segments) ==> Loaded(pg.phys[..], t, segments, k + 1, indexes'))
      && StillMaps(a.mem, r, pg.phys[..], t, TablesUpTo(segments, k + 1))
    ensures !pg.panicked ==>
      var n := Grant(indexes, segments[k].start, segments[k].size);
      pg.Valid() && Spent(old(Left(pg)), Left(pg), n, n - PagesNeeded(segments[k].size))
  {
    hide Building, Keeps, Snug, Laid, Loaded, TopOk, StillMaps, Ascending, Left, Grant, TablesUpTo, PagesNeeded,
      IndexesAfter, DirOk, Walk;
    ghost var b := Now(pg);
    BuildingPaged(pg, s, keep);
    var g := segments[k];
    assert g in segments;
    t, indexes' := AllocateSegment(pg, s, indexes, g, keep);
    if !pg.panicked {
      ghost var c := Now(pg);
      BuildingPaged(pg, t, keep);
      KeepsOn(a, b, c, keep);
      LaidLoaded(b.mem, s, c.mem, t, segments, k, indexes, indexes');
      LaidStill(a.mem, r, b.mem, s, c.mem, t, segments, k, indexes, indexes');
    }
  }

  lemma LaidStill(m: Mem, r: Space, m1: Mem, s: Space, m2: Mem, t: Space, segments: seq<Segment>, k: nat, ix: seq<nat>,
                  ix': seq<nat>)
    requires Paged(m) && Paged(m1) && Paged(m2) && k < |segments| && StillMaps(m, r, m1, s, TablesUpTo(segments, k))
    requires Laid(m1, s, ix, m2, t, ix', FirstPage(segments[k]), LastPage(segments[k]) + 1)
    ensures StillMaps(m, r, m2, t, TablesUpTo(segments, k + 1))
  {
    hide StillMaps;
    var g := segments[k];
    var x := NewTables(ix, FirstPage(g) / ENTRIES, TableEnd(FirstPage(g), LastPage(g) + 1));
    var y := NewTables([], FirstPage(g) / ENTRIES, LastPage(g) / ENTRIES + 1);
    StillMapsOn(m, r, m1, s, m2, t, TablesUpTo(segments, k), x);
    assert x <= y;
    StillMapsMore(m, r, m2, t, TablesUpTo(segments, k) + x, TablesUpTo(segments, k) + y);
  }

  lemma LaidLoaded(m1: Mem, s: Space, m2: Mem, t: Space, segments: seq<Segment>, k: nat, ix: seq<nat>, ix': seq<nat>)
    requires Paged(m1) && Paged(m2) && k < |segments| && forall g :: g in segments ==> Loadable(g)
    requires Ascending(segments) ==> Loaded(m1, s, segments, k, ix)
    requires Laid(m1, s, ix, m2, t, ix', FirstPage(segments[k]), LastPage(segments[k]) + 1)
    ensures Ascending(segments) ==> Loaded(m2, t, segments, k + 1, ix')
  {
    hide Maps;
    var g := segments[k];
    var first, last := FirstPage(g), LastPage(g);
    if Ascending(segments) {
      assert InOrder(ix, first / ENTRIES);
      forall q, p | 0 <= q < k + 1 && FirstPage(segments[q]) <= p <= LastPage(segments[q])
        ensures Maps(m2, t, p) && p / ENTRIES in ix'
      {
        if q < k {
          assert segments[q] in segments;
          assert Maps(m1, s, p) && p / ENTRIES in ix;
        } else {
          assert first / ENTRIES <= p / ENTRIES < TableEnd(first, last + 1);
        }
      }
    }
  }

  /** Frames that a process takes: a page directory, full tables for stack and heap, and its segments. */
  function FramesFor(segments: seq<Segment>): nat { 1 + 4 * 1025 + NeedOf(segments, |segments|).frames }

  /** Pages of the kernel that it takes in the end: for the directory and the tables. */
  function PagesFor(segments: seq<Segment>): nat { 5 + NeedOf(segments, |segments|).pages }

  /** The most pages that are taken at any time. */
  function PeakFor(segments: seq<Segment>): nat {
    var n := NeedOf(segments, |segments|);
    if n.peak > n.pages + 3 then 2 + n.peak else 5 + n.pages
  }

  /** create_process_virtual_addr_space: a directory, a stack, the segments and a heap. The spaces of the
      other processes are not touched. */
  method CreateSpace(pg: Pager, segments: seq<Segment>, ghost spaces: set<Space>) returns (s: Space)
    requires pg.Valid() && World(Now(pg), spaces) && forall g :: g in segments ==> Loadable(g)
    modifies pg, pg.bits, pg.phys
    ensures pg.panicked <==> Short(old(Left(pg)), FramesFor(segments), PeakFor(segments))
    ensures !pg.panicked ==>
      && pg.Valid() && s !in spaces && World(Now(pg), spaces + {s}) && old(pg.stale) <= pg.stale
      && (Tidy(segments) <==> pg.stale == old(pg.stale))
      && (forall i :: HEAP_TABLES_START <= i <= HEAP_TABLES_END ==> FullTable(pg.phys[..], s, i))
      && (Ascending(segments) ==> AllLaid(pg.phys[..], s, segments, HeapTables(HEAP_TABLES_END + 1)))
      && ((forall g :: g in segments ==> LastPage(g) / ENTRIES < STACK_TABLE) ==>
            FullTable(pg.phys[..], s, STACK_TABLE))
    ensures !pg.panicked ==> pg.Valid() && KernelSame(old(pg.phys[..]), pg.phys[..])
    ensures !pg.panicked ==> pg.Valid() && Spent(old(Left(pg)), Left(pg), FramesFor(segments), PagesFor(segments))
  {
    hide NeedOf, Building, Keeps, World, Held, Uses, StillMaps, FullTable, AllLaid, Ascending, Tidy, FreeFrames,
      FreePages, Loadable, AllPages, KernelSame, SeesKernel;
    ghost var keep := AllPages(spaces);
    ghost var a := Now(pg);
    SpacesHold(a, spaces);
    var s1 := AllocatePageDir(pg, keep);
    s := s1;
    if pg.panicked {
      return;
    }
    ghost var b := Now(pg);
    BuildingPaged(pg, s1, keep);
    var s2 := AllocateStackPage(pg, s1, keep);
    if pg.panicked {
      return;
    }
    ghost var c := Now(pg);
    BuildingPaged(pg, s2, keep);
    KeepsOn(a, b, c, keep);
    s := LoadAndFinish(pg, s2, segments, a, keep);
    if !pg.panicked {
      JoinsWorld(pg, a, s, spaces);
      KeepsKernel(a, Now(pg), keep);
    }
  }

  /** The segments and the heap, behind the directory and the stack. */
  method LoadAndFinish(pg: Pager, s: Space, segments: seq<Segment>, ghost a: Snap,
                       ghost keep: set<int>) returns (t: Space)
    requires Paged(a.mem) && Building(pg, s, keep) && pg.Valid() && Keeps(a, Now(pg), keep)
    requires (forall g :: g in segments ==> Loadable(g)) && FullTable(pg.phys[..], s, STACK_TABLE)
    modifies pg, pg.bits, pg.phys
    ensures pg.panicked <==> Short(old(Left(pg)), FramesFor(segments) - 1026, PeakFor(segments) - 2)
    ensures !pg.panicked ==>
      && Building(pg, t, keep) && pg.Valid() && Keeps(a, Now(pg), keep) && old(pg.stale) <= pg.stale
      && (Tidy(segments) <==> pg.stale == old(pg.stale))
      && (forall i :: HEAP_TABLES_START <= i <= HEAP_TABLES_END ==> FullTable(pg.phys[..], t, i))
      && (Ascending(segments) ==> AllLaid(pg.phys[..], t, segments, HeapTables(HEAP_TABLES_END + 1)))
      && ((forall g :: g in segments ==> LastPage(g) / ENTRIES < STACK_TABLE) ==>
            FullTable(pg.phys[..], t, STACK_TABLE))
    ensures !pg.panicked ==>
      pg.Valid() && Spent(old(Left(pg)), Left(pg), FramesFor(segments) - 1026, PagesFor(segments) - 2)
  {
    hide NeedOf, Building, Keeps, StillMaps, FullTable, AllLaid, Ascending, Tidy, Loadable;
    ghost var c := Now(pg);
    var s1 := LoadSegments(pg, s, segments, keep);
    t := s1;
    if pg.panicked {
      return;
    }
    ghost var d := Now(pg);
    BuildingPaged(pg, s1, keep);
    KeepsOn(a, c, d, keep);
    t := AllocateHeapPages(pg, s1, keep);
    if pg.panicked {
      return;
    }
    ghost var e := Now(pg);
    BuildingPaged(pg, t, keep);
    KeepsOn(a, d, e, keep);
    StackStays(c.mem, s, d.mem, s1, e.mem, t, segments);
    SegmentsStay(d.mem, s1, e.mem, t, segments);
  }

  lemma StackStays(m: Mem, s: Space, m1: Mem, s1: Space, m2: Mem, s2: Space, segments: seq<Segment>)
    requires Paged(m) && Paged(m1) && Paged(m2) && FullTable(m, s, STACK_TABLE)
    requires StillMaps(m, s, m1, s1, TablesUpTo(segments, |segments|))
    requires StillMaps(m1, s1, m2, s2, HeapTables(HEAP_TABLES_END + 1))
    ensures (forall g :: g in segments ==> LastPage(g) / ENTRIES < STACK_TABLE) ==> FullTable(m2, s2, STACK_TABLE)
  {
    hide StillMaps, FullTable, TablesUpTo;
    if forall g :: g in segments ==> LastPage(g) / ENTRIES < STACK_TABLE {
      assert STACK_TABLE !in TablesUpTo(segments, |segments|);
      FullTableKept(m, s, m1, s1, TablesUpTo(segments, |segments|), STACK_TABLE);
      FullTableKept(m1, s1, m2, s2, HeapTables(HEAP_TABLES_END + 1), STACK_TABLE);
    }
  }

  lemma SegmentsStay(m: Mem, s: Space, m': Mem, t: Space, segments: seq<Segment>)
    requires Paged(m) && Paged(m') && StillMaps(m, s, m', t, HeapTables(HEAP_TABLES_END + 1))
    requires (forall g :: g in segments ==> Loadable(g)) && (Ascending(segments) ==> AllLaid(m, s, segments, {}))
    ensures Ascending(segments) ==> AllLaid(m', t, segments, HeapTables(HEAP_TABLES_END + 1))
  {
    hide Maps, Ascending;
    if Ascending(segments) {
      forall k, p | 0 <= k < |segments| && FirstPage(segments[k]) <= p <= LastPage(segments[k])
          && p / ENTRIES !in HeapTables(HEAP_TABLES_END + 1)
        ensures Maps(m', t, p)
      {
        assert segments[k] in segments && Maps(m, s, p) && !Shared(p / ENTRIES);
      }
    }
  }

  /** What was kept, and what was built, is a world again. */
  lemma JoinsWorld(pg: Pager, a: Snap, s: Space, spaces: set<Space>)
    requires Paged(a.mem) && World(a, spaces) && Building(pg, s, AllPages(spaces))
    requires Keeps(a, Now(pg), AllPages(spaces))
    ensures s !in spaces && World(Now(pg), spaces + {s})
  {
    var keep, b := AllPages(spaces), Now(pg);
    hide Keeps, SpaceOk, Held, DirOk, Owned;
    assert Uses(s, s.dir);
    if s in spaces { UsesAll(spaces, s); }
    forall t | t in spaces ensures SpaceOk(b, t) && Apart(s, t) {
      UsesAll(spaces, t);
      SpaceKept(a, b, keep, t);
      forall v ensures !(Uses(s, v) && Uses(t, v)) {
        assert Uses(t, v) ==> v in keep;
      }
    }
  }

  lemma SpacesHold(a: Snap, spaces: set<Space>)
    requires Paged(a.mem) && World(a, spaces)
    ensures SharedMapped(a.mem) && forall v :: v in AllPages(spaces) ==> Held(a, v)
  {
    forall v | v in AllPages(spaces) ensures Held(a, v) {
      var s :| s in spaces && v in PagesOf(s);
      SpaceHolds(a, s);
    }
  }

  // ---------- killing a process ----------

  /** unmap_process: the frames in the tables and that of the directory become free, those of the
      tables themselves do not. */
  method UnmapProcess(pg: Pager, s: Space, ghost spaces: set<Space>)
    requires pg.Valid() && World(Now(pg), spaces) && s in spaces
    modifies pg, pg.bits, pg.phys
    ensures pg.Valid() && World(Now(pg), spaces - {s}) && pg.stale == old(pg.stale)
    ensures pg.bits[..] == Without(old(pg.bits[..]),
      FramesOf(old(pg.phys[..]), s.tables) + {Walk(old(pg.phys[..]), s.dir)})
    ensures WalksBut(old(pg.phys[..]), pg.phys[..], s.dir, UNMAPPED) && KernelSame(old(pg.phys[..]), pg.phys[..])
    ensures Left(pg).frames
      == old(Left(pg)).frames + |FramesOf(old(pg.phys[..]), s.tables) + {Walk(old(pg.phys[..]), s.dir)}|
    ensures Left(pg).pages == old(Left(pg)).pages + 1
  {
    hide FreeFrames, FreePages, Keeps, World, SpaceOk, Owned, DirOk, Walk, Held, FramesOf, KernelSame;
    ghost var a, b, keep := Now(pg), pg.bits[..], AllPages(spaces - {s});
    ghost var freed := FramesOf(a.mem, s.tables);
    SpaceOfWorld(a, spaces, s);
    OthersDoNotUse(spaces, s);
    FramesTaken(a, b, s);
    FreeFramesWithout(b, freed + {Walk(a.mem, s.dir)});
    FreeFramesOf(pg, s);
    ghost var c, b1 := Now(pg), pg.bits[..];
    FramesFreed(a, b, s, freed, keep);
    DirectoryStays(a, c, s, freed);
    pg.UnmapPage(4096 * s.dir);
    ghost var d, b2 := Now(pg), pg.bits[..];
    PageReleased(c, b1, d, b2, s.dir, keep);
    WithoutMore(b, freed, {Walk(a.mem, s.dir)});
    HeldMapped(a, s.dir);
    PagesAfter(a.mem, d.mem, s.dir);
    KeepsOn(a, c, d, keep);
    KeepsKernel(a, d, keep);
    LeavesWorld(a, d, s, spaces);
  }

  lemma HeldMapped(a: Snap, v: int)
    requires Paged(a.mem) && Held(a, v)
    ensures UserPage(v) && Kernel(v) && Walk(a.mem, v) != UNMAPPED
  {
  }

  lemma PagesAfter(m: Mem, m': Mem, v: int)
    requires Paged(m) && Paged(m') && Kernel(v) && Walk(m, v) != UNMAPPED && WalksBut(m, m', v, UNMAPPED)
    ensures FreePages(m') == FreePages(m) + if UserPage(v) then 1 else 0
  {
    UnmappedBut(m, m', v, UNMAPPED, USER_TABLES * ENTRIES);
  }

  /** The frames of a process are all occupied. */
  lemma FramesTaken(a: Snap, b: seq<bool>, s: Space)
    requires Paged(a.mem) && Owned(a.mem, b, a.owner, a.stale) && SpaceOk(a, s)
    ensures FramesOf(a.mem, s.tables) + {Walk(a.mem, s.dir)} <= Occupied(b)
  {
    assert Uses(s, s.dir) && Held(a, s.dir);
    forall f | f in FramesOf(a.mem, s.tables) ensures 0 <= f < |b| && b[f] {
      var vt: nat, j: int :| vt in s.tables && 0 <= j < ENTRIES && Entry(a.mem, vt, j) != UNMAPPED
        && Entry(a.mem, vt, j) == f;
      assert TableOk(a, vt, ENTRIES) && EntryOk(a, vt, j);
    }
  }

  function Occupied(b: seq<bool>): set<int> { set f | 0 <= f < |b| && b[f] }

  lemma WithoutLast(b: seq<bool>, freed: set<int>, n: nat)
    requires |b| == n + 1 && freed <= Occupied(b)
    ensures Without(b, freed)[..n] == Without(b[..n], freed - {n}) && freed - {n} <= Occupied(b[..n])
    ensures |Without(b, freed)| == n + 1 && Without(b, freed)[n] == (b[n] && n !in freed) && (n in freed ==> b[n])
    ensures |freed| == |freed - {n}| + if n in freed then 1 else 0
  {
    if n in freed {
      assert freed == freed - {n} + {n};
    } else {
      assert freed == freed - {n};
    }
  }

  lemma {:induction false} FreeFramesWithout(b: seq<bool>, freed: set<int>)
    requires freed <= Occupied(b)
    ensures FreeFrames(Without(b, freed)) == FreeFrames(b) + |freed|
  {
    if b == [] {
      assert freed == {};
    } else {
      hide Without, Occupied;
      var n := |b| - 1;
      WithoutLast(b, freed, n);
      FreeFramesWithout(b[..n], freed - {n});
    }
  }

  lemma DirectoryStays(a: Snap, c: Snap, s: Space, freed: set<int>)
    requires Paged(a.mem) && SpaceOk(a, s) && c == a.(owner := a.owner - freed)
    ensures Held(c, s.dir) && a.mem[DIR][s.dir / ENTRIES] != UNMAPPED && Kernel(s.dir)
  {
    assert Uses(s, s.dir) && Held(a, s.dir);
  }

  lemma SpaceOfWorld(a: Snap, spaces: set<Space>, s: Space)
    requires Paged(a.mem) && World(a, spaces) && s in spaces
    ensures SpaceOk(a, s) && Held(a, s.dir) && forall t, u :: t in spaces && u in spaces && t != u ==> Apart(t, u)
  {
    assert Uses(s, s.dir);
  }

  method FreeFramesOf(pg: Pager, s: Space)
    requires pg.Valid() && SpaceOk(Now(pg), s)
    modifies pg`owner, pg.bits
    ensures pg.Valid()
    ensures pg.bits[..] == Without(old(pg.bits[..]), FramesOf(pg.phys[..], s.tables))
    ensures pg.owner == old(pg.owner) - FramesOf(pg.phys[..], s.tables)
  {
    ghost var a, b, m := Now(pg), pg.bits[..], pg.phys[..];
    hide Owned, DirOk, Walk, SpaceOk, FramesOf;
    NoFrames(a, b);
    for k := 0 to |s.tables|
      invariant FreedUpTo(pg, a, b, FramesOf(m, s.tables[..k]))
    {
      FreeTable(pg, s, k, a, b);
    }
    assert s.tables[..|s.tables|] == s.tables;
  }

  /** The frames of table k become free. */
  method FreeTable(pg: Pager, s: Space, k: nat, ghost a: Snap, ghost b: seq<bool>)
    requires Paged(a.mem) && |b| == |a.mem| && Owned(a.mem, b, a.owner, a.stale) && SpaceOk(a, s) && k < |s.tables|
    requires FreedUpTo(pg, a, b, FramesOf(a.mem, s.tables[..k]))
    modifies pg`owner, pg.bits
    ensures FreedUpTo(pg, a, b, FramesOf(a.mem, s.tables[..k + 1]))
  {
    hide Owned, DirOk, Walk, SpaceOk, FramesOf;
    var vt := s.tables[k];
    EntriesInRange(a, b, s, vt);
    SpaceHolds(a, s);
    assert Uses(s, vt);
    var f := FrameOf(pg, vt);
    ghost var before := FramesOf(a.mem, s.tables[..k]);
    ghost var mine := FramesIn(a.mem[f], ENTRIES);
    FreeEntries(pg, f);
    ghost var b', o' := pg.bits[..], pg.owner;
    assert s.tables[..k + 1] == s.tables[..k] + [vt];
    FramesOfSnoc(a.mem, s.tables[..k], vt);
    FramesOfLess(a.mem, s.tables, k + 1);
    WithoutMore(b, before, mine);
    assert b' == Without(b, before + mine) && o' == a.owner - (before + mine);
    FramesFreed(a, b, s, before + mine, {});
  }

  /** Since a, the frames in `freed` became free. */
  ghost predicate FreedUpTo(pg: Pager, a: Snap, b: seq<bool>, freed: set<int>)
    reads pg, pg.bits, pg.phys
  {
    && pg.Valid() && pg.phys[..] == a.mem && pg.stale == a.stale
    && pg.bits[..] == Without(b, freed) && pg.owner == a.owner - freed
  }

  lemma NoFrames(a: Snap, b: seq<bool>)
    requires Paged(a.mem)
    ensures FramesOf(a.mem, []) == {} && Without(b, {}) == b && a.owner - {} == a.owner
  {
  }

  /** The frames that a table names become free, one entry after the other. */
  method FreeEntries(pg: Pager, t: nat)
    requires pg.bits as object != pg.phys && t < pg.phys.Length && |pg.phys[t]| == ENTRIES
    requires forall j :: 0 <= j < ENTRIES ==> pg.phys[t][j] == UNMAPPED || 0 <= pg.phys[t][j] < pg.bits.Length
    modifies pg`owner, pg.bits
    ensures pg.bits[..] == Without(old(pg.bits[..]), FramesIn(pg.phys[t], ENTRIES))
    ensures pg.owner == old(pg.owner) - FramesIn(pg.phys[t], ENTRIES)
  {
    ghost var b := pg.bits[..];
    for j := 0 to ENTRIES
      invariant pg.bits[..] == Without(b, FramesIn(pg.phys[t], j))
      invariant pg.owner == old(pg.owner) - FramesIn(pg.phys[t], j)
    {
      var f := pg.phys[t][j];
      assert pg.phys[t][..j + 1] == pg.phys[t][..j] + [f];
      if f != UNMAPPED {
        pg.FrameSetState(f, false);
        pg.owner := pg.owner - {f};
        assert FramesIn(pg.phys[t], j + 1) == FramesIn(pg.phys[t], j) + {f};
      } else {
        assert FramesIn(pg.phys[t], j + 1) == FramesIn(pg.phys[t], j);
      }
    }
  }

  // ---------- pids ----------

  const MAX_PROCESSES: nat := 256
  const NO_PID: nat := 0xFFFF_FFFF

  class Pids {
    const used: array<bool>

    /** init_processes: no pid is taken. */
    constructor ()
      ensures used.Length == MAX_PROCESSES && fresh(used) && forall i :: 0 <= i < MAX_PROCESSES ==> !used[i]
    {
      used := new bool[MAX_PROCESSES](_ => false);
    }

    /** The least pid that is not taken. */
    method AllocatePid() returns (pid: nat)
      requires used.Length == MAX_PROCESSES
      modifies used
      ensures pid == NO_PID ==> used[..] == old(used[..]) && forall i :: 0 <= i < MAX_PROCESSES ==> old(used[i])
      ensures pid != NO_PID ==>
        && pid < MAX_PROCESSES && !old(used[pid]) && (forall i :: 0 <= i < pid ==> old(used[i]))
        && used[..] == old(used[..])[pid := true]
    {
      for i := 0 to MAX_PROCESSES
        invariant used[..] == old(used[..]) && forall k :: 0 <= k < i ==> used[k]
      {
        if !used[i] {
          used[i] := true;
          return i;
        }
      }
      return NO_PID;
    }

    method FreePid(pid: nat)
      requires used.Length == MAX_PROCESSES && pid < MAX_PROCESSES
      modifies used
      ensures used[..] == old(used[..])[pid := false]
    {
      used[pid] := false;
    }
  }

  // ---------- runs ----------

  /** What is live: an address space, and the segments of the program in it. */
  datatype Process = Process(space: Space, program: seq<Segment>)

  datatype Op = Exec(program: seq<Segment>) | Fork(parent: nat) | Kill(victim: nat)

  function SpacesOf(live: seq<Process>): set<Space> { set p | p in live :: p.space }

  /** Programs are there to be loaded, and those meant are alive. */
  predicate Legal(live: seq<Process>, op: Op) {
    match op
    case Exec(program) => forall g :: g in program ==> Loadable(g)
    case Fork(parent) => parent < |live|
    case Kill(victim) => victim < |live|
  }

  ghost predicate Living(pg: Pager, live: seq<Process>)
    reads pg, pg.bits, pg.phys
  {
    && pg.Valid() && World(Now(pg), SpacesOf(live))
    && (forall i, k :: 0 <= i < k < |live| ==> live[i].space != live[k].space)
    && forall p, g :: p in live && g in p.program ==> Loadable(g)
  }

  /** The program of a process that is made. */
  function ProgramOf(live: seq<Process>, op: Op): seq<Segment>
    requires Legal(live, op) && !op.Kill?
  {
    if op.Exec? then op.program else live[op.parent].program
  }

  /** One process is made or killed; a fork makes one of the same program. Making one fails if and only if
      the frames or the kernel's pages do not suffice for its program, killing one never. */
  method Do(pg: Pager, live: seq<Process>, op: Op) returns (live': seq<Process>)
    requires Living(pg, live) && Legal(live, op)
    modifies pg, pg.bits, pg.phys
    ensures pg.panicked <==>
      !op.Kill? && Short(old(Left(pg)), FramesFor(ProgramOf(live, op)), PeakFor(ProgramOf(live, op)))
    ensures !pg.panicked ==> Living(pg, live') && old(pg.stale) <= pg.stale
    ensures !pg.panicked && !op.Kill? ==>
      pg.Valid() && Spent(old(Left(pg)), Left(pg), FramesFor(ProgramOf(live, op)), PagesFor(ProgramOf(live, op)))
    ensures op.Kill? ==>
      pg.Valid() && Left(pg).frames > old(Left(pg)).frames && Left(pg).pages == old(Left(pg)).pages + 1
    ensures !pg.panicked ==> pg.Valid() && KernelSame(old(pg.phys[..]), pg.phys[..])
    ensures !pg.panicked ==>
      match op
      case Kill(victim) => live' == live[..victim] + live[victim + 1..]
      case Exec(program) => |live'| == |live| + 1 && live' == live + [Process(live'[|live|].space, program)]
      case Fork(parent) => |live'| == |live| + 1 && live' == live + [Process(live'[|live|].space, live[parent].program)]
    ensures !pg.panicked && (forall p :: p in live ==> Tidy(p.program)) && (op.Exec? ==> Tidy(op.program)) ==>
      pg.stale == old(pg.stale) && forall p :: p in live' ==> Tidy(p.program)
  {
    hide World, Loadable, Tidy, FramesOf, FreeFrames, FreePages, NeedOf, FramesFor, PeakFor, PagesFor, KernelSame;
    if op.Kill? {
      var s := live[op.victim].space;
      assert live[op.victim] in live;
      NotEmpty(FramesOf(pg.phys[..], s.tables), Walk(pg.phys[..], s.dir));
      UnmapProcess(pg, s, SpacesOf(live));
      live' := live[..op.victim] + live[op.victim + 1..];
      SpacesWithout(live, op.victim);
      return;
    }
    if op.Fork? { assert live[op.parent] in live; }
    var program := if op.Exec? then op.program else live[op.parent].program;
    var s := CreateSpace(pg, program, SpacesOf(live));
    live' := live + [Process(s, program)];
    SpacesWith(live, Process(s, program));
  }

  lemma NotEmpty(x: set<int>, f: int)
    ensures |x + {f}| > 0
  {
    assert f in x + {f};
  }

  lemma SpacesWith(live: seq<Process>, p: Process)
    ensures SpacesOf(live + [p]) == SpacesOf(live) + {p.space}
    ensures forall i :: 0 <= i < |live| ==> live[i].space in SpacesOf(live)
  {
    assert p in live + [p];
    forall s | s in SpacesOf(live) ensures s in SpacesOf(live + [p]) {
      var q :| q in live && q.space == s;
      assert q in live + [p];
    }
    forall i | 0 <= i < |live| ensures live[i].space in SpacesOf(live) {
      assert live[i] in live;
    }
  }

  lemma SpacesWithout(live: seq<Process>, k: nat)
    requires k < |live| && forall i, j :: 0 <= i < j < |live| ==> live[i].space != live[j].space
    ensures SpacesOf(live[..k] + live[k + 1..]) == SpacesOf(live) - {live[k].space}
  {
    var rest := live[..k] + live[k + 1..];
    forall s | s in SpacesOf(live) - {live[k].space} ensures s in SpacesOf(rest) {
      var q :| q in live && q.space == s;
      assert q in rest;
    }
    forall s | s in SpacesOf(rest) ensures s in SpacesOf(live) - {live[k].space} {
      var q :| q in rest && q.space == s;
      assert q in live;
    }
  }

  function Creations(ops: seq<Op>): nat {
    if ops == [] then 0 else (if ops[0].Kill? then 0 else 1) + Creations(ops[1..])
  }

  /** The program needs no more than that. */
  predicate Modest(program: seq<Segment>, frames: nat, pages: nat) {
    FramesFor(program) <= frames && PeakFor(program) <= pages
  }

  /** Every program that may be started needs no more than that. */
  predicate AllModest(live: seq<Process>, ops: seq<Op>, frames: nat, pages: nat) {
    (forall p :: p in live ==> Modest(p.program, frames, pages))
    && forall op :: op in ops && op.Exec? ==> Modest(op.program, frames, pages)
  }

  /** The programs of all processes, and those that will be started, are mapped without stale pages. */
  predicate AllTidy(live: seq<Process>, ops: seq<Op>) {
    (forall p :: p in live ==> Tidy(p.program)) && forall op :: op in ops && op.Exec? ==> Tidy(op.program)
  }

  /** Any run of creations, forks and kills keeps the address spaces apart. It stops at an illegal call, or
      when a creation finds too little; with enough for every creation from the start it does not. */
  method DoAll(pg: Pager, live: seq<Process>, ops: seq<Op>, ghost frames: nat, ghost pages: nat)
    returns (live': seq<Process>, done: nat)
    requires Living(pg, live)
    modifies pg, pg.bits, pg.phys
    ensures done <= |ops| && (!pg.panicked ==> Living(pg, live') && (done < |ops| ==> !Legal(live', ops[done])))
    ensures pg.panicked ==> done < |ops| && !ops[done].Kill?
    ensures !Short(old(Left(pg)), Creations(ops) * frames, Creations(ops) * pages) ==>
      AllModest(live, ops, frames, pages) ==>
      !pg.panicked
    ensures !pg.panicked && AllTidy(live, ops) ==> pg.stale == old(pg.stale)
    ensures !pg.panicked ==> pg.Valid() && KernelSame(old(pg.phys[..]), pg.phys[..])
    ensures !pg.panicked ==> pg.Valid() && forall p :: p in live' ==> SeesKernel(pg.phys[..], p.space)
  {
    hide World, Loadable, Legal, Tidy, Left, Modest, Creations, KernelSame, SeesKernel;
    live', done := live, 0;
    ghost var m := pg.phys[..];
    KernelItself(m);
    LivingSees(pg, live);
    ghost var tidy := AllTidy(live, ops);
    assert ops[0..] == ops;
    while done < |ops|
      invariant done <= |ops| && Living(pg, live') && pg.Valid() && KernelSame(m, pg.phys[..])
      invariant forall p :: p in live' ==> SeesKernel(pg.phys[..], p.space)
      invariant tidy ==> pg.stale == old(pg.stale) && forall p :: p in live' ==> Tidy(p.program)
      invariant old(Enough(pg, live, ops, frames, pages)) ==> Enough(pg, live', ops[done..], frames, pages)
    {
      assert ops[done] in ops && ops[done] in ops[done..];
      var legal := Legal(live', ops[done]);
      if !legal {
        return;
      }
      ghost var m1 := pg.phys[..];
      live' := DoNext(pg, live', ops[done..], frames, pages);
      if pg.panicked {
        return;
      }
      KernelSameOn(m, m1, pg.phys[..]);
      LivingSees(pg, live');
      assert ops[done..][1..] == ops[done + 1..];
      done := done + 1;
    }
  }

  lemma KernelItself(m: Mem)
    requires Paged(m)
    ensures KernelSame(m, m)
  {
  }

  lemma LivingSees(pg: Pager, live: seq<Process>)
    requires Living(pg, live)
    ensures forall p :: p in live ==> SeesKernel(pg.phys[..], p.space)
  {
    hide World, Loadable, SeesKernel;
    WorldSeesKernel(Now(pg), SpacesOf(live));
    forall p | p in live ensures SeesKernel(pg.phys[..], p.space) {
      assert p.space in SpacesOf(live);
    }
  }

  /** There is enough for every creation in ops. */
  ghost predicate Enough(pg: Pager, live: seq<Process>, ops: seq<Op>, frames: nat, pages: nat)
    requires Paged(pg.phys[..])
    reads pg, pg.bits, pg.phys
  {
    !Short(Left(pg), Creations(ops) * frames, Creations(ops) * pages) && AllModest(live, ops, frames, pages)
  }

  /** The first call of ops. */
  method DoNext(pg: Pager, live: seq<Process>, ops: seq<Op>, ghost frames: nat,
                ghost pages: nat) returns (live': seq<Process>)
    requires Living(pg, live) && ops != [] && Legal(live, ops[0])
    modifies pg, pg.bits, pg.phys
    ensures !pg.panicked ==> Living(pg, live')
    ensures pg.panicked ==> !ops[0].Kill?
    ensures !pg.panicked ==> pg.Valid() && KernelSame(old(pg.phys[..]), pg.phys[..])
    ensures old(Enough(pg, live, ops, frames, pages)) ==> !pg.panicked && Enough(pg, live', ops[1..], frames, pages)
    ensures !pg.panicked && (forall p :: p in live ==> Tidy(p.program)) && (ops[0].Exec? ==> Tidy(ops[0].program)) ==>
      pg.stale == old(pg.stale) && forall p :: p in live' ==> Tidy(p.program)
  {
    hide World, Loadable, Tidy, Left, Modest, Creations, FramesFor, PeakFor, PagesFor, AllModest, ProgramOf, Legal,
      KernelSame;
    ghost var enough := Enough(pg, live, ops, frames, pages);
    if enough {
      CreationsStep(ops, frames, pages);
      ProgramModest(live, ops, frames, pages);
    }
    live' := Do(pg, live, ops[0]);
    if enough {
      StillModest(live, live', ops, frames, pages);
    }
  }

  lemma CreationsStep(ops: seq<Op>, frames: nat, pages: nat)
    requires ops != []
    ensures var n, m := Creations(ops), Creations(ops[1..]);
      && (ops[0].Kill? ==> n == m) && m * frames >= 0 && m * pages >= 0
      && (!ops[0].Kill? ==> n * frames == m * frames + frames && n * pages == m * pages + pages)
  {
    Distribute(Creations(ops[1..]), frames);
    Distribute(Creations(ops[1..]), pages);
  }

  lemma Distribute(m: nat, x: nat)
    ensures (m + 1) * x == m * x + x && m * x >= 0
  {
  }

  lemma ProgramModest(live: seq<Process>, ops: seq<Op>, frames: nat, pages: nat)
    requires AllModest(live, ops, frames, pages) && ops != [] && Legal(live, ops[0])
    ensures !ops[0].Kill? ==>
      var p := ProgramOf(live, ops[0]); FramesFor(p) <= frames && PagesFor(p) <= PeakFor(p) <= pages
  {
    hide NeedOf;
    assert ops[0] in ops;
    if ops[0].Fork? { assert live[ops[0].parent] in live; }
  }

  lemma StillModest(live: seq<Process>, live': seq<Process>, ops: seq<Op>, frames: nat, pages: nat)
    requires AllModest(live, ops, frames, pages) && ops != [] && Legal(live, ops[0])
    requires match ops[0]
             case Kill(victim) => live' == live[..victim] + live[victim + 1..]
             case Exec(program) => |live'| == |live| + 1 && live' == live + [Process(live'[|live|].space, program)]
             case Fork(parent) =>
               |live'| == |live| + 1 && live' == live + [Process(live'[|live|].space, live[parent].program)]
    ensures AllModest(live', ops[1..], frames, pages)
  {
    hide Modest;
    assert ops[0] in ops;
    if ops[0].Fork? { assert live[ops[0].parent] in live; }
  }

  /** After paging_init there is no process, and what every directory shares is mapped. */
  lemma Booted(pg: Pager)
    requires pg.Valid() && KernelMapped(pg.phys[..])
    ensures Living(pg, [])
  {
    var m := pg.phys[..];
    forall i | 0 <= i < ENTRIES && Shared(i) ensures m[DIR][i] != UNMAPPED {
      if !Preset(i) {
        assert Upper(i * ENTRIES) && (i * ENTRIES) / ENTRIES == i;
        assert Walk(m, i * ENTRIES) != UNMAPPED;
      }
    }
  }

  /** What the kernel's heap and the file system are mapped to, seen from a process. */
  lemma FileSystemSeen(m: Mem, m': Mem, s: Space)
    requires Paged(m) && Paged(m') && KernelMapped(m) && KernelSame(m, m') && SeesKernel(m', s)
    ensures forall v :: KERNEL_HEAP_START * ENTRIES <= v < (FS_END + 1) * ENTRIES ==>
      Translate(m', s, v) == Walk(m, v) != UNMAPPED
  {
    forall v | KERNEL_HEAP_START * ENTRIES <= v < (FS_END + 1) * ENTRIES
      ensures Translate(m', s, v) == Walk(m, v) != UNMAPPED
    {
      assert Upper(v) && Walk(m', v) == Walk(m, v);
    }
  }

  /** From paging_init on, whatever processes come and go, every one that is alive maps the kernel's heap and the
      file system to the frames that paging_init gave them. */
  method StartAndRun(m: Mem, b: seq<bool>, ops: seq<Op>)
    returns (pg: Pager, live: seq<Process>, done: nat, ghost start: Mem)
    requires |m| == |b| && |b| % 32 == 0 && LOCKED <= |b| <= UNMAPPED && Paged(m)
    requires m[DIR][0] == TABLE_0 && m[DIR][1] == TABLE_1 && m[DIR][768] == TABLE_768
    ensures !pg.panicked ==> Living(pg, live) && pg.Valid() && Paged(start) && KernelMapped(start)
    ensures !pg.panicked ==>
      && pg.Valid() && Paged(start)
      && forall p, v :: p in live && KERNEL_HEAP_START * ENTRIES <= v < (FS_END + 1) * ENTRIES ==>
        Translate(pg.phys[..], p.space, v) == Walk(start, v) != UNMAPPED
  {
    hide World, Translate, Walk, DirOk, Owned, SeesKernel, KernelSame;
    pg := new Pager.Init(m, b);
    live, done, start := [], 0, pg.phys[..];
    if !pg.panicked {
      Booted(pg);
      live, done := DoAll(pg, [], ops, 0, 0);
      if !pg.panicked {
        forall p | p in live
          ensures forall v :: KERNEL_HEAP_START * ENTRIES <= v < (FS_END + 1) * ENTRIES ==>
            Translate(pg.phys[..], p.space, v) == Walk(start, v) != UNMAPPED
        {
          FileSystemSeen(start, pg.phys[..], p.space);
        }
      }
    }
  }
}

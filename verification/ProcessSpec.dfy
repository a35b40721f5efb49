/** Address spaces of processes: which of the kernel's pages hold their directory and
    their page tables, and which frames these map. */
module ProcessSpec {
  import opened PagingSpec

  const STACK_TABLE: nat := 767
  const HEAP_TABLES_START: nat := 764
  const HEAP_TABLES_END: nat := 766

  /** What the kernel can still give away: frames, and pages that allocate_page finds. */
  datatype Budget = Budget(frames: nat, pages: nat)

  predicate Short(a: Budget, frames: int, pages: int) { a.frames < frames || a.pages < pages }

  /** From a to b so many frames and pages were given away. */
  predicate Spent(a: Budget, b: Budget, frames: int, pages: int) {
    a.frames == b.frames + frames && a.pages == b.pages + pages
  }

  /** The page with the directory and those with the page tables, in the order they were made. */
  datatype Space = Space(dir: nat, tables: seq<nat>)

  predicate Uses(s: Space, v: int) { v == s.dir || v in s.tables }

  /** What the kernel knows: memory, the owners of the frames, and the stale pages. */
  datatype Snap = Snap(mem: Mem, owner: map<int, Owner>, stale: set<int>)

  /** Entry j of the page directory or page table that the kernel maps at page v. */
  function Entry(m: Mem, v: int, j: int): int
    requires Paged(m) && 0 <= j < ENTRIES
  {
    var t := Walk(m, v);
    if 0 <= t < |m| then m[t][j] else UNMAPPED
  }

  /** Pages that allocate_page can find. */
  predicate UserPage(v: int) { 2 * ENTRIES <= v < USER_TABLES * ENTRIES }

  /** Pages behind the kernel's own table. */
  predicate Upper(v: int) { (USER_TABLES + 1) * ENTRIES <= v < PAGES }

  /** A page below the kernel that it maps and that is its own. */
  ghost predicate Held(a: Snap, v: int)
    requires Paged(a.mem)
  {
    UserPage(v) && v !in a.stale && Walk(a.mem, v) != UNMAPPED
  }

  /** The first n entries of a table map nothing, or a frame that belongs to this very entry. */
  ghost predicate TableOk(a: Snap, vt: int, n: int)
    requires Paged(a.mem) && n <= ENTRIES
  {
    forall j :: 0 <= j < n ==> EntryOk(a, vt, j)
  }

  ghost predicate EntryOk(a: Snap, vt: int, j: int)
    requires Paged(a.mem) && 0 <= j < ENTRIES
  {
    var f := Entry(a.mem, vt, j);
    f == UNMAPPED || (f in a.owner && a.owner[f] == UserEntry(vt, j))
  }

  /** The tables that every directory has from the kernel's: its own, those of its heap, and those of the file
      system. */
  predicate Shared(i: int) { Preset(i) || KERNEL_HEAP_START <= i <= KERNEL_HEAP_END || FS_START <= i <= FS_END }

  /** The kernel maps these, and behind its own table no others. */
  ghost predicate SharedMapped(m: Mem)
    requires Paged(m)
  {
    && (forall i :: 0 <= i < ENTRIES && Shared(i) ==> m[DIR][i] != UNMAPPED)
    && forall v :: Upper(v) && Walk(m, v) != UNMAPPED ==> Shared(v / ENTRIES)
  }

  ghost predicate TableOf(m: Mem, s: Space, f: int)
    requires Paged(m)
  {
    exists vt :: vt in s.tables && Walk(m, vt) == f
  }

  /** Below the kernel a directory has the process's own tables, and above it those of the kernel. */
  ghost predicate DirectoryOk(m: Mem, s: Space)
    requires Paged(m)
  {
    forall i :: 0 <= i < ENTRIES ==>
      if Shared(i) then Entry(m, s.dir, i) == m[DIR][i]
      else Entry(m, s.dir, i) == UNMAPPED || TableOf(m, s, Entry(m, s.dir, i))
  }

  ghost predicate SpaceOk(a: Snap, s: Space)
    requires Paged(a.mem)
  {
    && (forall v :: Uses(s, v) ==> Held(a, v))
    && s.dir !in s.tables && (forall i, k :: 0 <= i < k < |s.tables| ==> s.tables[i] != s.tables[k])
    && DirectoryOk(a.mem, s)
    && forall vt :: vt in s.tables ==> TableOk(a, vt, ENTRIES)
  }

  ghost predicate Apart(s: Space, t: Space) { forall v :: !(Uses(s, v) && Uses(t, v)) }

  /** All live processes have address spaces of their own. */
  ghost predicate World(a: Snap, spaces: set<Space>)
    requires Paged(a.mem)
  {
    && SharedMapped(a.mem)
    && (forall s :: s in spaces ==> SpaceOk(a, s))
    && forall s, t :: s in spaces && t in spaces && s != t ==> Apart(s, t)
  }

  // ---------- what a step leaves alone ----------

  /** The pages in `keep` have the same contents, and their entries own the same frames; behind its own table the
      kernel maps what it mapped. */
  ghost predicate Keeps(a: Snap, b: Snap, keep: set<int>)
    requires Paged(a.mem) && Paged(b.mem)
  {
    && (forall i :: 0 <= i < ENTRIES && a.mem[DIR][i] != UNMAPPED ==> b.mem[DIR][i] == a.mem[DIR][i])
    && (forall v :: Upper(v) ==> Walk(b.mem, v) == Walk(a.mem, v))
    && forall v :: v in keep && Held(a, v) ==> PageKept(a, b, v)
  }

  ghost predicate PageKept(a: Snap, b: Snap, v: int)
    requires Paged(a.mem) && Paged(b.mem)
  {
    && Held(b, v) && Walk(b.mem, v) == Walk(a.mem, v)
    && (forall j :: 0 <= j < ENTRIES ==> Entry(b.mem, v, j) == Entry(a.mem, v, j))
    && forall j :: 0 <= j < ENTRIES && EntryOk(a, v, j) ==> EntryOk(b, v, j)
  }

  lemma KeepsOn(a: Snap, b: Snap, c: Snap, keep: set<int>)
    requires Paged(a.mem) && Paged(b.mem) && Paged(c.mem)
    requires Keeps(a, b, keep) && Keeps(b, c, keep)
    ensures Keeps(a, c, keep)
  {
    forall v | v in keep && Held(a, v) ensures PageKept(a, c, v) {
      assert PageKept(a, b, v) && PageKept(b, c, v);
      PageKeptOn(a, b, c, v);
    }
  }

  lemma PageKeptOn(a: Snap, b: Snap, c: Snap, v: int)
    requires Paged(a.mem) && Paged(b.mem) && Paged(c.mem)
    requires PageKept(a, b, v) && PageKept(b, c, v)
    ensures PageKept(a, c, v)
  {
  }

  lemma KeepsLess(a: Snap, b: Snap, keep: set<int>, less: set<int>)
    requires Paged(a.mem) && Paged(b.mem) && Keeps(a, b, keep) && less <= keep
    ensures Keeps(a, b, less)
  {
  }

  lemma KeptHeld(a: Snap, b: Snap, keep: set<int>)
    requires Paged(a.mem) && Paged(b.mem) && Keeps(a, b, keep) && SharedMapped(a.mem)
    requires forall v :: v in keep ==> Held(a, v)
    ensures SharedMapped(b.mem) && forall v :: v in keep ==> Held(b, v)
  {
    forall v | v in keep ensures Held(b, v) {
      assert PageKept(a, b, v);
    }
  }

  lemma SpaceHolds(a: Snap, s: Space)
    requires Paged(a.mem) && SpaceOk(a, s)
    ensures forall v :: Uses(s, v) ==> Held(a, v)
  {
  }

  lemma SpaceKept(a: Snap, b: Snap, keep: set<int>, s: Space)
    requires Paged(a.mem) && Paged(b.mem) && Keeps(a, b, keep) && SpaceOk(a, s) && SharedMapped(a.mem)
    requires forall v :: Uses(s, v) ==> v in keep
    ensures SpaceOk(b, s)
  {
    forall v | Uses(s, v) ensures PageKept(a, b, v) {
      assert Held(a, v);
    }
    forall vt | vt in s.tables ensures TableOk(b, vt, ENTRIES) {
      assert Uses(s, vt) && TableOk(a, vt, ENTRIES);
    }
    DirectoryKept(a, b, s);
  }

  lemma DirectoryKept(a: Snap, b: Snap, s: Space)
    requires Paged(a.mem) && Paged(b.mem) && DirectoryOk(a.mem, s) && SharedMapped(a.mem)
    requires forall i :: 0 <= i < ENTRIES && a.mem[DIR][i] != UNMAPPED ==> b.mem[DIR][i] == a.mem[DIR][i]
    requires forall v :: Uses(s, v) ==> PageKept(a, b, v)
    ensures DirectoryOk(b.mem, s)
  {
    assert Uses(s, s.dir);
    forall i | 0 <= i < ENTRIES && !Shared(i) && Entry(b.mem, s.dir, i) != UNMAPPED
      ensures TableOf(b.mem, s, Entry(b.mem, s.dir, i))
    {
      var vt :| vt in s.tables && Walk(a.mem, vt) == Entry(a.mem, s.dir, i);
      assert Uses(s, vt);
      assert Walk(b.mem, vt) == Entry(b.mem, s.dir, i);
    }
  }

  // ---------- writing an entry of a directory or table ----------

  /** Entry j of what is at page v is x now. */
  ghost predicate Written(m: Mem, m': Mem, v: int, j: int, x: int)
    requires Paged(m)
  {
    && Kernel(v) && 0 <= j < ENTRIES && 0 <= Walk(m, v) < |m|
    && m' == m[Walk(m, v) := m[Walk(m, v)][j := x]]
  }

  lemma WrittenFacts(a: Snap, b: seq<bool>, next: nat, m': Mem, v: int, j: int, x: int)
    requires Paged(a.mem) && DirOk(a.mem, next) && Owned(a.mem, b, a.owner, a.stale) && |b| == |a.mem|
    requires Held(a, v) && Written(a.mem, m', v, j, x)
    ensures Paged(m') && DirOk(m', next) && Owned(m', b, a.owner, a.stale) && m'[DIR] == a.mem[DIR]
    ensures SameWalks(a.mem, m')
    ensures forall k :: 0 <= k < ENTRIES ==> Entry(m', v, k) == if k == j then x else Entry(a.mem, v, k)
    ensures forall w :: Held(a, w) && w != v ==> PageKept(a, a.(mem := m'), w)
  {
    var t := Walk(a.mem, v);
    assert t in a.owner && a.owner[t] == KernelPage(v);
    WalksBelow(a.mem, m', next);
    forall w | Held(a, w) && w != v ensures PageKept(a, a.(mem := m'), w) {
      assert a.owner[Walk(a.mem, w)] == KernelPage(w);
      assert Walk(m', w) == Walk(a.mem, w);
    }
  }

  /** A frame changes hands, but not one of a table to be kept. */
  lemma GivenTo(a: Snap, f: int, o: Owner, keep: set<int>)
    requires Paged(a.mem) && (f in a.owner && a.owner[f].UserEntry? ==> a.owner[f].table !in keep)
    ensures Keeps(a, a.(owner := a.owner[f := o]), keep)
  {
  }

  /** The kernel took a page: no page that was held is touched. */
  lemma PageTaken(a: Snap, b: seq<bool>, a': Snap, b': seq<bool>, v: nat, keep: set<int>)
    requires Paged(a.mem) && Paged(a'.mem) && Owned(a.mem, b, a.owner, a.stale) && |b| == |a.mem| && a'.stale == a.stale
    requires LeastUnmapped(a.mem, v) && Grown(a.mem, a'.mem) && Taken(a.mem, b, a.owner, a'.mem, b', a'.owner, v)
    ensures Keeps(a, a', keep) && Held(a', v) && !Held(a, v)
  {
    forall w | w in keep && Held(a, w) ensures PageKept(a, a', w) {
      assert a.owner[Walk(a.mem, w)] == KernelPage(w);
      assert Walk(a'.mem, w) == Walk(a.mem, w) >= LOCKED;
    }
  }

  lemma KeepsSame(a: Snap, keep: set<int>)
    requires Paged(a.mem)
    ensures Keeps(a, a, keep)
  {
  }

  /** A frame that was free, and that nobody owns yet. */
  lemma FrameTaken(a: Snap, b: seq<bool>, f: int, keep: set<int>)
    requires Paged(a.mem) && Owned(a.mem, b, a.owner, a.stale) && 0 <= f < |b| && !b[f]
    ensures var a' := a.(owner := a.owner[f := Lost]);
      Keeps(a, a', keep) && Owned(a.mem, b[f := true], a'.owner, a.stale) && f !in a.owner
  {
    GivenTo(a, f, Lost, keep);
  }

  /** A frame that nobody owns becomes that of the entry it stands in. */
  lemma FrameGiven(a: Snap, b: seq<bool>, vt: nat, j: nat, f: int, keep: set<int>)
    requires Paged(a.mem) && Owned(a.mem, b, a.owner, a.stale) && f in a.owner && a.owner[f] == Lost
    requires j < ENTRIES && Entry(a.mem, vt, j) == f
    ensures var a' := a.(owner := a.owner[f := UserEntry(vt, j)]);
      && Keeps(a, a', keep) && Owned(a.mem, b, a'.owner, a.stale)
      && EntryOk(a', vt, j)
      && forall k :: 0 <= k < ENTRIES && EntryOk(a, vt, k) ==> EntryOk(a', vt, k)
  {
    GivenTo(a, f, UserEntry(vt, j), keep);
  }

  /** What a user address is translated to: through the directory of the process to a table, and on. */
  function Translate(m: Mem, s: Space, page: nat): int
    requires Paged(m) && page < PAGES
  {
    var t := Entry(m, s.dir, page / ENTRIES);
    if 0 <= t < |m| then m[t][page % ENTRIES] else UNMAPPED
  }

  predicate Maps(m: Mem, s: Space, page: int)
    requires Paged(m)
  {
    0 <= page < PAGES && Translate(m, s, page) != UNMAPPED
  }

  /** What the kernel maps through its preset tables and behind its own one, the process maps to the same frame. */
  ghost predicate SeesKernel(m: Mem, s: Space)
    requires Paged(m)
  {
    forall p :: 0 <= p < PAGES && (Preset(p / ENTRIES) || Upper(p)) && Walk(m, p) != UNMAPPED ==>
      Translate(m, s, p) == Walk(m, p)
  }

  lemma KernelSeen(a: Snap, s: Space)
    requires Paged(a.mem) && SharedMapped(a.mem) && SpaceOk(a, s)
    ensures SeesKernel(a.mem, s)
  {
    forall p | 0 <= p < PAGES && (Preset(p / ENTRIES) || Upper(p)) && Walk(a.mem, p) != UNMAPPED
      ensures Translate(a.mem, s, p) == Walk(a.mem, p)
    {
      assert Shared(p / ENTRIES);
      assert Entry(a.mem, s.dir, p / ENTRIES) == a.mem[DIR][p / ENTRIES];
    }
  }

  lemma WorldSeesKernel(a: Snap, spaces: set<Space>)
    requires Paged(a.mem) && World(a, spaces)
    ensures forall s :: s in spaces ==> SeesKernel(a.mem, s)
  {
    forall s | s in spaces ensures SeesKernel(a.mem, s) {
      KernelSeen(a, s);
    }
  }

  /** Behind its own table the kernel maps what it mapped. */
  ghost predicate KernelSame(m: Mem, m': Mem)
    requires Paged(m) && Paged(m')
  {
    forall v :: Upper(v) ==> Walk(m', v) == Walk(m, v)
  }

  lemma KeepsKernel(a: Snap, b: Snap, keep: set<int>)
    requires Paged(a.mem) && Paged(b.mem) && Keeps(a, b, keep)
    ensures KernelSame(a.mem, b.mem)
  {
  }

  lemma KernelSameOn(m: Mem, m1: Mem, m2: Mem)
    requires Paged(m) && Paged(m1) && Paged(m2) && KernelSame(m, m1) && KernelSame(m1, m2)
    ensures KernelSame(m, m2)
  {
  }

  /** Of the pages that the kernel does not leave to processes, it maps those of its heap and of the file system. */
  ghost predicate KernelMapped(m: Mem)
    requires Paged(m)
  {
    forall v :: Upper(v) ==> (Walk(m, v) != UNMAPPED <==> KERNEL_HEAP_START * ENTRIES <= v < (FS_END + 1) * ENTRIES)
  }

  /** All pages of table i are mapped. */
  ghost predicate FullTable(m: Mem, s: Space, i: int)
    requires Paged(m)
  {
    forall p :: i * ENTRIES <= p < i * ENTRIES + ENTRIES ==> Maps(m, s, p)
  }

  /** Pages that were mapped still are, but perhaps not those of the tables in `except`. */
  ghost predicate StillMaps(m: Mem, s: Space, m': Mem, t: Space, except: set<int>)
    requires Paged(m) && Paged(m')
  {
    forall p :: Maps(m, s, p) && !Shared(p / ENTRIES) && p / ENTRIES !in except ==> Maps(m', t, p)
  }

  lemma StillMapsOn(m: Mem, s: Space, m1: Mem, s1: Space, m2: Mem, s2: Space, x: set<int>, y: set<int>)
    requires Paged(m) && Paged(m1) && Paged(m2) && StillMaps(m, s, m1, s1, x) && StillMaps(m1, s1, m2, s2, y)
    ensures StillMaps(m, s, m2, s2, x + y)
  {
  }

  lemma FullTableKept(m: Mem, s: Space, m': Mem, t: Space, x: set<int>, i: int)
    requires Paged(m) && Paged(m') && StillMaps(m, s, m', t, x) && FullTable(m, s, i) && !Shared(i) && i !in x
    ensures FullTable(m', t, i)
  {
    forall p | i * ENTRIES <= p < i * ENTRIES + ENTRIES ensures Maps(m', t, p) {
      assert p / ENTRIES == i && Maps(m, s, p);
    }
  }

  /** What the process maps depends on its own pages only. */
  lemma TranslateKept(a: Snap, b: Snap, keep: set<int>, s: Space)
    requires Paged(a.mem) && Paged(b.mem) && |b.mem| == |a.mem| && Keeps(a, b, keep) && SpaceOk(a, s)
    requires forall v :: Uses(s, v) ==> v in keep
    ensures StillMaps(a.mem, s, b.mem, s, {})
  {
    assert Uses(s, s.dir) && Held(a, s.dir) && PageKept(a, b, s.dir);
    forall p | Maps(a.mem, s, p) && !Shared(p / ENTRIES) ensures Maps(b.mem, s, p) {
      var e := Entry(a.mem, s.dir, p / ENTRIES);
      var vt :| vt in s.tables && Walk(a.mem, vt) == e;
      assert Uses(s, vt) && Held(a, vt) && PageKept(a, b, vt);
      assert Entry(b.mem, vt, p % ENTRIES) == Entry(a.mem, vt, p % ENTRIES);
    }
  }

  // ---------- the making of an address space ----------

  ghost function PagesOf(s: Space): (r: set<int>)
    ensures forall v :: v in r <==> Uses(s, v)
  {
    {s.dir as int} + set vt | vt in s.tables :: vt as int
  }

  /** A new table is entered in the directory. */
  lemma TableEntered(a: Snap, b: Snap, s: Space, vt: nat, i: nat)
    requires Paged(a.mem) && Paged(b.mem) && SpaceOk(a, s) && Held(b, vt) && !Uses(s, vt) && TableOk(b, vt, ENTRIES)
    requires i < ENTRIES && !Shared(i) && b.mem[DIR] == a.mem[DIR]
    requires forall v :: v in s.tables ==> PageKept(a, b, v)
    requires Held(b, s.dir)
    requires forall k :: 0 <= k < ENTRIES ==>
      Entry(b.mem, s.dir, k) == if k == i then Walk(b.mem, vt) else Entry(a.mem, s.dir, k)
    ensures SpaceOk(b, s.(tables := s.tables + [vt]))
  {
    var t := s.(tables := s.tables + [vt]);
    forall v | Uses(t, v) ensures Held(b, v) {
      if v in s.tables { assert PageKept(a, b, v); }
    }
    forall v | v in t.tables ensures TableOk(b, v, ENTRIES) {
      if v != vt { assert v in s.tables && PageKept(a, b, v) && TableOk(a, v, ENTRIES); }
    }
    forall k | 0 <= k < ENTRIES && !Shared(k) && Entry(b.mem, s.dir, k) != UNMAPPED
      ensures TableOf(b.mem, t, Entry(b.mem, s.dir, k))
    {
      if k == i {
        assert vt in t.tables;
      } else {
        var w :| w in s.tables && Walk(a.mem, w) == Entry(a.mem, s.dir, k);
        assert PageKept(a, b, w) && w in t.tables;
      }
    }
  }

  /** Of the pages that were mapped only those of the entered table may be gone, and what that table maps
      the process maps now. */
  lemma TranslateEntered(a: Snap, b: Snap, s: Space, vt: nat, i: nat)
    requires Paged(a.mem) && Paged(b.mem) && |b.mem| == |a.mem| && SpaceOk(a, s) && i < ENTRIES && !Shared(i)
    requires forall v :: v in s.tables ==> PageKept(a, b, v)
    requires forall k :: 0 <= k < ENTRIES ==>
      Entry(b.mem, s.dir, k) == if k == i then Walk(b.mem, vt) else Entry(a.mem, s.dir, k)
    ensures StillMaps(a.mem, s, b.mem, s.(tables := s.tables + [vt]), {i})
    ensures forall p :: i * ENTRIES <= p < i * ENTRIES + ENTRIES && Entry(b.mem, vt, p - i * ENTRIES) != UNMAPPED ==>
      Maps(b.mem, s.(tables := s.tables + [vt]), p)
  {
    var t := s.(tables := s.tables + [vt]);
    forall p | Maps(a.mem, s, p) && !Shared(p / ENTRIES) && p / ENTRIES != i ensures Maps(b.mem, t, p) {
      var e := Entry(a.mem, s.dir, p / ENTRIES);
      var wt :| wt in s.tables && Walk(a.mem, wt) == e;
      assert PageKept(a, b, wt);
      assert Entry(b.mem, wt, p % ENTRIES) == Entry(a.mem, wt, p % ENTRIES);
    }
    forall p | i * ENTRIES <= p < i * ENTRIES + ENTRIES && Entry(b.mem, vt, p - i * ENTRIES) != UNMAPPED
        ensures Maps(b.mem, t, p)
      {
      assert p / ENTRIES == i && p % ENTRIES == p - i * ENTRIES;
    }
  }

  // ---------- segments ----------

  ghost predicate SameDirectory(m: Mem, m': Mem, s: Space)
    requires Paged(m) && Paged(m')
  {
    && (forall k :: 0 <= k < ENTRIES ==> Entry(m', s.dir, k) == Entry(m, s.dir, k))
    && forall vt :: vt in s.tables ==> Walk(m', vt) == Walk(m, vt)
  }

  lemma DirectoryItself(m: Mem, s: Space)
    requires Paged(m)
    ensures SameDirectory(m, m, s) && StillMaps(m, s, m, s, {})
  {
  }

  lemma SameDirectoryOn(m: Mem, m1: Mem, m2: Mem, s: Space)
    requires Paged(m) && Paged(m1) && Paged(m2) && SameDirectory(m, m1, s) && SameDirectory(m1, m2, s)
    ensures SameDirectory(m, m2, s)
  {
  }

  lemma DirectorySame(a: Snap, b: Snap, keep: set<int>, s: Space)
    requires Paged(a.mem) && Paged(b.mem) && Keeps(a, b, keep) && SpaceOk(a, s)
    requires forall v :: Uses(s, v) ==> v in keep
    ensures SameDirectory(a.mem, b.mem, s)
  {
    assert Uses(s, s.dir) && Held(a, s.dir) && PageKept(a, b, s.dir);
    forall vt | vt in s.tables ensures Walk(b.mem, vt) == Walk(a.mem, vt) {
      assert Uses(s, vt) && Held(a, vt) && PageKept(a, b, vt);
    }
  }

  /** The table that was made last is that of the index that was seen last. */
  ghost predicate TopOk(m: Mem, s: Space, indexes: seq<nat>)
    requires Paged(m)
  {
    indexes != [] ==>
      && s.tables != [] && indexes[|indexes| - 1] < ENTRIES
      && Entry(m, s.dir, indexes[|indexes| - 1]) == Walk(m, s.tables[|s.tables| - 1])
  }

  lemma TopKept(m: Mem, m': Mem, s: Space, indexes: seq<nat>)
    requires Paged(m) && Paged(m') && SameDirectory(m, m', s) && TopOk(m, s, indexes)
    ensures TopOk(m', s, indexes)
  {
    hide Entry, Walk;
    if indexes != [] {
      assert s.tables[|s.tables| - 1] in s.tables;
    }
  }

  /** What is written in a table of the directory the process maps. */
  lemma ReachedThrough(m: Mem, s: Space, vt: nat, i: nat, from: nat, to: nat)
    requires Paged(m) && i < USER_TABLES && from <= to <= ENTRIES
    requires forall k :: from <= k < to ==> Entry(m, vt, k) != UNMAPPED
    ensures Entry(m, s.dir, i) == Walk(m, vt) ==> forall p :: i * ENTRIES + from <= p < i * ENTRIES + to ==>
      Maps(m, s, p)
  {
    if Entry(m, s.dir, i) == Walk(m, vt) {
      forall p | i * ENTRIES + from <= p < i * ENTRIES + to ensures Maps(m, s, p) {
        assert p / ENTRIES == i && p % ENTRIES == p - i * ENTRIES;
        assert Entry(m, vt, p % ENTRIES) != UNMAPPED;
      }
    }
  }

  predicate Sorted(indexes: seq<nat>) { forall i, k :: 0 <= i < k < |indexes| ==> indexes[i] < indexes[k] }

  /** Tables were made in ascending order, and the segment that comes next starts in the last one or behind. */
  predicate InOrder(indexes: seq<nat>, first: int) {
    Sorted(indexes) && (indexes != [] ==> indexes[|indexes| - 1] <= first)
  }

  /** A table of the process was written, its other pages were not. */
  lemma SpaceKeptBut(a: Snap, b: Snap, s: Space, vt: nat)
    requires Paged(a.mem) && Paged(b.mem) && SpaceOk(a, s) && SharedMapped(a.mem) && vt in s.tables
    requires forall i :: 0 <= i < ENTRIES && a.mem[DIR][i] != UNMAPPED ==> b.mem[DIR][i] == a.mem[DIR][i]
    requires forall v :: Uses(s, v) && v != vt ==> PageKept(a, b, v)
    requires Held(b, vt) && Walk(b.mem, vt) == Walk(a.mem, vt) && TableOk(b, vt, ENTRIES)
    ensures SpaceOk(b, s)
  {
    assert Uses(s, s.dir);
    forall v | v in s.tables ensures TableOk(b, v, ENTRIES) {
      if v != vt { assert Uses(s, v) && PageKept(a, b, v) && TableOk(a, v, ENTRIES); }
    }
    forall i | 0 <= i < ENTRIES && !Shared(i) && Entry(b.mem, s.dir, i) != UNMAPPED
      ensures TableOf(b.mem, s, Entry(b.mem, s.dir, i))
    {
      var w :| w in s.tables && Walk(a.mem, w) == Entry(a.mem, s.dir, i);
      assert Uses(s, w);
      assert Walk(b.mem, w) == Walk(a.mem, w);
    }
  }

  /** The frame of an entry that is overwritten is lost: it stays occupied, and belongs to nobody. */
  function Losing(o: map<int, Owner>, f: int): map<int, Owner> {
    if f == UNMAPPED then o else o[f := Lost]
  }

  /** The kernel's page va gives its frame to entry j of table vt, and is stale from then on. */
  lemma DataGiven(a: Snap, bits: seq<bool>, b: Snap, s: Space, vt: nat, j: nat, va: nat, keep: set<int>)
    requires Paged(a.mem) && Paged(b.mem) && Owned(b.mem, bits, b.owner, b.stale) && SharedMapped(a.mem)
    requires b.owner == a.owner && b.stale == a.stale && SameWalks(a.mem, b.mem) && b.mem[DIR] == a.mem[DIR]
    requires SpaceOk(a, s) && vt in s.tables && Held(a, va) && !Uses(s, va) && va !in keep && vt !in keep && j < ENTRIES
    requires Keeps(a, b, keep + PagesOf(s) - {vt as int})
    requires forall k :: 0 <= k < ENTRIES ==>
      Entry(b.mem, vt, k) == if k == j then Walk(b.mem, va) else Entry(a.mem, vt, k)
    ensures var d := Snap(b.mem, Losing(b.owner, Entry(a.mem, vt, j))[Walk(b.mem, va) := UserEntry(vt, j)],
                         b.stale + {va as int});
      && Owned(d.mem, bits, d.owner, d.stale) && Keeps(a, d, keep) && SpaceOk(d, s)
      && Keeps(a, d, keep + PagesOf(s) - {vt as int})
  {
    var mine := keep + PagesOf(s) - {vt as int};
    var f, f0 := Walk(b.mem, va), Entry(a.mem, vt, j);
    var c := b.(owner := Losing(b.owner, f0));
    var d := Snap(b.mem, c.owner[f := UserEntry(vt, j)], b.stale + {va as int});
    assert Uses(s, vt) && Held(a, vt) && TableOk(a, vt, ENTRIES) && EntryOk(a, vt, j);
    assert b.owner[f] == KernelPage(va);
    DataOwned(b, bits, vt, j, va, f0);
    KeepsSame(b, mine);
    if f0 != UNMAPPED {
      GivenTo(b, f0, Lost, mine);
    }
    StaleGiven(c, f, UserEntry(vt, j), va, mine);
    KeepsOn(a, b, c, mine);
    KeepsOn(a, c, d, mine);
    assert TableOk(d, vt, ENTRIES) by {
      forall k | 0 <= k < ENTRIES ensures EntryOk(d, vt, k) {
        assert EntryOk(a, vt, k);
      }
    }
    assert Walk(b.mem, vt) == Walk(a.mem, vt);
    SpaceKeptBut(a, d, s, vt);
    KeepsLess(a, d, mine, keep);
  }

  /** A page that gets another frame is still mapped. */
  lemma TranslateGiven(a: Snap, b: Snap, s: Space, vt: nat, j: nat)
    requires Paged(a.mem) && Paged(b.mem) && |b.mem| == |a.mem| && SpaceOk(a, s) && vt in s.tables && j < ENTRIES
    requires forall v :: Uses(s, v) && v != vt ==> PageKept(a, b, v)
    requires Walk(b.mem, vt) == Walk(a.mem, vt) && Entry(b.mem, vt, j) != UNMAPPED
    requires forall k :: 0 <= k < ENTRIES && k != j ==> Entry(b.mem, vt, k) == Entry(a.mem, vt, k)
    ensures StillMaps(a.mem, s, b.mem, s, {})
  {
    assert Uses(s, s.dir) && PageKept(a, b, s.dir);
    forall p | Maps(a.mem, s, p) && !Shared(p / ENTRIES) ensures Maps(b.mem, s, p) {
      var e := Entry(a.mem, s.dir, p / ENTRIES);
      var wt :| wt in s.tables && Walk(a.mem, wt) == e;
      assert Uses(s, wt) && (wt != vt ==> PageKept(a, b, wt));
      assert Entry(b.mem, wt, p % ENTRIES) != UNMAPPED;
    }
  }

  lemma StaleGiven(a: Snap, f: int, o: Owner, va: int, keep: set<int>)
    requires Paged(a.mem) && va !in keep && (f in a.owner && a.owner[f].UserEntry? ==> a.owner[f].table !in keep)
    ensures Keeps(a, Snap(a.mem, a.owner[f := o], a.stale + {va}), keep)
  {
  }

  lemma DataOwned(b: Snap, bits: seq<bool>, vt: nat, j: nat, va: nat, f0: int)
    requires Paged(b.mem) && Owned(b.mem, bits, b.owner, b.stale) && Held(b, va)
    requires f0 == UNMAPPED || (f0 in b.owner && b.owner[f0] == UserEntry(vt, j))
    ensures Owned(b.mem, bits, Losing(b.owner, f0)[Walk(b.mem, va) := UserEntry(vt, j)], b.stale + {va as int})
  {
    assert b.owner[Walk(b.mem, va)] == KernelPage(va);
  }

  /** The kernel forgets a stale page. */
  lemma StaleUnmapped(a: Snap, bits: seq<bool>, m': Mem, va: nat, keep: set<int>)
    requires UserPage(va)
    requires Paged(a.mem) && Paged(m') && Owned(a.mem, bits, a.owner, a.stale) && va in a.stale
    requires WalksBut(a.mem, m', va, UNMAPPED) && Grown(a.mem, m')
    ensures Owned(m', bits, a.owner, a.stale - {va as int}) && Keeps(a, Snap(m', a.owner, a.stale - {va as int}), keep)
  {
    var b := Snap(m', a.owner, a.stale - {va as int});
    forall w | w in keep && Held(a, w) ensures PageKept(a, b, w) {
      assert a.owner[Walk(a.mem, w)] == KernelPage(w);
      assert Walk(m', w) == Walk(a.mem, w) >= LOCKED;
    }
  }

  // ---------- taking an address space down ----------

  /** The frames that the first n entries of a table name. */
  function FramesIn(p: seq<int>, n: nat): (r: set<int>)
    requires n <= |p|
    ensures forall f :: f in r <==> f != UNMAPPED && f in p[..n]
  {
    set f | f in p[..n] && f != UNMAPPED
  }

  /** The frames that the tables of a process map. */
  ghost function FramesOf(m: Mem, tables: seq<nat>): set<int>
    requires Paged(m)
  {
    set vt, j | vt in tables && 0 <= j < ENTRIES && Entry(m, vt, j) != UNMAPPED :: Entry(m, vt, j)
  }

  lemma FramesOfSnoc(m: Mem, tables: seq<nat>, vt: nat)
    requires Paged(m) && 0 <= Walk(m, vt) < |m|
    ensures FramesOf(m, tables + [vt]) == FramesOf(m, tables) + FramesIn(m[Walk(m, vt)], ENTRIES)
  {
    var p := m[Walk(m, vt)];
    assert p[..ENTRIES] == p;
    forall f | f in FramesOf(m, tables + [vt]) ensures f in FramesOf(m, tables) || f in FramesIn(p, ENTRIES) {
      var wt, j :| wt in tables + [vt] && 0 <= j < ENTRIES && Entry(m, wt, j) == f && f != UNMAPPED;
      if wt == vt { assert p[j] == f; }
    }
    forall f | f in FramesIn(p, ENTRIES) ensures f in FramesOf(m, tables + [vt]) {
      var j :| 0 <= j < ENTRIES && p[j] == f;
      assert vt in tables + [vt] && Entry(m, vt, j) == f;
    }
    forall f | f in FramesOf(m, tables) ensures f in FramesOf(m, tables + [vt]) {
      var wt, j :| wt in tables && 0 <= j < ENTRIES && Entry(m, wt, j) == f && f != UNMAPPED;
      assert wt in tables + [vt];
    }
  }

  lemma FramesOfLess(m: Mem, tables: seq<nat>, k: nat)
    requires Paged(m) && k <= |tables|
    ensures FramesOf(m, tables[..k]) <= FramesOf(m, tables)
  {
    forall f | f in FramesOf(m, tables[..k]) ensures f in FramesOf(m, tables) {
      var wt, j :| wt in tables[..k] && 0 <= j < ENTRIES && Entry(m, wt, j) == f && f != UNMAPPED;
      assert wt in tables;
    }
  }

  function Without(b: seq<bool>, freed: set<int>): (r: seq<bool>)
    ensures |r| == |b| && forall f :: 0 <= f < |b| ==> r[f] == (b[f] && f !in freed)
  {
    seq(|b|, f requires 0 <= f < |b| => b[f] && f !in freed)
  }

  /** Frames of a process are freed: no page of the kernel and no table of another process loses one. */
  lemma FramesFreed(a: Snap, b: seq<bool>, s: Space, freed: set<int>, keep: set<int>)
    requires Paged(a.mem) && Owned(a.mem, b, a.owner, a.stale) && SpaceOk(a, s)
    requires freed <= FramesOf(a.mem, s.tables) && forall v :: v in keep ==> !Uses(s, v)
    ensures Owned(a.mem, Without(b, freed), a.owner - freed, a.stale)
    ensures Keeps(a, a.(owner := a.owner - freed), keep)
  {
    forall f | f in freed ensures f in a.owner && a.owner[f].UserEntry? && Uses(s, a.owner[f].table) {
      var vt, j :| vt in s.tables && 0 <= j < ENTRIES && Entry(a.mem, vt, j) == f && f != UNMAPPED;
      assert TableOk(a, vt, ENTRIES) && EntryOk(a, vt, j);
    }
  }

  lemma WithoutMore(b: seq<bool>, x: set<int>, y: set<int>)
    ensures Without(Without(b, x), y) == Without(b, x + y)
  {
  }

  /** The entries of a held table name frames or nothing. */
  lemma EntriesInRange(a: Snap, b: seq<bool>, s: Space, vt: nat)
    requires Paged(a.mem) && |b| == |a.mem| && Owned(a.mem, b, a.owner, a.stale) && SpaceOk(a, s) && vt in s.tables
    ensures LOCKED <= Walk(a.mem, vt) < |b|
    ensures forall j :: 0 <= j < ENTRIES ==>
      a.mem[Walk(a.mem, vt)][j] == UNMAPPED || 0 <= a.mem[Walk(a.mem, vt)][j] < |b|
  {
    assert Uses(s, vt) && Held(a, vt) && a.owner[Walk(a.mem, vt)] == KernelPage(vt);
    forall j | 0 <= j < ENTRIES ensures a.mem[Walk(a.mem, vt)][j] == UNMAPPED || 0 <= a.mem[Walk(a.mem, vt)][j] < |b| {
      assert TableOk(a, vt, ENTRIES) && EntryOk(a, vt, j) && Entry(a.mem, vt, j) == a.mem[Walk(a.mem, vt)][j];
    }
  }

  /** The kernel gave up a page that nobody is to keep. */
  lemma PageReleased(a: Snap, b: seq<bool>, c: Snap, b': seq<bool>, v: nat, keep: set<int>)
    requires Paged(a.mem) && Paged(c.mem) && Owned(a.mem, b, a.owner, a.stale) && c.stale == a.stale && Held(a, v)
    requires Released(a.mem, b, a.owner, c.mem, b', c.owner, v) && Grown(a.mem, c.mem) && v !in keep
    ensures Keeps(a, c, keep) && b' == Without(b, {Walk(a.mem, v)})
  {
    var f := Walk(a.mem, v);
    assert a.owner[f] == KernelPage(v);
    forall w | w in keep && Held(a, w) ensures PageKept(a, c, w) {
      assert a.owner[Walk(a.mem, w)] == KernelPage(w);
      assert Walk(c.mem, w) == Walk(a.mem, w) >= LOCKED;
    }
  }

  ghost function AllPages(spaces: set<Space>): (r: set<int>)
    ensures forall v :: v in r <==> exists s :: s in spaces && v in PagesOf(s)
  {
    set s, v | s in spaces && v in PagesOf(s) :: v
  }

  lemma UsesAll(spaces: set<Space>, s: Space)
    requires s in spaces
    ensures forall v :: Uses(s, v) ==> v in AllPages(spaces)
  {
    forall v | Uses(s, v) ensures v in AllPages(spaces) {
      assert v in PagesOf(s);
    }
  }

  /** The other processes stay a world of their own. */
  lemma LeavesWorld(a: Snap, b: Snap, s: Space, spaces: set<Space>)
    requires Paged(a.mem) && Paged(b.mem) && World(a, spaces) && s in spaces && Keeps(a, b, AllPages(spaces - {s}))
    ensures World(b, spaces - {s})
  {
    var keep := AllPages(spaces - {s});
    forall t | t in spaces - {s} ensures SpaceOk(b, t) {
      UsesAll(spaces - {s}, t);
      SpaceKept(a, b, keep, t);
    }
  }

  lemma OthersDoNotUse(spaces: set<Space>, s: Space)
    requires s in spaces && forall t, u :: t in spaces && u in spaces && t != u ==> Apart(t, u)
    ensures forall v :: v in AllPages(spaces - {s}) ==> !Uses(s, v)
  {
    forall v | v in AllPages(spaces - {s}) ensures !Uses(s, v) {
      var t :| t in spaces - {s} && v in PagesOf(t);
      assert Apart(s, t);
    }
  }

  // ---------- what the world means ----------

  /** No frame stands in two entries of user page tables, in one process or in two. It is occupied,
      it is none of the locked ones, and the kernel does not map it either, but for stale pages. */
  lemma UserFramesDistinct(a: Snap, b: seq<bool>, spaces: set<Space>, s: Space, t: Space, vt: nat, i: nat, wt: nat,
                           j: nat, v: int)
    requires Paged(a.mem) && Owned(a.mem, b, a.owner, a.stale) && World(a, spaces) && s in spaces && t in spaces
    requires vt in s.tables && wt in t.tables && i < ENTRIES && j < ENTRIES && Entry(a.mem, vt, i) != UNMAPPED
    ensures LOCKED <= Entry(a.mem, vt, i) < |b| && b[Entry(a.mem, vt, i)]
    ensures Entry(a.mem, vt, i) == Entry(a.mem, wt, j) ==> s == t && vt == wt && i == j
    ensures Held(a, v) ==> Walk(a.mem, v) != Entry(a.mem, vt, i)
  {
    assert TableOk(a, vt, ENTRIES) && EntryOk(a, vt, i) && TableOk(a, wt, ENTRIES) && EntryOk(a, wt, j);
    if vt == wt && s != t {
      assert Apart(s, t) && Uses(s, vt) && Uses(t, wt);
    }
    if Held(a, v) {
      assert a.owner[Walk(a.mem, v)] == KernelPage(v);
    }
  }

  /** Two processes never reach the same frame at addresses below the kernel. */
  lemma ProcessesIsolated(a: Snap, b: seq<bool>, spaces: set<Space>, s: Space, t: Space, p: nat, q: nat)
    requires Paged(a.mem) && |b| == |a.mem| && Owned(a.mem, b, a.owner, a.stale) && World(a, spaces)
    requires s in spaces && t in spaces && s != t && p < PAGES && q < PAGES
    requires !Shared(p / ENTRIES) && !Shared(q / ENTRIES)
    requires Translate(a.mem, s, p) != UNMAPPED
    ensures Translate(a.mem, t, q) != Translate(a.mem, s, p)
  {
    if Translate(a.mem, t, q) != UNMAPPED {
      var vt :| vt in s.tables && Walk(a.mem, vt) == Entry(a.mem, s.dir, p / ENTRIES);
      var wt :| wt in t.tables && Walk(a.mem, wt) == Entry(a.mem, t.dir, q / ENTRIES);
      assert Entry(a.mem, vt, p % ENTRIES) == Translate(a.mem, s, p);
      UserFramesDistinct(a, b, spaces, s, t, vt, p % ENTRIES, wt, q % ENTRIES, vt);
    }
  }

  // ---------- laying out segments ----------

  /** A new page of the kernel became one of a table of the process. */
  lemma PageAdded(a: Snap, b: Snap, d: Snap, s: Space, vt: nat, j: nat, mine: set<int>)
    requires Paged(a.mem) && Paged(b.mem) && Paged(d.mem) && |a.mem| == |b.mem| == |d.mem|
    requires Keeps(a, b, mine) && Keeps(b, d, mine - {vt as int})
    requires SpaceOk(a, s) && SpaceOk(b, s) && vt in s.tables && j < ENTRIES
    requires forall v :: Uses(s, v) ==> v in mine
    requires Walk(d.mem, vt) == Walk(b.mem, vt) && Entry(d.mem, vt, j) != UNMAPPED
    requires forall k :: 0 <= k < ENTRIES && k != j ==> Entry(d.mem, vt, k) == Entry(b.mem, vt, k)
    ensures SameDirectory(a.mem, d.mem, s) && StillMaps(a.mem, s, d.mem, s, {})
    ensures forall k :: 0 <= k < ENTRIES && k != j ==> Entry(d.mem, vt, k) == Entry(a.mem, vt, k)
  {
    forall v | Uses(s, v) && v != vt ensures PageKept(b, d, v) {
      assert Held(b, v);
    }
    assert Uses(s, vt) && Held(a, vt) && PageKept(a, b, vt);
    TranslateKept(a, b, mine, s);
    TranslateGiven(b, d, s, vt, j);
    StillMapsOn(a.mem, s, b.mem, s, d.mem, s, {}, {});
    DirectorySame(a, b, mine, s);
    assert SameDirectory(b.mem, d.mem, s) by {
      assert Uses(s, s.dir) && PageKept(b, d, s.dir);
      forall wt | wt in s.tables ensures Walk(d.mem, wt) == Walk(b.mem, wt) {
        assert Uses(s, wt) && (wt != vt ==> PageKept(b, d, wt));
      }
    }
    SameDirectoryOn(a.mem, b.mem, d.mem, s);
  }

  /** The tables that a segment brings along, from table `from` to below table `end`. */
  function NewTables(indexes: seq<nat>, from: nat, end: nat): (r: set<int>)
    ensures (forall k: nat :: k in r <==> from <= k < end && k !in indexes) && (forall k :: k in r ==> 0 <= k)
    decreases end
  {
    if end <= from then {}
    else NewTables(indexes, from, end - 1) + if end - 1 !in indexes then {end - 1} else {}
  }

  /** The table indexes that have been seen when those from `from` to below `end` were looked up. */
  function IndexesAfter(indexes: seq<nat>, from: nat, end: nat): (r: seq<nat>)
    ensures |r| >= |indexes| && indexes <= r
    ensures forall k: nat :: k in r <==> k in indexes || from <= k < end
    decreases end
  {
    if end <= from then indexes
    else
      var r := IndexesAfter(indexes, from, end - 1);
      if end - 1 in r then r else r + [end - 1]
  }

  lemma {:induction false} IndexesMore(indexes: seq<nat>, from: nat, end: nat, more: nat)
    requires end <= more
    ensures |IndexesAfter(indexes, from, end)| <= |IndexesAfter(indexes, from, more)|
    decreases more
  {
    if end < more && from < more {
      IndexesMore(indexes, from, end, more - 1);
      var r := IndexesAfter(indexes, from, more - 1);
      assert |IndexesAfter(indexes, from, more)| >= |r|;
    }
  }

  /** The first table behind those of pages first..upto. */
  function TableEnd(first: nat, upto: nat): nat {
    if upto <= first then first / ENTRIES else (upto - 1) / ENTRIES + 1
  }

  /** The pages first..upto of a segment have been laid out, with the table indexes ix before and ix' now. They
      are all mapped if the tables were made in order. */
  ghost predicate Laid(m: Mem, s: Space, ix: seq<nat>, m': Mem, t: Space, ix': seq<nat>, first: nat, upto: nat)
    requires Paged(m) && Paged(m')
  {
    var ft, end := first / ENTRIES, TableEnd(first, upto);
    && StillMaps(m, s, m', t, NewTables(ix, ft, end))
    && (forall x :: x in ix ==> x in ix') && (forall i: nat :: ft <= i < end ==> i in ix')
    && (InOrder(ix, ft) ==>
          && Sorted(ix') && (if upto <= first then ix' == ix else ix' != [] && ix'[|ix'| - 1] == end - 1)
          && forall p :: first <= p < upto ==> Maps(m', t, p))
  }

  lemma LaidNothing(m: Mem, s: Space, ix: seq<nat>, first: nat)
    requires Paged(m)
    ensures Laid(m, s, ix, m, s, ix, first, first)
  {
    assert NewTables(ix, first / ENTRIES, first / ENTRIES) == {};
    DirectoryItself(m, s);
  }

  lemma StillMapsMore(m: Mem, s: Space, m': Mem, t: Space, x: set<int>, y: set<int>)
    requires Paged(m) && Paged(m') && StillMaps(m, s, m', t, x) && x <= y
    ensures StillMaps(m, s, m', t, y)
  {
  }

  /** Indexes stay in order when a table is looked up or made. */
  lemma OrderKept(ix: seq<nat>, i: nat)
    requires Sorted(ix) && (ix != [] ==> ix[|ix| - 1] <= i)
    ensures var ix' := if i in ix then ix else ix + [i]; Sorted(ix') && ix' != [] && ix'[|ix'| - 1] == i
  {
    if i in ix {
      var k :| 0 <= k < |ix| && ix[k] == i;
      assert ix[k] <= ix[|ix| - 1];
    }
  }

  /** One more table: m1 before it is looked up, m2 before its pages are mapped, m3 behind. */
  lemma LaidOn(m: Mem, s: Space, ix: seq<nat>, m1: Mem, t1: Space, ix1: seq<nat>, m2: Mem, m3: Mem, t: Space,
               ix': seq<nat>,
               first: nat, i: nat, from: nat, to: nat)
    requires Paged(m) && Paged(m1) && Paged(m2) && Paged(m3) && 2 * ENTRIES <= first <= i * ENTRIES + from
    requires i < USER_TABLES && from < to <= ENTRIES && TableEnd(first, i * ENTRIES + from) == i
    requires Laid(m, s, ix, m1, t1, ix1, first, i * ENTRIES + from)
    requires StillMaps(m1, t1, m2, t, if i in ix1 then {} else {i}) && StillMaps(m2, t, m3, t, {})
    requires ix' == (if i in ix1 then ix1 else ix1 + [i]) && TopOk(m3, t, ix') && t.tables != []
    requires Entry(m3, t.dir, i) == Walk(m3, t.tables[|t.tables| - 1]) ==>
      forall p :: i * ENTRIES + from <= p < i * ENTRIES + to ==> Maps(m3, t, p)
    ensures Laid(m, s, ix, m3, t, ix', first, i * ENTRIES + to)
  {
    hide Maps, Entry, Walk, Sorted;
    var ft := first / ENTRIES;
    var x: set<int> := if i in ix1 then {} else {i};
    StillMapsOn(m1, t1, m2, t, m3, t, x, {});
    assert x + {} == x;
    StillMapsOn(m, s, m1, t1, m3, t, NewTables(ix, ft, i), x);
    assert NewTables(ix, ft, i) + x <= NewTables(ix, ft, i + 1);
    StillMapsMore(m, s, m3, t, NewTables(ix, ft, i) + x, NewTables(ix, ft, i + 1));
    if InOrder(ix, ft) {
      OrderKept(ix1, i);
      forall p | first <= p < i * ENTRIES + to ensures Maps(m3, t, p) {
        if p < i * ENTRIES + from {
          assert p / ENTRIES < i && !Shared(p / ENTRIES) && Maps(m1, t1, p);
        }
      }
    }
  }

  lemma LaidKept(m: Mem, s: Space, ix: seq<nat>, m1: Mem, m2: Mem, t: Space, ix': seq<nat>, first: nat, upto: nat)
    requires Paged(m) && Paged(m1) && Paged(m2)
    requires Laid(m, s, ix, m1, t, ix', first, upto) && StillMaps(m1, t, m2, t, {})
    requires 2 * ENTRIES <= first && upto <= USER_TABLES * ENTRIES
    ensures Laid(m, s, ix, m2, t, ix', first, upto)
  {
    hide Maps, Sorted;
    var x := NewTables(ix, first / ENTRIES, TableEnd(first, upto));
    StillMapsOn(m, s, m1, t, m2, t, x, {});
    assert x + {} == x;
    if InOrder(ix, first / ENTRIES) {
      forall p | first <= p < upto ensures Maps(m2, t, p) {
        assert !Shared(p / ENTRIES) && Maps(m1, t, p);
      }
    }
  }
}

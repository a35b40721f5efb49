/** The two-level page tables of the kernel, in the 32-bit format of section 4.3
    of the Intel SDM Vol. 3A, and who a physical frame belongs to. */
module PagingSpec {
  const ENTRIES: nat := 1024
  const PAGES: nat := 1024 * 1024
  // the address field of an entry that maps nothing
  const UNMAPPED: int := 0xFFFFF
  // frames of the page directory and of the page tables that loader.asm sets up
  const DIR: nat := 0x9A
  const TABLE_0: nat := 0x9B
  const TABLE_1: nat := 0x9C
  const TABLE_768: nat := 0x9D
  // the frame of the first page table that the kernel allocates; page table 1 maps 4 MB from here
  const POOL: nat := 0x400
  const POOL_END: nat := 0x800
  // the frames that paging_init locks
  const LOCKED: nat := 0x800
  // allocate_page looks for room in the tables from 2 up to the kernel
  const USER_TABLES: nat := 768
  // tables of the kernel heap and of the file system, 20 MB each
  const KERNEL_HEAP_START: nat := 769
  const KERNEL_HEAP_END: nat := 773
  const FS_START: nat := 774
  const FS_END: nat := 778

  /** The address fields of the 1024 entries in every frame of memory. */
  type Mem = seq<seq<int>>

  datatype Owner = Locked | KernelPage(page: nat) | UserEntry(table: nat, j: nat) | Lost

  /** Page tables that were there before paging_init. */
  predicate Preset(i: int) { i == 0 || i == 1 || i == 768 }

  /** A frame for every bit of the bitmap, and no frame that looks unmapped. */
  ghost predicate Shape(m: Mem, b: seq<bool>) {
    && |m| == |b| && |b| % 32 == 0 && LOCKED <= |b| <= UNMAPPED
    && forall f :: 0 <= f < |m| ==> |m[f]| == ENTRIES
  }

  ghost predicate Paged(m: Mem) {
    LOCKED <= |m| <= UNMAPPED && forall f :: 0 <= f < |m| ==> |m[f]| == ENTRIES
  }

  function Mapped(p: seq<int>): nat {
    if p == [] then 0 else (if p[0] == UNMAPPED then 0 else 1) + Mapped(p[1..])
  }

  /** The tables of the directory are different frames of the pool, below the next one. */
  ghost predicate DirOk(m: Mem, next: nat)
    requires Paged(m)
  {
    && m[DIR][0] == TABLE_0 && m[DIR][1] == TABLE_1 && m[DIR][768] == TABLE_768
    && (forall i :: 0 <= i < ENTRIES && !Preset(i) ==> m[DIR][i] == UNMAPPED || POOL <= m[DIR][i] < next)
    && (forall i, k :: 0 <= i < k < ENTRIES && !Preset(i) && !Preset(k) && m[DIR][i] == m[DIR][k] ==>
          m[DIR][i] == UNMAPPED)
    && next == POOL + Mapped(m[DIR]) - 3
  }

  /** The frame that the kernel's page v is mapped to. */
  function Walk(m: Mem, v: int): int
    requires Paged(m)
  {
    if 0 <= v < PAGES && 0 <= m[DIR][v / ENTRIES] < |m| then m[m[DIR][v / ENTRIES]][v % ENTRIES] else UNMAPPED
  }

  /** Kernel pages outside of the preset tables. */
  predicate Kernel(v: int) { 0 <= v < PAGES && !Preset(v / ENTRIES) }

  /** A frame is occupied if and only if it has an owner. Locked frames stay locked, and a page
      that is mapped owns its frame, unless it is stale. */
  ghost predicate Owned(m: Mem, b: seq<bool>, owner: map<int, Owner>, stale: set<int>)
    requires Paged(m)
  {
    && (forall f :: f in owner <==> 0 <= f < |b| && b[f])
    && (forall f :: 0 <= f < LOCKED ==> f in owner && owner[f] == Locked)
    && (forall v :: Kernel(v) && v !in stale && Walk(m, v) != UNMAPPED ==>
          Walk(m, v) in owner && owner[Walk(m, v)] == KernelPage(v))
    && (forall v :: v in stale ==> Kernel(v) && Walk(m, v) != UNMAPPED)
  }

  /** The kernel maps the same pages. */
  ghost predicate SameWalks(m: Mem, m': Mem)
    requires Paged(m) && Paged(m')
  {
    forall v :: Kernel(v) ==> Walk(m', v) == Walk(m, v)
  }

  /** The kernel maps page v to f now, and the other pages as before. */
  ghost predicate WalksBut(m: Mem, m': Mem, v: int, f: int)
    requires Paged(m) && Paged(m')
  {
    forall w :: Kernel(w) ==> Walk(m', w) == if w == v then f else Walk(m, w)
  }

  /** Nothing but the kernel's own tables differs, and these stay where they are. */
  ghost predicate Grown(m: Mem, m': Mem)
    requires Paged(m) && Paged(m')
  {
    && |m'| == |m| && (forall f :: LOCKED <= f < |m| ==> m'[f] == m[f])
    && forall i :: 0 <= i < ENTRIES && m[DIR][i] != UNMAPPED ==> m'[DIR][i] == m[DIR][i]
  }

  ghost predicate SameBelow(m: Mem, m': Mem) {
    |m'| == |m| && forall f :: 0 <= f < LOCKED && f < |m| ==> m'[f] == m[f]
  }

  // ---------- the directory ----------

  lemma {:induction false} MappedUpdate(p: seq<int>, i: nat, x: int)
    requires i < |p| && p[i] == UNMAPPED && x != UNMAPPED
    ensures Mapped(p[i := x]) == Mapped(p) + 1
  {
    if i == 0 {
      assert p[i := x][1..] == p[1..];
    } else {
      MappedUpdate(p[1..], i - 1, x);
      assert p[i := x][1..] == p[1..][i - 1 := x];
    }
  }

  lemma {:induction false} MappedBound(p: seq<int>)
    ensures Mapped(p) <= |p|
    ensures UNMAPPED in p ==> Mapped(p) < |p|
  {
    if p != [] {
      MappedBound(p[1..]);
      assert p == [p[0]] + p[1..];
    }
  }

  /** At most 1021 tables are taken from the pool: the next one is still in the 4 MB of page table 1. */
  lemma PoolSuffices(m: Mem, next: nat)
    requires Paged(m) && DirOk(m, next)
    ensures POOL <= next <= POOL + 1021 < POOL_END
    ensures (exists i :: 0 <= i < ENTRIES && m[DIR][i] == UNMAPPED) ==> next < POOL + 1021
  {
    var d := m[DIR];
    MappedBound(d);
    var e := d[..768];
    assert d == e + d[768..];
    PresetsMapped(d);
  }

  lemma PresetsMapped(d: seq<int>)
    requires |d| == ENTRIES && d[0] != UNMAPPED && d[1] != UNMAPPED && d[768] != UNMAPPED
    ensures Mapped(d) >= 3
  {
    MappedSplit(d, 768);
    MappedSplit(d[..768], 1);
  }

  lemma {:induction false} MappedSplit(p: seq<int>, k: nat)
    requires k <= |p|
    ensures Mapped(p) == Mapped(p[..k]) + Mapped(p[k..])
  {
    if k > 0 {
      MappedSplit(p[1..], k - 1);
      assert p[1..][..k - 1] == p[..k][1..] && p[1..][k - 1..] == p[k..];
    } else {
      assert p[..0] == [] && p[0..] == p;
    }
  }

  /** The walks depend on the locked frames only. */
  lemma WalksBelow(m: Mem, m': Mem, next: nat)
    requires Paged(m) && Paged(m') && DirOk(m, next) && SameBelow(m, m')
    ensures SameWalks(m, m') && DirOk(m', next)
  {
    PoolSuffices(m, next);
  }

  /** A fresh table that maps nothing. */
  lemma TableAdded(m: Mem, m': Mem, next: nat, i: nat)
    requires Paged(m) && Paged(m') && DirOk(m, next) && i < ENTRIES && m[DIR][i] == UNMAPPED
    requires POOL <= next < POOL_END
    requires m' == m[next := seq(ENTRIES, k => UNMAPPED)][DIR := m[DIR][i := next]]
    ensures DirOk(m', next + 1) && SameWalks(m, m') && Grown(m, m')
  {
    MappedUpdate(m[DIR], i, next);
    forall v | Kernel(v) ensures Walk(m', v) == Walk(m, v) {
      if v / ENTRIES != i && m[DIR][v / ENTRIES] != UNMAPPED {
        assert m[DIR][v / ENTRIES] < next;
      }
    }
  }

  /** One entry of a table of the pool is changed. */
  lemma EntrySet(m: Mem, m': Mem, next: nat, i: nat, j: nat, f: int)
    requires Paged(m) && DirOk(m, next) && i < ENTRIES && j < ENTRIES && !Preset(i) && m[DIR][i] != UNMAPPED
    requires POOL <= m[DIR][i] < POOL_END && m' == m[m[DIR][i] := m[m[DIR][i]][j := f]]
    ensures Paged(m') && DirOk(m', next) && WalksBut(m, m', ENTRIES * i + j, f) && Grown(m, m')
  {
    PoolSuffices(m, next);
    var t := m[DIR][i];
    forall w | Kernel(w) ensures Walk(m', w) == if w == ENTRIES * i + j then f else Walk(m, w) {
      var iw := w / ENTRIES;
      if iw != i && m[DIR][iw] != UNMAPPED {
        assert m[DIR][iw] != t;
      }
    }
  }

  lemma WalkAt(m: Mem, next: nat, i: nat, j: nat)
    requires Paged(m) && DirOk(m, next) && i < ENTRIES && j < ENTRIES && !Preset(i) && m[DIR][i] != UNMAPPED
    ensures POOL <= m[DIR][i] < POOL_END && Walk(m, ENTRIES * i + j) == m[m[DIR][i]][j]
  {
    PoolSuffices(m, next);
  }

  lemma WalksAgree(m: Mem, m': Mem, v: int)
    requires Paged(m) && Paged(m') && SameWalks(m, m') && Kernel(v)
    ensures Walk(m', v) == Walk(m, v)
  {
  }

  lemma WalkNowhere(m: Mem, i: nat)
    requires Paged(m) && i < ENTRIES && m[DIR][i] == UNMAPPED
    ensures forall w :: i * ENTRIES <= w < i * ENTRIES + ENTRIES ==> Walk(m, w) == UNMAPPED
  {
  }

  // ---------- free frames ----------

  function FreeFrames(b: seq<bool>): nat {
    if b == [] then 0 else (if b[|b| - 1] then 0 else 1) + FreeFrames(b[..|b| - 1])
  }

  lemma {:induction false} FreeFramesUpdate(b: seq<bool>, f: nat, x: bool)
    requires f < |b| && b[f] != x
    ensures FreeFrames(b[f := x]) == FreeFrames(b) + if x then -1 else 1
  {
    var n := |b| - 1;
    if f == n {
      assert b[f := x][..n] == b[..n];
    } else {
      FreeFramesUpdate(b[..n], f, x);
      assert b[f := x][..n] == b[..n][f := x];
    }
  }

  /** The least free frame. */
  predicate LeastFree(b: seq<bool>, f: int) {
    0 <= f < |b| && !b[f] && forall g :: 0 <= g < f ==> b[g]
  }

  /** The least page, in tables 2 to 767, that is not mapped. */
  ghost predicate LeastUnmapped(m: Mem, v: int)
    requires Paged(m)
  {
    && 2 * ENTRIES <= v < USER_TABLES * ENTRIES && Walk(m, v) == UNMAPPED
    && forall w :: 2 * ENTRIES <= w < v ==> Walk(m, w) != UNMAPPED
  }

  ghost predicate NoneUnmapped(m: Mem)
    requires Paged(m)
  {
    forall w :: 2 * ENTRIES <= w < USER_TABLES * ENTRIES ==> Walk(m, w) != UNMAPPED
  }

  /** Pages of the tables from 2 on, below page n, that are not mapped. */
  ghost function UnmappedBelow(m: Mem, n: nat): nat
    requires Paged(m)
  {
    if n <= 2 * ENTRIES then 0 else UnmappedBelow(m, n - 1) + if Walk(m, n - 1) == UNMAPPED then 1 else 0
  }

  /** Pages that allocate_page can still find. */
  ghost function FreePages(m: Mem): nat
    requires Paged(m)
  {
    UnmappedBelow(m, USER_TABLES * ENTRIES)
  }

  lemma {:induction false} UnmappedSame(m: Mem, m': Mem, n: nat)
    requires Paged(m) && Paged(m') && SameWalks(m, m') && n <= USER_TABLES * ENTRIES
    ensures UnmappedBelow(m', n) == UnmappedBelow(m, n)
  {
    if n > 2 * ENTRIES {
      UnmappedSame(m, m', n - 1);
      assert Kernel(n - 1);
    }
  }

  lemma {:induction false} UnmappedBut(m: Mem, m': Mem, v: int, f: int, n: nat)
    requires Paged(m) && Paged(m') && WalksBut(m, m', v, f) && n <= USER_TABLES * ENTRIES
    ensures UnmappedBelow(m', n) == UnmappedBelow(m, n)
      + if 2 * ENTRIES <= v < n then (if f == UNMAPPED then 1 else 0) - (if Walk(m, v) == UNMAPPED then 1 else 0) else 0
  {
    if n > 2 * ENTRIES {
      UnmappedBut(m, m', v, f, n - 1);
      assert Kernel(n - 1);
    }
  }

  lemma {:induction false} NoneUnmappedBelow(m: Mem, n: nat)
    requires Paged(m)
    ensures UnmappedBelow(m, n) == 0 <==> forall w :: 2 * ENTRIES <= w < n ==> Walk(m, w) != UNMAPPED
  {
    if n > 2 * ENTRIES {
      NoneUnmappedBelow(m, n - 1);
    }
  }

  /** allocate_page finds no page if and only if none is left. */
  lemma NoneUnmappedCounts(m: Mem)
    requires Paged(m)
    ensures NoneUnmapped(m) <==> FreePages(m) == 0
  {
    NoneUnmappedBelow(m, USER_TABLES * ENTRIES);
  }

  /** A page that allocate_page gave away, and its frame. */
  lemma TakenCounts(m: Mem, b: seq<bool>, o: map<int, Owner>, m': Mem, b': seq<bool>, o': map<int, Owner>, v: nat)
    requires Paged(m) && Paged(m') && |b| <= UNMAPPED && LeastUnmapped(m, v) && Taken(m, b, o, m', b', o', v)
    ensures FreeFrames(b') == FreeFrames(b) - 1 && FreePages(m') == FreePages(m) - 1
  {
    FreeFramesUpdate(b, Walk(m', v), true);
    UnmappedBut(m, m', v, Walk(m', v), USER_TABLES * ENTRIES);
    assert Kernel(v);
  }

  predicate NoneIsFree(b: seq<bool>) { forall f :: 0 <= f < |b| ==> b[f] }

  /** A frame that has just been taken becomes that of page v. */
  lemma OwnPage(m: Mem, m': Mem, b: seq<bool>, owner: map<int, Owner>, stale: set<int>, v: int, f: int)
    requires Paged(m) && Paged(m') && Owned(m, b, owner, stale) && Kernel(v) && Walk(m, v) == UNMAPPED
    requires WalksBut(m, m', v, f) && f in owner && owner[f] == Lost
    ensures Owned(m', b, owner[f := KernelPage(v)], stale)
  {
  }

  /** Two pages of the kernel are never mapped to the same frame, and that frame is occupied. */
  lemma WalksInjective(m: Mem, b: seq<bool>, owner: map<int, Owner>, stale: set<int>, v: int, w: int)
    requires Paged(m) && Owned(m, b, owner, stale) && Kernel(v) && v !in stale && Walk(m, v) != UNMAPPED
    ensures LOCKED <= Walk(m, v) < |b| && b[Walk(m, v)]
    ensures Kernel(w) && w !in stale && w != v ==> Walk(m, w) != Walk(m, v)
  {
    assert owner[Walk(m, v)] == KernelPage(v);
  }

  /** unmap_page takes back exactly what allocate_page gave; in between one frame less is free. */
  lemma UnmapUndoes(m: Mem, b: seq<bool>, o: map<int, Owner>, m1: Mem, b1: seq<bool>, o1: map<int, Owner>,
                    m2: Mem, b2: seq<bool>, o2: map<int, Owner>, stale: set<int>, v: nat)
    requires Paged(m) && Paged(m1) && Paged(m2) && Owned(m, b, o, stale) && |b| == |m| && Kernel(v)
    requires Walk(m, v) == UNMAPPED && Taken(m, b, o, m1, b1, o1, v) && Released(m1, b1, o1, m2, b2, o2, v)
    ensures b2 == b && o2 == o && SameWalks(m, m2) && FreeFrames(b1) == FreeFrames(b) - 1
  {
    var f := Walk(m1, v);
    FreeFramesUpdate(b, f, true);
    assert f !in o && o1 - {f} == o;
    assert b1[f := false] == b;
  }

  /** Page v is not mapped any more, and its frame is free. */
  ghost predicate Released(m: Mem, b: seq<bool>, o: map<int, Owner>, m': Mem, b': seq<bool>, o': map<int, Owner>,
                           v: nat)
    requires Paged(m) && Paged(m') && Kernel(v)
  {
    var f := Walk(m, v);
    && WalksBut(m, m', v, UNMAPPED)
    && o' == o - {f} && b' == if 0 <= f < |b| then b[f := false] else b
  }

  /** A page that is no longer mapped gives its frame back. */
  lemma DisownPage(m: Mem, m': Mem, b: seq<bool>, owner: map<int, Owner>, stale: set<int>, v: int)
    requires Paged(m) && Paged(m') && Owned(m, b, owner, stale) && Kernel(v) && v !in stale && Walk(m, v) != UNMAPPED
    requires WalksBut(m, m', v, UNMAPPED)
    ensures LOCKED <= Walk(m, v) < |b| && Owned(m', b[Walk(m, v) := false], owner - {Walk(m, v)}, stale)
  {
    var f := Walk(m, v);
    assert owner[f] == KernelPage(v);
  }

  /** Page v got the least free frame, and nothing else has changed for the kernel. */
  ghost predicate Taken(m: Mem, b: seq<bool>, o: map<int, Owner>, m': Mem, b': seq<bool>, o': map<int, Owner>, v: nat)
    requires Paged(m) && Paged(m') && v < PAGES
  {
    var f := Walk(m', v);
    LeastFree(b, f) && b' == b[f := true] && o' == o[f := KernelPage(v)] && WalksBut(m, m', v, f)
  }

  /** The least free frame is occupied now, and belongs to nobody. */
  ghost predicate Wasted(b: seq<bool>, o: map<int, Owner>, b': seq<bool>, o': map<int, Owner>) {
    exists f :: LeastFree(b, f) && b' == b[f := true] && o' == o[f := Lost]
  }

  lemma TakenBy(m: Mem, b: seq<bool>, o: map<int, Owner>, m1: Mem, m2: Mem, b': seq<bool>, o': map<int, Owner>, v: nat,
                f: int)
    requires Paged(m) && Paged(m1) && Paged(m2) && Kernel(v)
    requires LeastFree(b, f) && b' == b[f := true] && o' == o[f := Lost][f := KernelPage(v)]
    requires SameWalks(m, m1) && WalksBut(m1, m2, v, f)
    ensures Taken(m, b, o, m2, b', o', v)
  {
    assert o' == o[f := KernelPage(v)];
  }

  lemma {:induction false} NoneFreeCounts(b: seq<bool>)
    ensures NoneIsFree(b) <==> FreeFrames(b) == 0
  {
    if b != [] {
      var c := b[..|b| - 1];
      NoneFreeCounts(c);
      assert NoneIsFree(b) <==> b[|b| - 1] && NoneIsFree(c) by {
        assert forall f :: 0 <= f < |c| ==> c[f] == b[f];
      }
    }
  }

  lemma {:induction false} MappedPresets(d: seq<int>, n: nat)
    requires n <= |d| == ENTRIES && d[0] != UNMAPPED && d[1] != UNMAPPED && d[768] != UNMAPPED
    requires forall i :: 0 <= i < ENTRIES && !Preset(i) ==> d[i] == UNMAPPED
    ensures Mapped(d[n..]) == if n == 0 then 3 else if n == 1 then 2 else if n <= 768 then 1 else 0
    decreases |d| - n
  {
    if n < |d| {
      MappedPresets(d, n + 1);
      assert d[n..][1..] == d[n + 1..];
    }
  }

  /** The state that paging_init starts from: nothing is mapped but the presets. */
  lemma InitialOwned(m: Mem, b: seq<bool>, owner: map<int, Owner>)
    requires Paged(m) && |m| == |b|
    requires m[DIR][0] == TABLE_0 && m[DIR][1] == TABLE_1 && m[DIR][768] == TABLE_768
    requires forall i :: 0 <= i < ENTRIES && !Preset(i) ==> m[DIR][i] == UNMAPPED
    requires forall f :: 0 <= f < LOCKED ==> b[f]
    requires owner == map f | 0 <= f < |b| && b[f] :: Locked
    ensures DirOk(m, POOL) && Owned(m, b, owner, {})
  {
    MappedPresets(m[DIR], 0);
    assert m[DIR][0..] == m[DIR];
  }

  lemma InitialWalks(m: Mem)
    requires Paged(m) && forall i :: 0 <= i < ENTRIES && !Preset(i) ==> m[DIR][i] == UNMAPPED
    ensures forall v :: Kernel(v) ==> Walk(m, v) == UNMAPPED
  {
  }

  /** The first n frames are locked. */
  function LockFirst(b: seq<bool>, n: nat): (r: seq<bool>)
    requires n <= |b|
    ensures |r| == |b| && forall f :: 0 <= f < |b| ==> r[f] == (f < n || b[f])
  {
    seq(n, f => true) + b[n..]
  }

  lemma {:induction false} LockedAreNotFree(b: seq<bool>, n: nat)
    requires n <= |b|
    ensures FreeFrames(LockFirst(b, n)) == FreeFrames(b[n..])
    decreases |b|
  {
    if |b| > n {
      var c := b[..|b| - 1];
      LockedAreNotFree(c, n);
      assert LockFirst(b, n)[..|b| - 1] == LockFirst(c, n);
      assert b[n..][..|b| - 1 - n] == c[n..];
    } else {
      NoneFreeCounts(LockFirst(b, n));
    }
  }
}

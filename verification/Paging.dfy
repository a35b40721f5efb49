/** paging.cpp: the bitmap of the frames and the page tables of the kernel. A word of
    the bitmap is held as its 32 bits. */
module Paging {
  import opened PagingSpec

  class Pager {
    const bits: array<bool>
    const phys: array<seq<int>>
    /** The frame of the next page table, last_page_table_addr / 4096. */
    var next: nat
    var panicked: bool
    ghost var owner: map<int, Owner>
    /** Pages that the kernel still maps to a frame that it has given away. */
    ghost var stale: set<int>

    ghost predicate Valid()
      reads this, bits, phys
    {
      && !panicked && bits as object != phys && Shape(phys[..], bits[..])
      && DirOk(phys[..], next) && Owned(phys[..], bits[..], owner, stale)
    }

    /** paging_init: `b` says which bits lie beyond the memory, `m` what is in memory. */
    constructor Init(m: Mem, b: seq<bool>)
      requires |m| == |b| && |b| % 32 == 0 && LOCKED <= |b| <= UNMAPPED && Paged(m)
      requires m[DIR][0] == TABLE_0 && m[DIR][1] == TABLE_1 && m[DIR][768] == TABLE_768
      ensures fresh(bits) && fresh(phys) && bits.Length == |b|
      ensures panicked <==> FreeFrames(b[LOCKED..]) < 10240
      ensures !panicked ==>
        && Valid() && stale == {}
        && forall v :: Kernel(v) ==>
          (Walk(phys[..], v) != UNMAPPED <==> KERNEL_HEAP_START * ENTRIES <= v < (FS_END + 1) * ENTRIES)
    {
      bits := new bool[|b|](f requires 0 <= f < |b| => b[f]);
      phys := new seq<int>[|m|](f requires 0 <= f < |m| => m[f]);
      next := POOL;
      panicked := false;
      new;
      hide FreeFrames, Walk, DirOk, Owned;
      assert bits[..] == b && phys[..] == m;
      Reset();
      MapKernelTables();
    }

    /** Nothing is mapped but the presets, and their memory is locked. */
    method Reset()
      requires bits as object != phys && Shape(phys[..], bits[..]) && !panicked && next == POOL
      requires phys[DIR][0] == TABLE_0 && phys[DIR][1] == TABLE_1 && phys[DIR][768] == TABLE_768
      modifies this`owner, this`stale, bits, phys
      ensures Valid() && stale == {} && forall v :: Kernel(v) ==> Walk(phys[..], v) == UNMAPPED
      ensures FreeFrames(bits[..]) == FreeFrames(old(bits[..])[LOCKED..])
    {
      hide FreeFrames, Walk, DirOk, Owned;
      ghost var b := bits[..];
      Lock();
      ClearDirectory();
      LockedAreNotFree(b, LOCKED);
      owner := map f | 0 <= f < bits.Length && bits[f] :: Locked;
      stale := {};
      ghost var m', b' := phys[..], bits[..];
      InitialOwned(m', b', owner);
      InitialWalks(m');
    }

    method MapKernelTables()
      requires Valid() && forall v :: Kernel(v) ==> Walk(phys[..], v) == UNMAPPED
      modifies this, bits, phys
      ensures panicked <==>
        old(FreeFrames(bits[..])) < ENTRIES * (KERNEL_HEAP_END - KERNEL_HEAP_START + 1 + FS_END - FS_START + 1)
      ensures !panicked ==>
        && Valid() && stale == old(stale)
        && forall v :: Kernel(v) ==>
          (Walk(phys[..], v) != UNMAPPED <==> KERNEL_HEAP_START * ENTRIES <= v < (FS_END + 1) * ENTRIES)
    {
      hide DirOk, Owned, Walk, FreeFrames;
      MapTables(KERNEL_HEAP_START, KERNEL_HEAP_END);
      if !panicked {
        MapTables(FS_START, FS_END);
      }
    }

    /** The first 8 MB are not to be handed out. */
    method Lock()
      requires bits.Length >= LOCKED
      modifies bits
      ensures bits[..] == LockFirst(old(bits[..]), LOCKED)
    {
      for f := 0 to LOCKED
        invariant forall g :: 0 <= g < bits.Length ==> bits[g] == (g < f || old(bits[g]))
      {
        bits[f] := true;
      }
    }

    /** No table is mapped but the preset ones. */
    method ClearDirectory()
      requires Paged(phys[..])
      modifies phys
      ensures Paged(phys[..]) && forall f :: 0 <= f < phys.Length && f != DIR ==> phys[f] == old(phys[f])
      ensures forall i :: 0 <= i < ENTRIES ==> phys[DIR][i] == if Preset(i) then old(phys[DIR][i]) else UNMAPPED
    {
      for i := 0 to ENTRIES
        invariant |phys[DIR]| == ENTRIES && forall f :: 0 <= f < phys.Length && f != DIR ==> phys[f] == old(phys[f])
        invariant forall k :: 0 <= k < ENTRIES ==>
          phys[DIR][k] == if Preset(k) || k >= i then old(phys[DIR][k]) else UNMAPPED
      {
        if i == 0 || i == 1 || i == 768 {
          continue;
        }
        phys[DIR] := phys[DIR][i := UNMAPPED];
      }
    }

    /** map_kernel_heap and map_filesystem: whole tables of pages for the kernel. */
    method MapTables(from: nat, to: nat)
      requires Valid() && 768 < from <= to < ENTRIES
      requires forall v :: from * ENTRIES <= v < (to + 1) * ENTRIES ==> Walk(phys[..], v) == UNMAPPED
      modifies this, bits, phys
      ensures panicked <==> old(FreeFrames(bits[..])) < (to + 1 - from) * ENTRIES
      ensures !panicked ==>
        && Valid() && stale == old(stale)
        && FreeFrames(bits[..]) == old(FreeFrames(bits[..])) - (to + 1 - from) * ENTRIES
        && forall v :: Kernel(v) ==>
          if from * ENTRIES <= v < (to + 1) * ENTRIES then Walk(phys[..], v) != UNMAPPED
          else Walk(phys[..], v) == Walk(old(phys[..]), v)
    {
      hide DirOk, Owned, Walk, FreeFrames;
      for i := from to to + 1
        invariant Mapping(old(phys[..]), from, to, i * ENTRIES) && stale == old(stale)
        invariant FreeFrames(bits[..]) == old(FreeFrames(bits[..])) - (i - from) * ENTRIES
      {
        MapTable(old(phys[..]), from, to, i);
        if panicked {
          return;
        }
      }
    }

    /** The pages from `from` on are mapped, up to page v. */
    ghost predicate Mapping(m: Mem, from: nat, to: nat, v: nat)
      requires Paged(m)
      reads this, bits, phys
    {
      && Valid()
      && forall w :: Kernel(w) ==>
        if from * ENTRIES <= w < v then Walk(phys[..], w) != UNMAPPED
        else Walk(phys[..], w) == if w < (to + 1) * ENTRIES && from * ENTRIES <= w then UNMAPPED else Walk(m, w)
    }

    method MapTable(ghost m: Mem, ghost from: nat, ghost to: nat, i: nat)
      requires Paged(m) && 768 < from <= i <= to < ENTRIES && Mapping(m, from, to, i * ENTRIES)
      modifies this, bits, phys
      ensures panicked <==> old(FreeFrames(bits[..])) < ENTRIES
      ensures !panicked ==>
        && Mapping(m, from, to, (i + 1) * ENTRIES) && stale == old(stale)
        && FreeFrames(bits[..]) == old(FreeFrames(bits[..])) - ENTRIES
    {
      hide DirOk, Owned, Walk, FreeFrames;
      var _ := AllocatePageTable(i);
      for j := 0 to ENTRIES
        invariant Mapping(m, from, to, i * ENTRIES + j) && stale == old(stale)
        invariant FreeFrames(bits[..]) == old(FreeFrames(bits[..])) - j
      {
        ghost var m1, b, o := phys[..], bits[..], owner;
        NoneFreeCounts(b);
        var v := AllocatePage(i, j);
        if panicked {
          return;
        }
        ghost var f := Walk(phys[..], v);
        FreeFramesUpdate(b, f, true);
      }
    }

    // ---------- frames ----------

    /** The number of clear bits, skipping the words that are 0xFFFFFFFF. */
    method NumberOfFreeFrames() returns (free: nat)
      requires bits.Length % 32 == 0
      ensures free == FreeFrames(bits[..])
    {
      free := 0;
      for i := 0 to bits.Length / 32
        invariant free == FreeFrames(bits[..32 * i])
      {
        var full := WordFull(i);
        if full {
          FullWord(bits[..], 32 * i);
          assert bits[..][..32 * i + 32] == bits[..32 * i + 32] && bits[..][..32 * i] == bits[..32 * i];
        } else {
          for j := 0 to 32
            invariant free == FreeFrames(bits[..32 * i + j])
          {
            assert bits[..32 * i + j + 1][..32 * i + j] == bits[..32 * i + j];
            free := free + if bits[32 * i + j] then 0 else 1;
          }
        }
      }
      assert bits[..bits.Length] == bits[..];
    }

    method WordFull(i: nat) returns (full: bool)
      requires 32 * i + 32 <= bits.Length
      ensures full <==> forall f :: 32 * i <= f < 32 * i + 32 ==> bits[f]
    {
      full := true;
      for j := 0 to 32
        invariant full <==> forall f :: 32 * i <= f < 32 * i + j ==> bits[f]
      {
        full := full && bits[32 * i + j];
      }
    }

    /** The least free frame, or a panic if there is none. */
    method AllocateFrame() returns (f: nat)
      requires Valid()
      modifies this`panicked, this`owner, bits
      ensures panicked <==> NoneIsFree(old(bits[..]))
      ensures !panicked ==>
        && Valid() && LeastFree(old(bits[..]), f) && bits[..] == old(bits[..])[f := true]
        && owner == old(owner)[f := Lost]
    {
      ghost var b := bits[..];
      for i := 0 to bits.Length / 32
        invariant bits[..] == b && !panicked && owner == old(owner)
        invariant forall g :: 0 <= g < 32 * i ==> b[g]
      {
        var full := WordFull(i);
        if !full {
          for j := 0 to 32
            invariant bits[..] == b && !panicked && owner == old(owner)
            invariant forall g :: 0 <= g < 32 * i + j ==> b[g]
          {
            if !bits[32 * i + j] {
              f := 32 * i + j;
              FrameSetState(f, true);
              owner := owner[f := Lost];
              return;
            }
          }
        }
      }
      panicked := true;
      f := 0;
    }

    /** The bit of a frame is set or cleared, and no other. */
    method FrameSetState(f: nat, occupied: bool)
      requires f < bits.Length
      modifies bits
      ensures bits[..] == old(bits[..])[f := occupied]
    {
      bits[f] := occupied;
    }

    // ---------- page tables and pages ----------

    /** A table for entry i of the directory, if there is none yet: the frame it is in. */
    method AllocatePageTable(i: nat) returns (t: int)
      requires Valid() && i < ENTRIES
      modifies this`next, phys
      ensures Valid() && t == phys[DIR][i] != UNMAPPED
      ensures old(phys[DIR][i]) != UNMAPPED ==> phys[..] == old(phys[..]) && next == old(next)
      ensures old(phys[DIR][i]) == UNMAPPED ==> t == old(next) && next == old(next) + 1
      ensures SameWalks(old(phys[..]), phys[..]) && Grown(old(phys[..]), phys[..])
    {
      if phys[DIR][i] != UNMAPPED {
        return phys[DIR][i];
      }
      ghost var m := phys[..];
      PoolSuffices(m, next);
      var table := phys[next];
      for k := 0 to ENTRIES
        invariant |table| == ENTRIES && forall q :: 0 <= q < k ==> table[q] == UNMAPPED
      {
        table := table[k := UNMAPPED];
      }
      assert table == seq(ENTRIES, k => UNMAPPED);
      phys[next] := table;
      phys[DIR] := phys[DIR][i := next];
      ghost var m' := phys[..];
      assert m' == m[next := table][DIR := m[DIR][i := next]];
      TableAdded(m, m', next, i);
      t := next;
      next := next + 1;
    }

    /** Page j of table i gets the least free frame, unless it has one: then the new frame is lost. */
    method AllocatePage(i: nat, j: nat) returns (v: nat)
      requires Valid() && i < ENTRIES && j < ENTRIES && !Preset(i)
      modifies this, bits, phys
      ensures v == ENTRIES * i + j
      ensures panicked <==> NoneIsFree(old(bits[..]))
      ensures !panicked ==>
        && Valid() && stale == old(stale) && next >= old(next)
        && Grown(old(phys[..]), phys[..])
        && (if Walk(old(phys[..]), v) == UNMAPPED
            then Taken(old(phys[..]), old(bits[..]), old(owner), phys[..], bits[..], owner, v)
            else SameWalks(old(phys[..]), phys[..]) && Wasted(old(bits[..]), old(owner), bits[..], owner))
    {
      hide Walk, DirOk, Owned, Taken, SameWalks, WalksBut, LeastFree;
      v := ENTRIES * i + j;
      ghost var m, b, o := phys[..], bits[..], owner;
      var f := AllocateFrame();
      if panicked {
        return;
      }
      var _ := AllocatePageTable(i);
      ghost var m1 := phys[..];
      WalkAt(m1, next, i, j);
      WalksAgree(m, m1, v);
      if phys[phys[DIR][i]][j] != UNMAPPED {
        return;
      }
      MapPage(i, j, f);
      ghost var m2 := phys[..];
      TakenBy(m, b, o, m1, m2, bits[..], owner, v, f);
    }

    /** The page is mapped to a frame that was just taken. */
    method MapPage(i: nat, j: nat, f: nat)
      requires Valid() && i < ENTRIES && j < ENTRIES && !Preset(i) && phys[DIR][i] != UNMAPPED
      requires Walk(phys[..], ENTRIES * i + j) == UNMAPPED && f in owner && owner[f] == Lost
      modifies this`owner, phys
      ensures Valid() && owner == old(owner)[f := KernelPage(ENTRIES * i + j)]
      ensures WalksBut(old(phys[..]), phys[..], ENTRIES * i + j, f) && Grown(old(phys[..]), phys[..])
    {
      ghost var m := phys[..];
      SetEntry(i, j, f);
      ghost var m' := phys[..];
      OwnPage(m, m', bits[..], owner, stale, ENTRIES * i + j, f);
      owner := owner[f := KernelPage(ENTRIES * i + j)];
    }

    /** The kernel maps page j of table i to f, or to nothing. */
    method SetEntry(i: nat, j: nat, f: int)
      requires bits as object != phys && Shape(phys[..], bits[..]) && DirOk(phys[..], next)
      requires i < ENTRIES && j < ENTRIES && !Preset(i) && phys[DIR][i] != UNMAPPED
      modifies phys
      ensures Shape(phys[..], bits[..]) && DirOk(phys[..], next)
      ensures WalksBut(old(phys[..]), phys[..], ENTRIES * i + j, f) && Grown(old(phys[..]), phys[..])
    {
      ghost var m := phys[..];
      PoolSuffices(m, next);
      var t := phys[DIR][i];
      phys[t] := phys[t][j := f];
      ghost var m' := phys[..];
      EntrySet(m, m', next, i, j, f);
    }

    /** The first page that is not mapped, or the first of a table that is not there. */
    method FindUnmapped() returns (found: bool, i: nat, j: nat)
      requires Valid()
      ensures found ==> i < USER_TABLES && j < ENTRIES && !Preset(i) && LeastUnmapped(phys[..], ENTRIES * i + j)
      ensures !found ==> NoneUnmapped(phys[..])
    {
      ghost var m := phys[..];
      hide Walk, DirOk, Owned;
      for k := 0 to ENTRIES
        invariant forall w :: 2 * ENTRIES <= w < USER_TABLES * ENTRIES && w < k * ENTRIES ==> Walk(m, w) != UNMAPPED
      {
        if k == 0 || k == 1 || k >= 768 {
          continue;
        }
        if phys[DIR][k] == UNMAPPED {
          WalkNowhere(m, k);
          return true, k, 0;
        }
        for q := 0 to ENTRIES
          invariant forall w :: k * ENTRIES <= w < k * ENTRIES + q ==> Walk(m, w) != UNMAPPED
        {
          WalkAt(m, next, k, q);
          if phys[phys[DIR][k]][q] == UNMAPPED {
            return true, k, q;
          }
        }
      }
      return false, 0, 0;
    }

    /** The least page that is not mapped gets the least free frame. */
    method AllocateUserPage() returns (v: nat)
      requires Valid()
      modifies this, bits, phys
      ensures panicked <==> NoneIsFree(old(bits[..])) || NoneUnmapped(old(phys[..]))
      ensures !panicked ==>
        && Valid() && stale == old(stale) && next >= old(next)
        && Grown(old(phys[..]), phys[..])
        && LeastUnmapped(old(phys[..]), v)
        && Taken(old(phys[..]), old(bits[..]), old(owner), phys[..], bits[..], owner, v)
    {
      var found, i, j := FindUnmapped();
      if !found {
        panicked := true;
        return 0;
      }
      v := AllocatePage(i, j);
    }

    /** A page is unmapped and its frame is free again. */
    method UnmapPage(addr: nat)
      requires Valid() && addr < 0x1_0000_0000 && Kernel(addr / 4096) && phys[DIR][addr / 0x400000] != UNMAPPED
      requires addr / 4096 !in stale
      modifies this`owner, bits, phys
      ensures Valid() && Grown(old(phys[..]), phys[..])
      ensures Released(old(phys[..]), old(bits[..]), old(owner), phys[..], bits[..], owner, addr / 4096)
    {
      var i := addr / 0x400000;
      var j := addr / 4096 % 1024;
      var t := phys[DIR][i];
      ghost var m := phys[..];
      PoolSuffices(m, next);
      ghost var v := addr / 4096;
      assert v == ENTRIES * i + j && Walk(m, v) == m[t][j];
      if phys[t][j] == UNMAPPED {
        return;
      }
      var f := phys[t][j];
      ghost var b, o := bits[..], owner;
      SetEntry(i, j, UNMAPPED);
      ghost var m' := phys[..];
      DisownPage(m, m', b, o, stale, v);
      FrameSetState(f, false);
      owner := owner - {f};
    }
  }

  lemma {:induction false} FullWord(b: seq<bool>, from: nat)
    requires from + 32 <= |b| && forall f :: from <= f < from + 32 ==> b[f]
    ensures FreeFrames(b[..from + 32]) == FreeFrames(b[..from])
  {
    NoneFree(b, from, 32);
  }

  lemma {:induction false} NoneFree(b: seq<bool>, from: nat, n: nat)
    requires from + n <= |b| && forall f :: from <= f < from + n ==> b[f]
    ensures FreeFrames(b[..from + n]) == FreeFrames(b[..from])
    decreases n
  {
    if n > 0 {
      NoneFree(b, from, n - 1);
      assert b[..from + n][..from + n - 1] == b[..from + n - 1];
    }
  }
}

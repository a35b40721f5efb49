/** Runs of allocate_page and unmap_page: what the kernel maps after any number of them. */
module PageRuns {
  import opened PagingSpec
  import opened Paging

  datatype Op = Take | Give(page: int)

  /** The pages that are mapped, with their frames, and the bitmap. */
  datatype Pool = Pool(pages: map<int, int>, bits: seq<bool>)

  datatype After = Panic | Still(pool: Pool)

  const FIRST_PAGE: nat := 2 * ENTRIES
  const PAGE_LIMIT: nat := USER_TABLES * ENTRIES

  /** The least page from `from` on that is not mapped, or the limit. */
  function LeastPage(pages: map<int, int>, from: nat): (v: nat)
    requires from <= PAGE_LIMIT
    ensures from <= v <= PAGE_LIMIT && (forall w :: from <= w < v ==> w in pages) && (v < PAGE_LIMIT ==> v !in pages)
    decreases PAGE_LIMIT - from
  {
    if from == PAGE_LIMIT || from !in pages then from else LeastPage(pages, from + 1)
  }

  /** The least frame from `from` on that is free, or the number of frames. */
  function LeastFrame(b: seq<bool>, from: nat): (f: nat)
    requires from <= |b|
    ensures from <= f <= |b| && (forall g :: from <= g < f ==> b[g]) && (f < |b| ==> !b[f])
    decreases |b| - from
  {
    if from == |b| || !b[from] then from else LeastFrame(b, from + 1)
  }

  /** A page that is given back has to be mapped, and not to a frame that a process has now. */
  predicate Legal(s: Pool, op: Op, stale: set<int>) {
    op.Give? ==> op.page in s.pages && op.page !in stale && 0 <= s.pages[op.page] < |s.bits|
  }

  function Step(s: Pool, op: Op, stale: set<int>): After
    requires Legal(s, op, stale)
  {
    match op
    case Take =>
      var v, f := LeastPage(s.pages, FIRST_PAGE), LeastFrame(s.bits, 0);
      if v == PAGE_LIMIT || f == |s.bits| then Panic else Still(Pool(s.pages[v := f], s.bits[f := true]))
    case Give(v) => Still(Pool(s.pages - {v}, s.bits[s.pages[v] := false]))
  }

  predicate LegalRun(s: Pool, ops: seq<Op>, stale: set<int>)
    decreases |ops|
  {
    ops == [] ||
    (Legal(s, ops[0], stale) &&
     (Step(s, ops[0], stale).Still? ==> LegalRun(Step(s, ops[0], stale).pool, ops[1..], stale)))
  }

  function Run(s: Pool, ops: seq<Op>, stale: set<int>): After
    requires LegalRun(s, ops, stale)
    decreases |ops|
  {
    if ops == [] then Still(s)
    else if Step(s, ops[0], stale).Panic? then Panic
    else Run(Step(s, ops[0], stale).pool, ops[1..], stale)
  }

  // ---------- what a run keeps ----------

  predicate Holds(s: Pool, stale: set<int>, v: int) { v in s.pages && v !in stale }

  /** Pages have frames that are occupied, and no two of them the same. */
  ghost predicate PoolOk(s: Pool, stale: set<int>) {
    && (forall v :: Holds(s, stale, v) ==> 0 <= s.pages[v] < |s.bits| && s.bits[s.pages[v]])
    && forall v, w :: Holds(s, stale, v) && Holds(s, stale, w) && v != w ==> s.pages[v] != s.pages[w]
  }

  /** Frame f is taken, but not by a page: it is locked, lost, or a process has it. */
  ghost predicate Elsewhere(s: Pool, stale: set<int>, f: int) {
    0 <= f < |s.bits| && s.bits[f] && forall v :: Holds(s, stale, v) ==> s.pages[v] != f
  }

  ghost predicate SameElsewhere(s: Pool, t: Pool, stale: set<int>) {
    |t.bits| == |s.bits| && forall f :: Elsewhere(t, stale, f) <==> Elsewhere(s, stale, f)
  }

  lemma StepKeeps(s: Pool, op: Op, stale: set<int>)
    requires PoolOk(s, stale) && Legal(s, op, stale) && Step(s, op, stale).Still?
    requires forall v :: v in stale ==> v in s.pages
    ensures var t := Step(s, op, stale).pool;
      && PoolOk(t, stale) && SameElsewhere(s, t, stale) && (forall v :: v in stale ==> v in t.pages)
      && |t.pages| + FreeFrames(t.bits) == |s.pages| + FreeFrames(s.bits)
      && |t.pages| == |s.pages| + (if op.Take? then 1 else -1)
      && forall v :: v in s.pages && op != Give(v) ==> v in t.pages && t.pages[v] == s.pages[v]
  {
    var t := Step(s, op, stale).pool;
    var v := if op.Take? then LeastPage(s.pages, FIRST_PAGE) else op.page;
    FreeFramesUpdate(s.bits, if op.Take? then LeastFrame(s.bits, 0) else s.pages[v], op.Take?);
    assert Holds(if op.Take? then t else s, stale, v);
    forall f ensures Elsewhere(t, stale, f) <==> Elsewhere(s, stale, f) {
      assert forall w :: w != v ==> (Holds(t, stale, w) <==> Holds(s, stale, w));
    }
  }

  /** Over any run: no frame is given to two pages, mapped pages and free frames add up to the same, a page
      that is not given back keeps its frame, and no frame is given away that belongs to anything else. */
  lemma {:induction false} RunKeeps(s: Pool, ops: seq<Op>, stale: set<int>)
    requires PoolOk(s, stale) && LegalRun(s, ops, stale)
    requires Run(s, ops, stale).Still? && forall v :: v in stale ==> v in s.pages
    ensures var t := Run(s, ops, stale).pool;
      && PoolOk(t, stale) && SameElsewhere(s, t, stale) && (forall v :: v in stale ==> v in t.pages)
      && |t.pages| + FreeFrames(t.bits) == |s.pages| + FreeFrames(s.bits)
      && |t.pages| == |s.pages| + Takes(ops) - (|ops| - Takes(ops))
      && forall v :: v in s.pages && Give(v) !in ops ==> v in t.pages && t.pages[v] == s.pages[v]
    decreases |ops|
  {
    if ops != [] {
      hide PoolOk, FreeFrames, Step, Legal, Elsewhere;
      StepKeeps(s, ops[0], stale);
      RunKeeps(Step(s, ops[0], stale).pool, ops[1..], stale);
      assert ops == [ops[0]] + ops[1..];
    }
  }

  function Takes(ops: seq<Op>): nat {
    if ops == [] then 0 else (if ops[0].Take? then 1 else 0) + Takes(ops[1..])
  }

  /** A run that ends with the pages mapped as before leaves the bitmap as it was: nothing leaks. */
  lemma NothingLeaks(s: Pool, ops: seq<Op>, stale: set<int>)
    requires PoolOk(s, stale) && LegalRun(s, ops, stale)
    requires Run(s, ops, stale).Still? && forall v :: v in stale ==> v in s.pages
    ensures var t := Run(s, ops, stale).pool; t.pages == s.pages ==> t.bits == s.bits
  {
    RunKeeps(s, ops, stale);
    var t := Run(s, ops, stale).pool;
    if t.pages == s.pages {
      forall f | 0 <= f < |s.bits| ensures t.bits[f] == s.bits[f] {
        assert Elsewhere(t, stale, f) <==> Elsewhere(s, stale, f);
      }
    }
  }

  /** A run panics at the first page that is asked for when no frame is free or no page is left, and only there. */
  lemma PanicExactly(s: Pool, op: Op, stale: set<int>)
    requires PoolOk(s, stale) && Legal(s, op, stale)
    ensures Step(s, op, stale).Panic? <==>
      op.Take? && (FreeFrames(s.bits) == 0 || forall v :: FIRST_PAGE <= v < PAGE_LIMIT ==> v in s.pages)
  {
    NoneFreeCounts(s.bits);
  }

  // ---------- the page tables ----------

  /** What the kernel's page tables and the bitmap say. */
  ghost function PoolOf(m: Mem, b: seq<bool>): Pool
    requires Paged(m)
  {
    Pool(map v | 0 <= v < PAGES && Kernel(v) && Walk(m, v) != UNMAPPED :: Walk(m, v), b)
  }

  lemma OwnedPoolOk(m: Mem, b: seq<bool>, o: map<int, Owner>, stale: set<int>)
    requires Paged(m) && Owned(m, b, o, stale)
    ensures PoolOk(PoolOf(m, b), stale) && forall v :: v in stale ==> v in PoolOf(m, b).pages
  {
    forall v, w | Holds(PoolOf(m, b), stale, v) && Holds(PoolOf(m, b), stale, w) && v != w
      ensures Walk(m, v) != Walk(m, w)
    {
      WalksInjective(m, b, o, stale, v, w);
    }
  }

  lemma TakenIsStep(m: Mem, b: seq<bool>, o: map<int, Owner>, m': Mem, b': seq<bool>, o': map<int, Owner>, v: nat,
                    stale: set<int>)
    requires Paged(m) && Paged(m') && LeastUnmapped(m, v) && Taken(m, b, o, m', b', o', v) && |b| <= UNMAPPED
    ensures Step(PoolOf(m, b), Take, stale) == Still(PoolOf(m', b'))
  {
    var s, f := PoolOf(m, b), Walk(m', v);
    assert LeastFrame(b, 0) == f;
    assert forall w :: FIRST_PAGE <= w < PAGE_LIMIT ==> Kernel(w) && (w in s.pages <==> Walk(m, w) != UNMAPPED);
    assert LeastPage(s.pages, FIRST_PAGE) == v;
    assert PoolOf(m', b').pages == s.pages[v := f];
  }

  lemma ReleasedIsStep(m: Mem, b: seq<bool>, o: map<int, Owner>, m': Mem, b': seq<bool>, o': map<int, Owner>, v: nat,
                       stale: set<int>)
    requires Paged(m) && Paged(m') && Kernel(v) && Released(m, b, o, m', b', o', v)
    requires Legal(PoolOf(m, b), Give(v), stale)
    ensures Step(PoolOf(m, b), Give(v), stale) == Still(PoolOf(m', b'))
  {
    assert PoolOf(m', b').pages == PoolOf(m, b).pages - {v};
  }

  lemma PanicIsStep(m: Mem, b: seq<bool>, stale: set<int>)
    requires Paged(m)
    ensures Step(PoolOf(m, b), Take, stale).Panic? <==> NoneIsFree(b) || NoneUnmapped(m)
  {
    var s := PoolOf(m, b);
    assert forall w :: FIRST_PAGE <= w < PAGE_LIMIT ==> Kernel(w) && (w in s.pages <==> Walk(m, w) != UNMAPPED);
    assert LeastPage(s.pages, FIRST_PAGE) == PAGE_LIMIT <==> NoneUnmapped(m);
  }

  /** One call does to the page tables what the step says, and panics where the step does. */
  method Do(pg: Pager, op: Op)
    requires pg.Valid() && Legal(PoolOf(pg.phys[..], pg.bits[..]), op, pg.stale)
    modifies pg, pg.bits, pg.phys
    ensures pg.panicked <==> old(Step(PoolOf(pg.phys[..], pg.bits[..]), op, pg.stale)).Panic?
    ensures !pg.panicked ==>
      && pg.Valid() && pg.stale == old(pg.stale)
      && old(Step(PoolOf(pg.phys[..], pg.bits[..]), op, pg.stale)) == Still(PoolOf(pg.phys[..], pg.bits[..]))
  {
    hide Walk, DirOk, Owned, Taken, Step, NoneIsFree, NoneUnmapped, LeastUnmapped, Grown;
    ghost var m, b, o := pg.phys[..], pg.bits[..], pg.owner;
    match op
    case Take =>
      PanicIsStep(m, b, pg.stale);
      var v := pg.AllocateUserPage();
      if !pg.panicked {
        TakenIsStep(m, b, o, pg.phys[..], pg.bits[..], pg.owner, v, pg.stale);
      }
    case Give(v) =>
      MappedTable(m, v);
      pg.UnmapPage(4096 * v);
      ReleasedIsStep(m, b, o, pg.phys[..], pg.bits[..], pg.owner, v, pg.stale);
  }

  lemma MappedTable(m: Mem, v: int)
    requires Paged(m) && Kernel(v) && Walk(m, v) != UNMAPPED
    ensures m[DIR][v / ENTRIES] != UNMAPPED
  {
  }

  /** Any sequence of allocations and releases leaves the tables and the bitmap that the run gives. */
  method DoAll(pg: Pager, ops: seq<Op>)
    requires pg.Valid() && LegalRun(PoolOf(pg.phys[..], pg.bits[..]), ops, pg.stale)
    modifies pg, pg.bits, pg.phys
    ensures var end := old(Run(PoolOf(pg.phys[..], pg.bits[..]), ops, pg.stale));
      if end.Panic? then pg.panicked
      else pg.Valid() && pg.stale == old(pg.stale) && end == Still(PoolOf(pg.phys[..], pg.bits[..]))
  {
    hide Step, Legal, PoolOf;
    ghost var end, stale := Run(PoolOf(pg.phys[..], pg.bits[..]), ops, pg.stale), pg.stale;
    for k := 0 to |ops|
      invariant pg.Valid() && pg.stale == stale && LegalRun(PoolOf(pg.phys[..], pg.bits[..]), ops[k..], stale)
      invariant Run(PoolOf(pg.phys[..], pg.bits[..]), ops[k..], stale) == end
    {
      assert ops[k..][0] == ops[k] && ops[k..][1..] == ops[k + 1..];
      Do(pg, ops[k]);
      if pg.panicked {
        return;
      }
    }
  }
}

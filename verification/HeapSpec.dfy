/** What the first-fit allocator does to the list of its blocks: one scan merges
    free neighbours in pairs and cuts the first block that fits. */
module HeapSpec {
  import opened Bytes

  // a packed heap_block_t: a 4-byte link, a 1-bit flag in a byte of its own, a 4-byte size
  const HEADER_SIZE: nat := 9

  /** A block covers its header and its payload. */
  datatype Block = Block(at: nat, size: nat, free: bool)

  function Payload(b: Block): nat { b.at + HEADER_SIZE }

  /** The blocks cover lo..hi without a gap or an overlap, and each has room for its header. */
  predicate Tiled(bs: seq<Block>, lo: nat, hi: nat) {
    if bs == [] then lo == hi
    else bs[0].at == lo && bs[0].size >= HEADER_SIZE && Tiled(bs[1..], lo + bs[0].size, hi)
  }

  function BytesOf(bs: seq<Block>, free: bool): nat {
    if bs == [] then 0 else (if bs[0].free == free then bs[0].size else 0) + BytesOf(bs[1..], free)
  }

  predicate Allocated(bs: seq<Block>, b: Block) { b in bs && !b.free }

  // ---------- heap_malloc ----------

  /** The bytes asked for, computed in 32 bits. */
  function Needed(size: nat): nat { (size + HEADER_SIZE) % WORD }

  predicate PairAhead(bs: seq<Block>) { |bs| >= 2 && bs[0].free && bs[1].free }

  /** The block the scan looks at, after the merge with its neighbour. */
  function Front(bs: seq<Block>): Block
    requires bs != []
  {
    if PairAhead(bs) then Block(bs[0].at, bs[0].size + bs[1].size, true) else bs[0]
  }

  function Behind(bs: seq<Block>): (r: seq<Block>)
    requires bs != []
    ensures |r| < |bs|
  {
    if PairAhead(bs) then bs[2..] else bs[1..]
  }

  predicate Suits(b: Block, needed: nat) { b.free && b.size >= needed }

  /** Cutting a block in two, if a header and a byte are left over. */
  function Carve(b: Block, needed: nat): seq<Block>
    requires needed <= b.size
  {
    if b.size > needed + HEADER_SIZE
    then [Block(b.at, needed, false), Block(b.at + needed, b.size - needed, true)]
    else [b.(free := false)]
  }

  /** Cutting off less than a header lays the new header over the old one: the list is lost. */
  predicate Overlays(b: Block, needed: nat) { needed < HEADER_SIZE && b.size > needed + HEADER_SIZE }

  datatype Answer = Null(blocks: seq<Block>) | Granted(blocks: seq<Block>, at: nat) | Overlaid

  function Prefixed(pre: seq<Block>, a: Answer): Answer {
    match a
    case Null(bs) => Null(pre + bs)
    case Granted(bs, at) => Granted(pre + bs, at)
    case Overlaid => Overlaid
  }

  function Alloc(bs: seq<Block>, needed: nat): Answer
    decreases |bs|
  {
    if bs == [] then Null([])
    else if !Suits(Front(bs), needed) then Prefixed([Front(bs)], Alloc(Behind(bs), needed))
    else if Overlays(Front(bs), needed) then Overlaid
    else Granted(Carve(Front(bs), needed) + Behind(bs), Front(bs).at)
  }

  // ---------- heap_free ----------

  function Release(bs: seq<Block>, at: nat): (r: seq<Block>)
    ensures |r| == |bs|
  {
    if bs == [] then []
    else [if bs[0].at == at then bs[0].(free := true) else bs[0]] + Release(bs[1..], at)
  }

  // ---------- tiling ----------

  lemma {:induction false} TiledSplit(xs: seq<Block>, ys: seq<Block>, lo: nat, hi: nat)
    requires Tiled(xs + ys, lo, hi)
    ensures var mid := if ys == [] then hi else ys[0].at; Tiled(xs, lo, mid) && Tiled(ys, mid, hi) && lo <= mid <= hi
  {
    if xs == [] {
      assert xs + ys == ys;
      if ys != [] { TiledBounds(ys, lo, hi); }
    } else {
      assert (xs + ys)[1..] == xs[1..] + ys;
      TiledSplit(xs[1..], ys, lo + xs[0].size, hi);
    }
  }

  lemma {:induction false} TiledJoin(xs: seq<Block>, ys: seq<Block>, lo: nat, mid: nat, hi: nat)
    requires Tiled(xs, lo, mid) && Tiled(ys, mid, hi)
    ensures Tiled(xs + ys, lo, hi)
  {
    if xs == [] {
      assert xs + ys == ys;
    } else {
      assert (xs + ys)[1..] == xs[1..] + ys;
      TiledJoin(xs[1..], ys, lo + xs[0].size, mid, hi);
    }
  }

  lemma {:induction false} TiledBounds(bs: seq<Block>, lo: nat, hi: nat)
    requires Tiled(bs, lo, hi)
    ensures lo <= hi && (lo == hi <==> bs == [])
    ensures forall b :: b in bs ==> lo <= b.at && HEADER_SIZE <= b.size && b.at + b.size <= hi
  {
    if bs != [] {
      TiledBounds(bs[1..], lo + bs[0].size, hi);
      assert bs == [bs[0]] + bs[1..];
    }
  }

  /** Two blocks of a tiled heap are the same or apart. */
  lemma {:induction false} TiledApart(bs: seq<Block>, lo: nat, hi: nat, i: nat, j: nat)
    requires Tiled(bs, lo, hi) && i < j < |bs|
    ensures bs[i].at + bs[i].size <= bs[j].at
  {
    TiledBounds(bs[1..], lo + bs[0].size, hi);
    if i > 0 {
      TiledApart(bs[1..], lo + bs[0].size, hi, i - 1, j - 1);
    }
  }

  /** Free and allocated bytes make up the heap. */
  lemma {:induction false} TiledBytes(bs: seq<Block>, lo: nat, hi: nat)
    requires Tiled(bs, lo, hi)
    ensures BytesOf(bs, true) + BytesOf(bs, false) == hi - lo
  {
    if bs != [] {
      TiledBytes(bs[1..], lo + bs[0].size, hi);
    }
  }

  lemma FrontTiles(bs: seq<Block>, lo: nat, hi: nat)
    requires bs != [] && Tiled(bs, lo, hi)
    ensures Front(bs).at == lo && Front(bs).size >= HEADER_SIZE
    ensures Tiled(Behind(bs), lo + Front(bs).size, hi)
  {
    if PairAhead(bs) {
      assert bs[1..][1..] == bs[2..];
    }
  }

  /** Every scan that does not end in an overlay keeps the tiling. */
  lemma {:induction false} AllocTiles(bs: seq<Block>, needed: nat, lo: nat, hi: nat)
    requires Tiled(bs, lo, hi) && !Alloc(bs, needed).Overlaid?
    ensures Tiled(Alloc(bs, needed).blocks, lo, hi)
    decreases |bs|
  {
    if bs != [] {
      FrontTiles(bs, lo, hi);
      var f := Front(bs);
      if Suits(f, needed) {
        TiledJoin(Carve(f, needed), Behind(bs), lo, lo + f.size, hi);
      } else {
        AllocTiles(Behind(bs), needed, lo + f.size, hi);
        TiledJoin([f], Alloc(Behind(bs), needed).blocks, lo, lo + f.size, hi);
      }
    }
  }

  // ---------- which blocks are allocated ----------

  lemma FrontKeeps(bs: seq<Block>, b: Block)
    requires bs != []
    ensures Allocated(bs, b) <==> (b == Front(bs) && !b.free) || Allocated(Behind(bs), b)
  {
    assert bs == [bs[0]] + bs[1..];
    if PairAhead(bs) {
      assert bs[1..] == [bs[1]] + bs[2..];
    }
  }

  /** The block that is handed out. */
  function Handed(bs: seq<Block>, needed: nat): Block
    requires Alloc(bs, needed).Granted?
    decreases |bs|
  {
    if Suits(Front(bs), needed) then Carve(Front(bs), needed)[0] else Handed(Behind(bs), needed)
  }

  /** A scan hands out at most one block: it starts at the address returned, and is as large as asked
      for with no more than a header to spare. All other allocated blocks stay as they are. */
  lemma {:induction false} AllocKeepsOthers(bs: seq<Block>, needed: nat)
    requires !Alloc(bs, needed).Overlaid?
    ensures var a := Alloc(bs, needed);
      if a.Null? then forall b :: Allocated(a.blocks, b) <==> Allocated(bs, b)
      else var g := Handed(bs, needed);
        && g.at == a.at && needed <= g.size <= needed + HEADER_SIZE && !g.free
        && forall b :: Allocated(a.blocks, b) <==> Allocated(bs, b) || b == g
    decreases |bs|
  {
    if bs != [] {
      forall b ensures Allocated(bs, b) <==> (b == Front(bs) && !b.free) || Allocated(Behind(bs), b) {
        FrontKeeps(bs, b);
      }
      if !Suits(Front(bs), needed) {
        AllocKeepsOthers(Behind(bs), needed);
      }
    }
  }

  // ---------- first fit ----------

  /** A whole scan without a hit. */
  function PairUp(bs: seq<Block>): seq<Block>
    decreases |bs|
  {
    if bs == [] then [] else [Front(bs)] + PairUp(Behind(bs))
  }

  predicate NoneSuits(bs: seq<Block>, needed: nat) { forall b :: b in bs ==> !Suits(b, needed) }

  /** NULL means that no free block fits, neither before nor after the merges of the scan. */
  lemma {:induction false} NullExactly(bs: seq<Block>, needed: nat)
    ensures Alloc(bs, needed).Null? <==> NoneSuits(PairUp(bs), needed)
    ensures Alloc(bs, needed).Null? ==> NoneSuits(bs, needed) && Alloc(bs, needed).blocks == PairUp(bs)
    decreases |bs|
  {
    hide Front, Behind, Suits;
    if bs != [] {
      NullExactly(Behind(bs), needed);
      var f := Front(bs);
      assert f in PairUp(bs);
      assert forall b :: b in PairUp(Behind(bs)) ==> b in PairUp(bs);
      if !Suits(f, needed) && NoneSuits(Behind(bs), needed) {
        NoneInFront(bs, needed);
      }
    }
  }

  lemma NoneInFront(bs: seq<Block>, needed: nat)
    requires bs != [] && !Suits(Front(bs), needed) && NoneSuits(Behind(bs), needed)
    ensures NoneSuits(bs, needed)
  {
    assert bs == [bs[0]] + bs[1..];
    if PairAhead(bs) {
      assert bs[1..] == [bs[1]] + bs[2..];
    }
  }

  lemma BehindIs(bs: seq<Block>)
    requires bs != []
    ensures Behind(bs) == bs[|bs| - |Behind(bs)|..] && |Behind(bs)| < |bs|
  {
  }

  lemma Regrouped(f: Block, q: seq<Block>, i: nat, c: seq<Block>, rest: seq<Block>)
    requires i < |q|
    ensures ([f] + q)[..i + 1] == [f] + q[..i] && ([f] + q)[i + 1..] == q[i..]
    ensures ([f] + q)[..i + 1] + c + rest == [f] + (q[..i] + c + rest)
  {
  }

  /** Otherwise the first block that fits, of those the scan looks at, is used; the blocks behind
      it are not even merged. */
  lemma {:induction false} FirstFit(bs: seq<Block>, needed: nat) returns (i: nat, rest: seq<Block>)
    requires !Alloc(bs, needed).Null?
    ensures i < |PairUp(bs)| && Suits(PairUp(bs)[i], needed) && NoneSuits(PairUp(bs)[..i], needed)
    ensures PairUp(rest) == PairUp(bs)[i + 1..] && |rest| <= |bs| && rest == bs[|bs| - |rest|..]
    ensures Alloc(bs, needed) ==
      if Overlays(PairUp(bs)[i], needed) then Overlaid
      else Granted(PairUp(bs)[..i] + Carve(PairUp(bs)[i], needed) + rest, PairUp(bs)[i].at)
    decreases |bs|
  {
    hide Front, Behind, Carve, Overlays;
    BehindIs(bs);
    var f, p, q := Front(bs), PairUp(bs), PairUp(Behind(bs));
    assert p == [f] + q;
    if Suits(f, needed) {
      i, rest := 0, Behind(bs);
      assert p[..0] + Carve(f, needed) == Carve(f, needed);
    } else {
      i, rest := FirstFit(Behind(bs), needed);
      Regrouped(f, q, i, if Overlays(q[i], needed) then [] else Carve(q[i], needed), rest);
      i := i + 1;
    }
  }

  // ---------- the scan on the blocks as they lie ----------

  /** How many free blocks lie directly before block i. */
  function FreeBefore(bs: seq<Block>, i: nat): (n: nat)
    requires i <= |bs|
    ensures n <= i
  {
    if i == 0 || !bs[i - 1].free then 0 else FreeBefore(bs, i - 1) + 1
  }

  /** In a row of free blocks the scan looks at the first, the third and so on. */
  predicate Looked(bs: seq<Block>, i: nat)
    requires i < |bs|
  {
    bs[i].free && FreeBefore(bs, i) % 2 == 0
  }

  /** The bytes of a free block and of the next one, if that is free. */
  function Together(bs: seq<Block>, i: nat): nat
    requires i < |bs|
  {
    bs[i].size + if i + 1 < |bs| && bs[i + 1].free then bs[i + 1].size else 0
  }

  /** What is left of a block or a pair of blocks. */
  function After(bs: seq<Block>, i: nat): seq<Block>
    requires i < |bs|
  {
    if i + 1 < |bs| && bs[i + 1].free then bs[i + 2..] else bs[i + 1..]
  }

  lemma {:induction false} FreeBeforeTail(bs: seq<Block>, i: nat)
    requires 1 <= i <= |bs|
    ensures var n := FreeBefore(bs[1..], i - 1);
      FreeBefore(bs, i) == if bs[0].free && n == i - 1 then n + 1 else n
  {
    if i > 1 {
      FreeBeforeTail(bs, i - 1);
      assert bs[1..][i - 2] == bs[i - 1];
    }
  }

  /** Behind the block or the pair that the scan looks at first, it looks at the same blocks as a scan that
      starts there. */
  lemma LookedBehind(bs: seq<Block>, i: nat)
    requires bs != []
    requires var n := |bs| - |Behind(bs)|; n <= i < |bs|
    ensures var n := |bs| - |Behind(bs)|;
      && Looked(bs, i) == Looked(Behind(bs), i - n) && Together(bs, i) == Together(Behind(bs), i - n)
      && After(bs, i) == After(Behind(bs), i - n) && bs[i] == Behind(bs)[i - n]
  {
    FreeBeforeTail(bs, i);
    if PairAhead(bs) {
      FreeBeforeTail(bs[1..], i - 1);
      assert bs[1..][1..] == bs[2..];
    } else if i > 1 && bs[0].free {
      NotAcross(bs[1..], i - 1);
    }
  }

  /** A row of free blocks does not reach across one that is allocated. */
  lemma {:induction false} NotAcross(bs: seq<Block>, i: nat)
    requires 1 <= i <= |bs| && !bs[0].free
    ensures FreeBefore(bs, i) < i
  {
    if i > 1 {
      NotAcross(bs, i - 1);
    }
  }

  /** No block that the scan looks at fits, together with the free one behind it if there is one. */
  predicate NoneServes(bs: seq<Block>, needed: nat) {
    forall i :: 0 <= i < |bs| && Looked(bs, i) ==> Together(bs, i) < needed
  }

  /** NULL is the answer if and only if that is so. */
  lemma {:induction false} NullOnBlocks(bs: seq<Block>, needed: nat)
    ensures Alloc(bs, needed).Null? <==> NoneServes(bs, needed)
    decreases |bs|
  {
    if bs != [] {
      var n, rest := |bs| - |Behind(bs)|, Behind(bs);
      NullOnBlocks(rest, needed);
      LookedFirst(bs);
      forall i | n <= i < |bs|
        ensures Looked(bs, i) == Looked(rest, i - n) && Together(bs, i) == Together(rest, i - n)
      {
        LookedBehind(bs, i);
      }
      hide Together, Looked, PairAhead, Behind, Front;
      assert forall k :: 0 <= k < |rest| ==> Looked(rest, k) == Looked(bs, k + n);
      assert forall k :: 0 <= k < |rest| ==> Together(rest, k) == Together(bs, k + n);
    }
  }

  /** The first block, or the first two, of a list. */
  lemma LookedFirst(bs: seq<Block>)
    requires bs != []
    ensures Looked(bs, 0) <==> Front(bs).free
    ensures Front(bs).free ==> Front(bs) == Block(bs[0].at, Together(bs, 0), true) && After(bs, 0) == Behind(bs)
    ensures forall i :: 0 < i < |bs| - |Behind(bs)| ==> !Looked(bs, i)
  {
    if PairAhead(bs) {
      assert FreeBefore(bs, 1) == FreeBefore(bs, 0) + 1 == 1;
    }
  }

  /** Two free blocks in a row that suffice together are found, if the block before them is not free. */
  lemma PairServes(bs: seq<Block>, i: nat, needed: nat)
    requires i + 1 < |bs| && bs[i].free && bs[i + 1].free && (i == 0 || !bs[i - 1].free)
    requires bs[i].size + bs[i + 1].size >= needed
    ensures !Alloc(bs, needed).Null?
  {
    NullOnBlocks(bs, needed);
    assert Looked(bs, i) && Together(bs, i) >= needed;
  }

  /** Otherwise the first one that does is cut, and nothing behind it is touched. */
  lemma {:induction false} FirstOnBlocks(bs: seq<Block>, needed: nat) returns (i: nat)
    requires !Alloc(bs, needed).Null?
    ensures i < |bs| && Looked(bs, i) && Together(bs, i) >= needed
    ensures forall k :: 0 <= k < i && Looked(bs, k) ==> Together(bs, k) < needed
    ensures var n, at := Together(bs, i), bs[i].at;
      Alloc(bs, needed) ==
        if n <= needed + HEADER_SIZE then Granted(PairUp(bs[..i]) + [Block(at, n, false)] + After(bs, i), at)
        else if needed < HEADER_SIZE then Overlaid
        else
          Granted(PairUp(bs[..i]) + [Block(at, needed, false), Block(at + needed, n - needed, true)] + After(bs, i), at)
    decreases |bs|
  {
    hide Front, Behind, Looked, Together, After;
    LookedFirst(bs);
    BehindIs(bs);
    var f, rest := Front(bs), Behind(bs);
    if Suits(f, needed) {
      i := 0;
      assert PairUp(bs[..0]) == [] && [] + Carve(f, needed) == Carve(f, needed);
    } else {
      var n := |bs| - |rest|;
      var j := FirstOnBlocks(rest, needed);
      i := j + n;
      forall k | n <= k < |bs|
        ensures Looked(bs, k) == Looked(rest, k - n) && Together(bs, k) == Together(rest, k - n)
      {
        LookedBehind(bs, k);
      }
      LookedBehind(bs, i);
      PairUpTo(bs, i);
      var b := Block(bs[i].at, Together(bs, i), true);
      assert PairUp(bs[..i]) == [f] + PairUp(rest[..j]);
      assert [f] + PairUp(rest[..j]) + Carve(b, needed) + After(bs, i)
          == [f] + (PairUp(rest[..j]) + Carve(b, needed) + After(bs, i));
    }
  }

  /** What lies before a block that the scan looks at is scanned without regard to it. */
  lemma PairUpTo(bs: seq<Block>, i: nat)
    requires i < |bs| && Looked(bs, i) && |bs| - |Behind(bs)| <= i
    ensures PairUp(bs[..i]) == [Front(bs)] + PairUp(Behind(bs)[..i - (|bs| - |Behind(bs)|)])
  {
    var n := |bs| - |Behind(bs)|;
    assert bs[..i][n..] == Behind(bs)[..i - n];
  }

  /** A scan merges two free blocks that follow one that is allocated, or come first of all. */
  lemma PairUpPair(xs: seq<Block>, a: Block, b: Block, ys: seq<Block>)
    requires a.free && b.free && (xs == [] || !xs[|xs| - 1].free)
    ensures PairUp(xs + [a, b] + ys) == PairUp(xs) + [Block(a.at, a.size + b.size, true)] + PairUp(ys)
  {
    var bs := [a, b] + ys;
    assert xs + [a, b] + ys == xs + bs;
    PairUpSplit(xs, bs);
    assert bs[2..] == ys && PairAhead(bs);
    assert PairUp(bs) == [Block(a.at, a.size + b.size, true)] + PairUp(ys);
  }

  /** It leaves a free block alone that is followed by none, and every block that is allocated. */
  lemma PairUpSingle(xs: seq<Block>, a: Block, ys: seq<Block>)
    requires a.free ==> (xs == [] || !xs[|xs| - 1].free) && (ys == [] || !ys[0].free)
    ensures PairUp(xs + [a] + ys) == PairUp(xs) + [a] + PairUp(ys)
  {
    var bs := [a] + ys;
    assert xs + [a] + ys == xs + bs;
    PairUpSplit(xs, bs);
    assert bs[1..] == ys && !PairAhead(bs);
    assert PairUp(bs) == [a] + PairUp(ys);
  }

  /** The scan cannot merge across the end of xs. */
  predicate Apart(xs: seq<Block>, ys: seq<Block>) { xs == [] || !xs[|xs| - 1].free || ys == [] || !ys[0].free }

  lemma ApartBehind(xs: seq<Block>, ys: seq<Block>)
    requires Apart(xs, ys) && xs != []
    ensures Apart(Behind(xs), ys) && Front(xs + ys) == Front(xs) && Behind(xs + ys) == Behind(xs) + ys
  {
    var bs, n := xs + ys, |xs| - |Behind(xs)|;
    assert PairAhead(bs) == PairAhead(xs);
    assert bs[n..] == xs[n..] + ys;
  }

  lemma {:induction false} PairUpSplit(xs: seq<Block>, ys: seq<Block>)
    requires Apart(xs, ys)
    ensures PairUp(xs + ys) == PairUp(xs) + PairUp(ys)
    decreases |xs|
  {
    hide Apart, Front, Behind;
    if xs == [] {
      assert xs + ys == ys;
    } else {
      ApartBehind(xs, ys);
      PairUpSplit(Behind(xs), ys);
    }
  }

  /** A cut leaves no block without a byte of payload. */
  lemma {:induction false} PayloadsStay(bs: seq<Block>, needed: nat)
    requires needed > HEADER_SIZE && forall b :: b in bs ==> b.size > HEADER_SIZE
    ensures Alloc(bs, needed).Null? || Alloc(bs, needed).Granted?
    ensures forall b :: b in Alloc(bs, needed).blocks ==> b.size > HEADER_SIZE
    decreases |bs|
  {
    if bs != [] {
      PayloadsStay(Behind(bs), needed);
      assert bs == [bs[0]] + bs[1..];
    }
  }

  /** Asking for a size whose sum with the header wraps around either lays one header over another,
      or hands out a block that is too small. Any other request is served in full. */
  lemma WrapExactly(bs: seq<Block>, size: nat)
    requires size < WORD && !Alloc(bs, Needed(size)).Null?
    ensures size + HEADER_SIZE < WORD <==>
      Alloc(bs, Needed(size)).Granted? && Handed(bs, Needed(size)).size >= size + HEADER_SIZE
  {
    var needed := Needed(size);
    assert needed == if size + HEADER_SIZE < WORD then size + HEADER_SIZE else size + HEADER_SIZE - WORD;
    hide Needed, Alloc, Handed;
    if Alloc(bs, needed).Granted? {
      AllocKeepsOthers(bs, needed);
    } else {
      NeverOverlaid(bs, needed);
    }
  }

  lemma SameAddress(bs: seq<Block>, lo: nat, hi: nat, a: Block, b: Block)
    requires Tiled(bs, lo, hi) && a in bs && b in bs && a.at == b.at
    ensures a == b
  {
    TiledBounds(bs, lo, hi);
    var i :| 0 <= i < |bs| && bs[i] == a;
    var j :| 0 <= j < |bs| && bs[j] == b;
    if i < j { TiledApart(bs, lo, hi, i, j); }
    if j < i { TiledApart(bs, lo, hi, j, i); }
  }

  lemma {:induction false} NeverOverlaid(bs: seq<Block>, needed: nat)
    ensures Alloc(bs, needed).Overlaid? ==> needed < HEADER_SIZE
    decreases |bs|
  {
    if bs != [] {
      NeverOverlaid(Behind(bs), needed);
    }
  }

  // ---------- fragmentation ----------

  predicate AllFree(bs: seq<Block>) { forall b :: b in bs ==> b.free }

  /** Of free blocks in a row, a scan leaves every second one. */
  lemma {:induction false} PairUpHalves(bs: seq<Block>)
    requires AllFree(bs)
    ensures AllFree(PairUp(bs)) && |PairUp(bs)| == (|bs| + 1) / 2
    ensures BytesOf(PairUp(bs), true) == BytesOf(bs, true)
    decreases |bs|
  {
    if bs != [] {
      PairUpHalves(Behind(bs));
      assert PairUp(bs) == [Front(bs)] + PairUp(Behind(bs));
      assert bs == [bs[0]] + bs[1..];
      if |bs| >= 2 {
        assert bs[1] in bs && PairAhead(bs);
        assert bs[1..][1..] == bs[2..];
      }
    }
  }

  function Retried(bs: seq<Block>, tries: nat): seq<Block>
    decreases tries
  {
    if tries == 0 then bs else Retried(PairUp(bs), tries - 1)
  }

  function Pow2(n: nat): nat { if n == 0 then 1 else 2 * Pow2(n - 1) }

  /** One failed request does not mean that the bytes are not there, but when all is free, after n
      failed requests a heap of at most 2^n blocks is a single block: the next request that fits
      the heap is granted. */
  lemma {:induction false} RetrySucceeds(bs: seq<Block>, tries: nat, needed: nat)
    requires AllFree(bs) && bs != [] && |bs| <= Pow2(tries) && needed <= BytesOf(bs, true)
    ensures !Alloc(Retried(bs, tries), needed).Null?
    decreases tries
  {
    if tries == 0 {
      assert bs == [bs[0]];
      assert bs[1..] == [] && Suits(Front(bs), needed);
    } else {
      PairUpHalves(bs);
      RetrySucceeds(PairUp(bs), tries - 1, needed);
    }
  }

  /** Three free blocks of 100 bytes in a row: 300 bytes are there, and the request for 250 fails. */
  lemma ContiguousButRefused()
    ensures var bs := [Block(1000, 100, true), Block(1100, 100, true), Block(1200, 100, true)];
      && Tiled(bs, 1000, 1300) && Alloc(bs, 250).Null?
      && Alloc(Alloc(bs, 250).blocks, 250) == Granted([Block(1000, 250, false), Block(1250, 50, true)], 1000)
  {
    var bs := [Block(1000, 100, true), Block(1100, 100, true), Block(1200, 100, true)];
    assert bs[1..] == [bs[1], bs[2]] && bs[2..] == [bs[2]] && bs[1..][1..] == [bs[2]] && bs[2..][1..] == [];
    var m := [Block(1000, 200, true), bs[2]];
    assert Alloc(bs[2..], 250) == Null([bs[2]]);
    assert Alloc(bs, 250) == Null(m);
  }

  // ---------- freeing ----------

  lemma {:induction false} ReleaseTiles(bs: seq<Block>, at: nat, lo: nat, hi: nat)
    requires Tiled(bs, lo, hi)
    ensures Tiled(Release(bs, at), lo, hi)
  {
    if bs != [] {
      ReleaseTiles(bs[1..], at, lo + bs[0].size, hi);
    }
  }

  /** Freeing takes exactly the block at that address off the allocated ones. */
  lemma {:induction false} ReleaseKeepsOthers(bs: seq<Block>, at: nat, b: Block)
    ensures Allocated(Release(bs, at), b) <==> Allocated(bs, b) && b.at != at
  {
    if bs != [] {
      ReleaseKeepsOthers(bs[1..], at, b);
      assert bs == [bs[0]] + bs[1..];
    }
  }

  lemma {:induction false} ReleaseAt(bs: seq<Block>, lo: nat, hi: nat, i: nat)
    requires Tiled(bs, lo, hi) && i < |bs|
    ensures Release(bs, bs[i].at) == bs[i := bs[i].(free := true)]
  {
    var b := bs[i].(free := true);
    if i > 0 {
      TiledApart(bs, lo, hi, 0, i);
      ReleaseAt(bs[1..], lo + bs[0].size, hi, i - 1);
      assert [bs[0]] + bs[1..][i - 1 := b] == bs[i := b];
    } else {
      TiledBounds(bs[1..], lo + bs[0].size, hi);
      ReleaseAbsent(bs[1..], bs[0].at);
      assert [b] + bs[1..] == bs[0 := b];
    }
  }

  lemma {:induction false} ReleaseAbsent(bs: seq<Block>, at: nat)
    requires forall b :: b in bs ==> b.at != at
    ensures Release(bs, at) == bs
  {
    if bs != [] {
      assert bs == [bs[0]] + bs[1..];
      ReleaseAbsent(bs[1..], at);
    }
  }

  /** The block handed out, by its position. */
  lemma {:induction false} HandedAt(bs: seq<Block>, needed: nat) returns (i: nat)
    requires Alloc(bs, needed).Granted?
    ensures var a := Alloc(bs, needed);
      && i < |a.blocks| && a.blocks[i] == Handed(bs, needed) && a.blocks[i].at == a.at && !a.blocks[i].free
      && BytesOf(a.blocks, true) + a.blocks[i].size == BytesOf(bs, true)
    decreases |bs|
  {
    var f := Front(bs);
    FrontBytes(bs);
    if Suits(f, needed) {
      i := 0;
      BytesOfConcat(Carve(f, needed), Behind(bs), true);
    } else {
      i := HandedAt(Behind(bs), needed);
      i := i + 1;
      assert ([f] + Alloc(Behind(bs), needed).blocks)[1..] == Alloc(Behind(bs), needed).blocks;
    }
  }

  lemma FrontBytes(bs: seq<Block>)
    requires bs != []
    ensures BytesOf(bs, true) == BytesOf([Front(bs)], true) + BytesOf(Behind(bs), true)
  {
    if PairAhead(bs) {
      assert bs[1..][1..] == bs[2..];
    }
  }

  lemma {:induction false} BytesOfConcat(xs: seq<Block>, ys: seq<Block>, free: bool)
    ensures BytesOf(xs + ys, free) == BytesOf(xs, free) + BytesOf(ys, free)
  {
    if xs == [] {
      assert xs + ys == ys;
    } else {
      assert (xs + ys)[1..] == xs[1..] + ys;
      BytesOfConcat(xs[1..], ys, free);
    }
  }

  /** malloc followed by free of the result leaves as many free bytes as there were, in a heap of
      at most one block more. */
  lemma AllocThenRelease(bs: seq<Block>, needed: nat, lo: nat, hi: nat)
    requires Tiled(bs, lo, hi) && Alloc(bs, needed).Granted?
    ensures var a := Alloc(bs, needed);
      BytesOf(Release(a.blocks, a.at), true) == BytesOf(bs, true) > BytesOf(a.blocks, true)
  {
    var a := Alloc(bs, needed);
    var i := HandedAt(bs, needed);
    AllocTiles(bs, needed, lo, hi);
    hide Alloc, Release, Tiled;
    TiledBounds(a.blocks, lo, hi);
    ReleaseAt(a.blocks, lo, hi, i);
    BytesOfFreed(a.blocks, i);
  }

  lemma {:induction false} BytesOfFreed(bs: seq<Block>, i: nat)
    requires i < |bs| && !bs[i].free
    ensures BytesOf(bs[i := bs[i].(free := true)], true) == BytesOf(bs, true) + bs[i].size
  {
    var cs := bs[i := bs[i].(free := true)];
    if i == 0 {
      assert cs[1..] == bs[1..];
    } else {
      BytesOfFreed(bs[1..], i - 1);
      assert cs[1..] == bs[1..][i - 1 := bs[i].(free := true)];
    }
  }

  // ---------- runs ----------

  datatype Op = Malloc(size: nat) | Free(ptr: nat)

  /** The heap and what its users hold: the size asked for, by the pointer returned. */
  datatype State = State(blocks: seq<Block>, held: map<nat, nat>)

  /** Sizes that do not wrap, and pointers that are held, or outside of the heap. */
  predicate Legal(s: State, op: Op, lo: nat, hi: nat) {
    match op
    case Malloc(size) => size + HEADER_SIZE < WORD
    case Free(ptr) => ptr in s.held || ptr < lo || ptr > hi
  }

  function Step(s: State, op: Op, lo: nat, hi: nat): State {
    match op
    case Malloc(size) =>
      (match Alloc(s.blocks, Needed(size))
       case Null(bs) => State(bs, s.held)
       case Granted(bs, at) => State(bs, s.held[at + HEADER_SIZE := size])
       case Overlaid => s)
    case Free(ptr) =>
      if ptr < lo || ptr > hi || ptr < HEADER_SIZE then s
      else State(Release(s.blocks, ptr - HEADER_SIZE), s.held - {ptr})
  }

  function Run(s: State, ops: seq<Op>, lo: nat, hi: nat): State
    decreases |ops|
  {
    if ops == [] then s else Run(Step(s, ops[0], lo, hi), ops[1..], lo, hi)
  }

  predicate LegalRun(s: State, ops: seq<Op>, lo: nat, hi: nat)
    decreases |ops|
  {
    ops == [] || (Legal(s, ops[0], lo, hi) && LegalRun(Step(s, ops[0], lo, hi), ops[1..], lo, hi))
  }

  /** p is the payload of an allocated block. */
  ghost predicate Backed(bs: seq<Block>, p: nat) {
    exists b :: Allocated(bs, b) && Payload(b) == p
  }

  ghost predicate FitsHeld(b: Block, held: map<nat, nat>) {
    var p := Payload(b);
    p in held && held[p] + HEADER_SIZE <= b.size <= held[p] + 2 * HEADER_SIZE
  }

  /** Exactly the held pointers are payloads of allocated blocks, and these are large enough. */
  ghost predicate Sound(s: State, lo: nat, hi: nat) {
    && Tiled(s.blocks, lo, hi)
    && (forall b :: Allocated(s.blocks, b) ==> FitsHeld(b, s.held))
    && (forall p :: p in s.held ==> Backed(s.blocks, p))
  }

  lemma BackedKept(bs: seq<Block>, bs': seq<Block>, p: nat)
    requires Backed(bs, p) && forall b :: Allocated(bs, b) && Payload(b) == p ==> Allocated(bs', b)
    ensures Backed(bs', p)
  {
  }

  /** One more allocated block, for one more pointer. */
  lemma GrantSound(s: State, bs: seq<Block>, g: Block, size: nat, lo: nat, hi: nat)
    requires Sound(s, lo, hi) && Tiled(bs, lo, hi)
    requires !g.free && size + HEADER_SIZE <= g.size <= size + 2 * HEADER_SIZE
    requires forall b :: Allocated(bs, b) <==> Allocated(s.blocks, b) || b == g
    ensures Sound(State(bs, s.held[Payload(g) := size]), lo, hi)
  {
    hide Tiled, Backed;
    assert Allocated(bs, g);
    var held := s.held[Payload(g) := size];
    forall p | p in held ensures Backed(bs, p) {
      if p == Payload(g) {
        NewIsBacked(bs, g);
      } else {
        BackedKept(s.blocks, bs, p);
      }
    }
    forall b | Allocated(bs, b) ensures FitsHeld(b, held) {
      if Payload(b) == Payload(g) {
        SameAddress(bs, lo, hi, b, g);
      }
    }
  }

  lemma RefusedSound(s: State, bs: seq<Block>, lo: nat, hi: nat)
    requires Sound(s, lo, hi) && Tiled(bs, lo, hi)
    requires forall b :: Allocated(bs, b) <==> Allocated(s.blocks, b)
    ensures Sound(State(bs, s.held), lo, hi)
  {
    hide Tiled, Backed;
    forall p | p in s.held ensures Backed(bs, p) {
      BackedKept(s.blocks, bs, p);
    }
  }

  lemma MallocSound(s: State, size: nat, lo: nat, hi: nat)
    requires Sound(s, lo, hi) && size + HEADER_SIZE < WORD
    ensures Sound(Step(s, Malloc(size), lo, hi), lo, hi)
  {
    var needed := Needed(size);
    assert needed == size + HEADER_SIZE;
    NeverOverlaid(s.blocks, needed);
    AllocKeepsOthers(s.blocks, needed);
    AllocTiles(s.blocks, needed, lo, hi);
    hide Alloc, Handed, Tiled, Backed, Allocated, FitsHeld, Needed, Sound;
    var a := Alloc(s.blocks, needed);
    if a.Granted? {
      GrantSound(s, a.blocks, Handed(s.blocks, needed), size, lo, hi);
    } else {
      RefusedSound(s, a.blocks, lo, hi);
    }
  }

  /** A block is handed out where a free one was. */
  lemma {:induction false} HandedWasFree(bs: seq<Block>, needed: nat) returns (b: Block)
    requires Alloc(bs, needed).Granted?
    ensures b in bs && b.free && b.at == Alloc(bs, needed).at == Handed(bs, needed).at
    decreases |bs|
  {
    b := bs[0];
    if !Suits(Front(bs), needed) {
      b := HandedWasFree(Behind(bs), needed);
    }
  }

  /** A pointer that is handed out is not one that is held. */
  lemma GrantedIsNew(s: State, needed: nat, lo: nat, hi: nat)
    requires Sound(s, lo, hi) && Alloc(s.blocks, needed).Granted?
    ensures Alloc(s.blocks, needed).at + HEADER_SIZE !in s.held
  {
    var f := HandedWasFree(s.blocks, needed);
    hide Alloc, Tiled;
    var p := f.at + HEADER_SIZE;
    if p in s.held {
      var b :| Allocated(s.blocks, b) && Payload(b) == p;
      SameAddress(s.blocks, lo, hi, b, f);
    }
  }

  /** What is held stays held, with its size, until it is freed. */
  lemma StepKeepsHeld(s: State, op: Op, lo: nat, hi: nat, p: nat)
    requires Sound(s, lo, hi) && p in s.held && op != Free(p)
    ensures var t := Step(s, op, lo, hi); p in t.held && t.held[p] == s.held[p]
  {
    match op
    case Malloc(size) =>
      if Alloc(s.blocks, Needed(size)).Granted? {
        GrantedIsNew(s, Needed(size), lo, hi);
      }
    case Free(_) =>
  }

  lemma NewIsBacked(bs: seq<Block>, g: Block)
    requires Allocated(bs, g)
    ensures Backed(bs, Payload(g))
  {
  }

  lemma FreeSound(s: State, ptr: nat, lo: nat, hi: nat)
    requires Sound(s, lo, hi) && Legal(s, Free(ptr), lo, hi)
    ensures Sound(Step(s, Free(ptr), lo, hi), lo, hi)
  {
    if lo <= ptr <= hi && ptr >= HEADER_SIZE {
      var at := ptr - HEADER_SIZE;
      ReleaseTiles(s.blocks, at, lo, hi);
      forall b ensures Allocated(Release(s.blocks, at), b) <==> Allocated(s.blocks, b) && b.at != at {
        ReleaseKeepsOthers(s.blocks, at, b);
      }
      hide Release, Tiled, Backed;
      forall p | p in s.held - {ptr} ensures Backed(Release(s.blocks, at), p) {
        BackedKept(s.blocks, Release(s.blocks, at), p);
      }
    }
  }

  /** Whatever is allocated and freed in whatever order, the heap stays whole. */
  lemma {:induction false} RunSound(s: State, ops: seq<Op>, lo: nat, hi: nat)
    requires Sound(s, lo, hi) && LegalRun(s, ops, lo, hi)
    ensures Sound(Run(s, ops, lo, hi), lo, hi)
    decreases |ops|
  {
    if ops != [] {
      match ops[0] {
        case Malloc(size) => MallocSound(s, size, lo, hi);
        case Free(ptr) => FreeSound(s, ptr, lo, hi);
      }
      RunSound(Step(s, ops[0], lo, hi), ops[1..], lo, hi);
    }
  }

  /** The memory behind held pointers is inside the heap, and that behind two of them apart, with room for a header
      between. */
  lemma HeldApart(s: State, lo: nat, hi: nat, p: nat, q: nat)
    requires Sound(s, lo, hi) && p in s.held && q in s.held && p <= q
    ensures lo + HEADER_SIZE <= p && q + s.held[q] <= hi
    ensures p < q ==> p + s.held[p] + HEADER_SIZE <= q
  {
    TiledBounds(s.blocks, lo, hi);
    var b :| Allocated(s.blocks, b) && Payload(b) == p;
    var c :| Allocated(s.blocks, c) && Payload(c) == q;
    var i :| 0 <= i < |s.blocks| && s.blocks[i] == b;
    var j :| 0 <= j < |s.blocks| && s.blocks[j] == c;
    if i < j { TiledApart(s.blocks, lo, hi, i, j); } else if j < i { TiledApart(s.blocks, lo, hi, j, i); }
  }

  /** When nothing is held, all bytes are free again. */
  lemma AllReturned(s: State, lo: nat, hi: nat)
    requires Sound(s, lo, hi) && s.held == map[]
    ensures AllFree(s.blocks) && BytesOf(s.blocks, true) == hi - lo
  {
    forall b | b in s.blocks ensures b.free {
      assert Allocated(s.blocks, b) ==> FitsHeld(b, s.held);
    }
    TiledBytes(s.blocks, lo, hi);
    NothingAllocated(s.blocks);
  }

  lemma {:induction false} NothingAllocated(bs: seq<Block>)
    requires AllFree(bs)
    ensures BytesOf(bs, false) == 0
  {
    if bs != [] {
      assert bs[0] in bs && bs == [bs[0]] + bs[1..];
      NothingAllocated(bs[1..]);
    }
  }
}

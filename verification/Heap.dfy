/** heap.cpp over the bytes of the heap: headers are read from and written to
    memory that the payloads share. */
module Heap {
  import opened Bytes
  import opened HeapSpec

  datatype Header = Header(next: int, free: bool, size: int)

  function HeaderAt(m: seq<byte>, off: nat): Header
    requires off + HEADER_SIZE <= |m|
  {
    Header(FromLE32(m[off..off + 4]), m[off + 4] % 2 == 1, FromLE32(m[off + 5..off + 9]))
  }

  function StartOf(bs: seq<Block>, end: nat): nat {
    if bs == [] then end else bs[0].at
  }

  /** The header of b in memory m, which starts at address lo. */
  predicate StoredAt(m: seq<byte>, lo: nat, b: Block, link: nat) {
    lo <= b.at && b.at - lo + HEADER_SIZE <= |m| && HeaderAt(m, b.at - lo) == Header(link, b.free, b.size)
  }

  /** The headers of the blocks are in memory, each with a link to the next one and the last to `end`. */
  predicate Chained(m: seq<byte>, lo: nat, bs: seq<Block>, end: nat) {
    bs == [] || (StoredAt(m, lo, bs[0], StartOf(bs[1..], end)) && Chained(m, lo, bs[1..], end))
  }

  /** Nothing but the bytes from lo to hi differs. */
  ghost predicate OnlyWithin(m: seq<byte>, m': seq<byte>, lo: int, hi: int) {
    |m'| == |m| && forall k :: 0 <= k < |m| && !(lo <= k < hi) ==> m'[k] == m[k]
  }

  lemma HeaderKept(m: seq<byte>, m': seq<byte>, lo: int, hi: int, off: nat)
    requires OnlyWithin(m, m', lo, hi) && off + HEADER_SIZE <= |m| && (off + HEADER_SIZE <= lo || hi <= off)
    ensures HeaderAt(m', off) == HeaderAt(m, off)
  {
    assert m'[off..off + 4] == m[off..off + 4] && m'[off + 5..off + 9] == m[off + 5..off + 9];
  }

  /** No byte of an allocated block differs. */
  ghost predicate LiveKept(m: seq<byte>, m': seq<byte>, lo: nat, bs: seq<Block>) {
    && |m'| == |m|
    && forall b, k :: Allocated(bs, b) && b.at <= lo + k < b.at + b.size && 0 <= k < |m| ==> m'[k] == m[k]
  }

  lemma {:induction false} ChainedSplit(m: seq<byte>, lo: nat, xs: seq<Block>, ys: seq<Block>, end: nat)
    ensures Chained(m, lo, xs + ys, end) <==> Chained(m, lo, xs, StartOf(ys, end)) && Chained(m, lo, ys, end)
  {
    if xs == [] {
      assert xs + ys == ys;
    } else {
      assert (xs + ys)[1..] == xs[1..] + ys;
      ChainedSplit(m, lo, xs[1..], ys, end);
    }
  }

  lemma {:induction false} ChainedKept(m: seq<byte>, m': seq<byte>, lo: nat, bs: seq<Block>, a: nat, b: nat, end: nat,
                                       from: int, to: int)
    requires Chained(m, lo, bs, end) && Tiled(bs, a, b) && OnlyWithin(m, m', from, to) && lo <= a && b - lo <= |m|
    requires to <= a - lo || b - lo <= from
    ensures Chained(m', lo, bs, end)
  {
    if bs != [] {
      TiledBounds(bs[1..], a + bs[0].size, b);
      HeaderKept(m, m', from, to, a - lo);
      ChainedKept(m, m', lo, bs[1..], a + bs[0].size, b, end, from, to);
    }
  }

  /** Other blocks take the place of `mid`, and nothing is written elsewhere. */
  lemma Respliced(m: seq<byte>, m': seq<byte>, lo: nat, hi: nat, pre: seq<Block>, mid: seq<Block>, mid': seq<Block>,
                  post: seq<Block>)
    requires Tiled(pre + mid + post, lo, hi) && Chained(m, lo, pre + mid + post, 0) && |m| == hi - lo
    requires mid != [] && mid' != []
    requires Tiled(mid', mid[0].at, StartOf(post, hi)) && Chained(m', lo, mid', StartOf(post, 0))
    requires OnlyWithin(m, m', mid[0].at - lo, StartOf(post, hi) - lo)
    ensures Tiled(pre + mid' + post, lo, hi) && Chained(m', lo, pre + mid' + post, 0)
  {
    var a, b := mid[0].at, StartOf(post, hi);
    TiledSplit(pre + mid, post, lo, hi);
    TiledSplit(pre, mid, lo, b);
    ChainedSplit(m, lo, pre + mid, post, 0);
    ChainedSplit(m, lo, pre, mid, StartOf(post, 0));
    ChainedKept(m, m', lo, pre, lo, a, a, a - lo, b - lo);
    ChainedKept(m, m', lo, post, b, hi, 0, a - lo, b - lo);
    ChainedSplit(m', lo, pre, mid', StartOf(post, 0));
    ChainedSplit(m', lo, pre + mid', post, 0);
    TiledJoin(pre, mid', lo, a, b);
    TiledJoin(pre + mid', post, lo, b, hi);
    assert StartOf(mid', StartOf(post, 0)) == a;
  }

  /** Writing inside a free block leaves the allocated ones alone. */
  lemma FreeBlockWritten(m: seq<byte>, m': seq<byte>, lo: nat, hi: nat, bs: seq<Block>, i: nat)
    requires Tiled(bs, lo, hi) && |m| == hi - lo && i < |bs| && bs[i].free
    requires OnlyWithin(m, m', bs[i].at - lo, bs[i].at - lo + bs[i].size)
    ensures LiveKept(m, m', lo, bs)
  {
    forall b, k | Allocated(bs, b) && b.at <= lo + k < b.at + b.size && 0 <= k < |m| ensures m'[k] == m[k] {
      var j :| 0 <= j < |bs| && bs[j] == b;
      if j < i { TiledApart(bs, lo, hi, j, i); } else { TiledApart(bs, lo, hi, i, j); }
    }
  }

  /** The first block of `rest` takes in its free neighbour: only its header is written. */
  lemma Merged(m: seq<byte>, m': seq<byte>, lo: nat, hi: nat, pre: seq<Block>, rest: seq<Block>)
    requires Tiled(pre + rest, lo, hi) && Chained(m, lo, pre + rest, 0) && |m| == hi - lo && PairAhead(rest)
    requires OnlyWithin(m, m', rest[0].at - lo, rest[0].at - lo + HEADER_SIZE)
    requires StoredAt(m', lo, Front(rest), StartOf(rest[2..], 0))
    ensures Tiled(pre + [Front(rest)] + rest[2..], lo, hi) && Chained(m', lo, pre + [Front(rest)] + rest[2..], 0)
    ensures LiveKept(m, m', lo, pre + rest)
  {
    var b, post := Front(rest), rest[2..];
    TiledSplit(pre, rest, lo, hi);
    FrontTiles(rest, b.at, hi);
    TiledBounds(post, b.at + b.size, hi);
    assert pre + rest == pre + rest[..2] + post && [b][1..] == [];
    assert StartOf(post, hi) == b.at + b.size;
    Respliced(m, m', lo, hi, pre, rest[..2], [b], post);
    FreeBlockWritten(m, m', lo, hi, pre + rest, |pre|);
  }

  /** The block b is handed out, or the front part of it: only its own bytes are written. */
  lemma Granting(m: seq<byte>, m': seq<byte>, lo: nat, hi: nat, pre: seq<Block>, b: Block, post: seq<Block>,
                 needed: nat)
    requires Tiled(pre + [b] + post, lo, hi) && Chained(m, lo, pre + [b] + post, 0) && |m| == hi - lo
    requires Suits(b, needed) && !Overlays(b, needed) && HEADER_SIZE <= b.size
    requires OnlyWithin(m, m', b.at - lo, b.at - lo + b.size) && Chained(m', lo, Carve(b, needed), StartOf(post, 0))
    ensures Carve(b, needed) != []
    ensures Tiled(pre + Carve(b, needed) + post, lo, hi) && Chained(m', lo, pre + Carve(b, needed) + post, 0)
    ensures LiveKept(m, m', lo, pre + [b] + post)
  {
    hide Chained, Tiled, OnlyWithin;
    var bs := pre + [b] + post;
    assert bs[|pre|] == b;
    FreeBlockWritten(m, m', lo, hi, bs, |pre|);
    SpanOf(pre, b, post, lo, hi);
    CarveTiles(b, needed);
    Respliced(m, m', lo, hi, pre, [b], Carve(b, needed), post);
  }

  lemma CarveTiles(b: Block, needed: nat)
    requires needed <= b.size && !Overlays(b, needed) && HEADER_SIZE <= b.size
    ensures Tiled(Carve(b, needed), b.at, b.at + b.size) && Carve(b, needed) != []
  {
  }

  lemma Marked(m: seq<byte>, lo: nat, b: Block, link: nat, needed: nat)
    requires lo <= b.at && b.at - lo + b.size <= |m|
    requires needed <= b.size && !Overlays(b, needed) && HEADER_SIZE <= b.size
    requires b.size <= needed + HEADER_SIZE ==> HeaderAt(m, b.at - lo) == Header(link, false, b.size)
    requires b.size > needed + HEADER_SIZE ==>
      && HeaderAt(m, b.at - lo) == Header(b.at + needed, false, needed)
      && HeaderAt(m, b.at - lo + needed) == Header(link, true, b.size - needed)
    ensures Chained(m, lo, Carve(b, needed), link)
  {
    hide HeaderAt;
    var c := Carve(b, needed);
    if b.size > needed + HEADER_SIZE {
      assert c[1..] == [c[1]] && c[1..][1..] == [];
      assert c[1].at - lo == b.at - lo + needed;
      assert Chained(m, lo, c[1..], link);
    } else {
      assert c[1..] == [];
    }
  }

  lemma FindPayload(m: seq<byte>, lo: nat, hi: nat, bs: seq<Block>, ptr: nat) returns (i: nat)
    requires Tiled(bs, lo, hi) && Chained(m, lo, bs, 0) && |m| == hi - lo
    requires exists b :: b in bs && Payload(b) == ptr
    ensures i < |bs| && Payload(bs[i]) == ptr && lo + HEADER_SIZE <= ptr <= hi
    ensures HeaderAt(m, bs[i].at - lo) == Header(StartOf(bs[i + 1..], 0), bs[i].free, bs[i].size)
  {
    hide Tiled, Chained, HeaderAt;
    var b :| b in bs && Payload(b) == ptr;
    i :| 0 <= i < |bs| && bs[i] == b;
    assert bs == bs[..i] + [b] + bs[i + 1..];
    GrantRoom(m, lo, hi, bs[..i], b, bs[i + 1..]);
  }

  /** Block i is marked as free: only its header is written. */
  lemma Freed(m: seq<byte>, m': seq<byte>, lo: nat, hi: nat, bs: seq<Block>, i: nat)
    requires Tiled(bs, lo, hi) && Chained(m, lo, bs, 0) && |m| == hi - lo && i < |bs| && lo <= bs[i].at
    requires bs[i].at - lo + HEADER_SIZE <= |m'| && OnlyWithin(m, m', bs[i].at - lo, bs[i].at - lo + HEADER_SIZE)
    requires HeaderAt(m', bs[i].at - lo) == Header(StartOf(bs[i + 1..], 0), true, bs[i].size)
    ensures Tiled(Release(bs, bs[i].at), lo, hi) && Chained(m', lo, Release(bs, bs[i].at), 0)
  {
    hide Tiled, Chained, HeaderAt, OnlyWithin, StoredAt, StartOf;
    var pre, b, post := bs[..i], bs[i], bs[i + 1..];
    var c := b.(free := true);
    assert bs == pre + [b] + post;
    FreedBetween(m, m', lo, hi, pre, b, post);
    ReleaseAt(bs, lo, hi, i);
    assert bs[i := c] == pre + [c] + post;
  }

  lemma FreedBetween(m: seq<byte>, m': seq<byte>, lo: nat, hi: nat, pre: seq<Block>, b: Block, post: seq<Block>)
    requires Tiled(pre + [b] + post, lo, hi) && Chained(m, lo, pre + [b] + post, 0) && |m| == hi - lo && lo <= b.at
    requires b.at - lo + HEADER_SIZE <= |m'| && OnlyWithin(m, m', b.at - lo, b.at - lo + HEADER_SIZE)
    requires HeaderAt(m', b.at - lo) == Header(StartOf(post, 0), true, b.size)
    ensures var c := b.(free := true); Tiled(pre + [c] + post, lo, hi) && Chained(m', lo, pre + [c] + post, 0)
  {
    hide Tiled, Chained, HeaderAt;
    SpanOf(pre, b, post, lo, hi);
    GrantRoom(m, lo, hi, pre, b, post);
    Single(m', lo, b.(free := true), StartOf(post, 0));
    Respliced(m, m', lo, hi, pre, [b], [b.(free := true)], post);
  }

  lemma Single(m: seq<byte>, lo: nat, b: Block, link: nat)
    requires StoredAt(m, lo, b, link) && b.size >= HEADER_SIZE
    ensures Tiled([b], b.at, b.at + b.size) && Chained(m, lo, [b], link)
  {
    assert [b][1..] == [];
  }

  lemma SpanOf(pre: seq<Block>, b: Block, post: seq<Block>, lo: nat, hi: nat)
    requires Tiled(pre + [b] + post, lo, hi)
    ensures StartOf(post, hi) == b.at + b.size <= hi && lo <= b.at
  {
    assert pre + [b] + post == pre + ([b] + post);
    TiledSplit(pre, [b] + post, lo, hi);
    assert ([b] + post)[1..] == post;
    TiledBounds(post, b.at + b.size, hi);
  }

  lemma GrantRoom(m: seq<byte>, lo: nat, hi: nat, pre: seq<Block>, b: Block, post: seq<Block>)
    requires Tiled(pre + [b] + post, lo, hi) && Chained(m, lo, pre + [b] + post, 0) && |m| == hi - lo
    ensures lo <= b.at && HEADER_SIZE <= b.size && b.at + b.size <= hi && StartOf(post, 0) < hi
    ensures StoredAt(m, lo, b, StartOf(post, 0))
  {
    assert pre + [b] + post == pre + ([b] + post) && ([b] + post)[1..] == post;
    RestOf(m, lo, hi, pre, [b] + post);
    TiledBounds(post, b.at + b.size, hi);
  }

  /** What the headers of the first two blocks say. */
  predicate FirstStored(m: seq<byte>, lo: nat, rest: seq<Block>) {
    && rest != [] && StoredAt(m, lo, rest[0], StartOf(rest[1..], 0))
    && (|rest| >= 2 ==> lo < rest[1].at && StoredAt(m, lo, rest[1], StartOf(rest[2..], 0)))
  }

  predicate FirstWithin(lo: nat, hi: nat, rest: seq<Block>) {
    && rest != [] && lo <= rest[0].at && HEADER_SIZE <= rest[0].size
    && rest[0].at + Front(rest).size <= hi && StartOf(rest[1..], 0) < hi
    && lo <= StartOf(Behind(rest), lo) && StartOf(Behind(rest), 0) < hi
  }

  lemma RestOf(m: seq<byte>, lo: nat, hi: nat, pre: seq<Block>, rest: seq<Block>)
    requires Tiled(pre + rest, lo, hi) && Chained(m, lo, pre + rest, 0) && rest != []
    ensures Tiled(rest, rest[0].at, hi) && lo <= rest[0].at && Chained(m, lo, rest, 0)
  {
    TiledSplit(pre, rest, lo, hi);
    ChainedSplit(m, lo, pre, rest, 0);
  }

  lemma FirstOf(m: seq<byte>, lo: nat, hi: nat, pre: seq<Block>, rest: seq<Block>)
    requires Tiled(pre + rest, lo, hi) && Chained(m, lo, pre + rest, 0) && |m| == hi - lo && rest != []
    ensures FirstStored(m, lo, rest) && FirstWithin(lo, hi, rest)
  {
    hide Tiled, Chained, HeaderAt, FirstWithin;
    RestOf(m, lo, hi, pre, rest);
    SecondOf(m, lo, hi, rest);
    WithinOf(lo, hi, rest);
  }

  lemma PairOf(m: seq<byte>, lo: nat, hi: nat, pre: seq<Block>, rest: seq<Block>)
    requires Tiled(pre + rest, lo, hi) && Chained(m, lo, pre + rest, 0) && |m| == hi - lo && PairAhead(rest)
    ensures lo <= rest[0].at && rest[0].at + Front(rest).size <= hi && StartOf(rest[2..], 0) < hi
    ensures Front(rest) == Block(rest[0].at, rest[0].size + rest[1].size, true) && HEADER_SIZE <= rest[0].size
    ensures StoredAt(m, lo, rest[0], StartOf(rest[1..], 0))
  {
    hide Tiled, Chained, HeaderAt;
    FirstOf(m, lo, hi, pre, rest);
  }

  lemma NextOf(m: seq<byte>, lo: nat, hi: nat, pre: seq<Block>, rest: seq<Block>)
    requires Tiled(pre + rest, lo, hi) && Chained(m, lo, pre + rest, 0) && |m| == hi - lo && rest != []
    ensures StoredAt(m, lo, rest[0], StartOf(rest[1..], 0)) && lo <= StartOf(rest[1..], lo)
    ensures pre + [rest[0]] + rest[1..] == pre + rest
  {
    hide Tiled, Chained, HeaderAt;
    RestOf(m, lo, hi, pre, rest);
    SecondOf(m, lo, hi, rest);
    StartBounds(rest[1..], rest[0].at + rest[0].size, hi);
  }

  lemma WithinOf(lo: nat, hi: nat, rest: seq<Block>)
    requires rest != [] && Tiled(rest, rest[0].at, hi) && lo <= rest[0].at
    ensures FirstWithin(lo, hi, rest)
  {
    FrontTiles(rest, rest[0].at, hi);
    StartBounds(rest[1..], rest[0].at + rest[0].size, hi);
    StartBounds(Behind(rest), rest[0].at + Front(rest).size, hi);
  }

  lemma StartBounds(bs: seq<Block>, lo: nat, hi: nat)
    requires Tiled(bs, lo, hi)
    ensures StartOf(bs, hi) == lo <= hi && (bs != [] ==> lo < hi)
  {
    TiledBounds(bs, lo, hi);
  }

  lemma SecondOf(m: seq<byte>, lo: nat, hi: nat, rest: seq<Block>)
    requires rest != [] && Tiled(rest, rest[0].at, hi) && Chained(m, lo, rest, 0)
    ensures rest[0].size >= HEADER_SIZE && Tiled(rest[1..], rest[0].at + rest[0].size, hi)
    ensures StoredAt(m, lo, rest[0], StartOf(rest[1..], 0))
    ensures |rest| >= 2 ==> rest[1].at == rest[0].at + rest[0].size && StoredAt(m, lo, rest[1], StartOf(rest[2..], 0))
  {
    if |rest| >= 2 {
      assert rest[1..][1..] == rest[2..];
    }
  }

  lemma LiveKeptOn(m: seq<byte>, m1: seq<byte>, m2: seq<byte>, lo: nat, bs: seq<Block>, bs1: seq<Block>)
    requires LiveKept(m, m1, lo, bs) && LiveKept(m1, m2, lo, bs1)
    requires forall b :: Allocated(bs, b) ==> Allocated(bs1, b)
    ensures LiveKept(m, m2, lo, bs)
  {
  }

  /** One round of the scan, as the specification has it. */
  lemma AllocStep(bs: seq<Block>, pre: seq<Block>, rest: seq<Block>, needed: nat)
    requires rest != [] && Prefixed(pre, Alloc(rest, needed)) == Alloc(bs, needed)
    ensures var f := Front(rest);
      if !Suits(f, needed) then Prefixed(pre + [f], Alloc(Behind(rest), needed)) == Alloc(bs, needed)
      else if Overlays(f, needed) then Alloc(bs, needed) == Overlaid
      else Alloc(bs, needed) == Granted(pre + Carve(f, needed) + Behind(rest), f.at)
  {
    var f, a := Front(rest), Alloc(Behind(rest), needed);
    if !Suits(f, needed) {
      if !a.Overlaid? {
        Reassociate(pre, [f], a.blocks);
      }
    } else if !Overlays(f, needed) {
      Reassociate(pre, Carve(f, needed), Behind(rest));
    }
  }

  lemma Reassociate(a: seq<Block>, b: seq<Block>, c: seq<Block>)
    ensures a + b + c == a + (b + c)
  {
  }

  lemma NextBytes(bs: seq<Block>)
    ensures BytesOf(bs, true) == if bs == [] then 0 else (if bs[0].free then bs[0].size else 0) + BytesOf(bs[1..], true)
  {
  }

  lemma FrontKeepsAll(pre: seq<Block>, rest: seq<Block>)
    requires rest != []
    ensures forall b :: Allocated(pre + rest, b) ==> Allocated(pre + [Front(rest)] + Behind(rest), b)
  {
    forall b | Allocated(pre + rest, b) ensures Allocated(pre + [Front(rest)] + Behind(rest), b) {
      FrontKeeps(rest, b);
    }
  }

  /** The bytes behind a held pointer are the same. */
  ghost predicate PayloadKept(m: seq<byte>, m': seq<byte>, lo: nat, p: nat, size: nat) {
    |m'| == |m| && forall k :: 0 <= k < |m| && p <= lo + k < p + size ==> m'[k] == m[k]
  }

  lemma MallocKeepsPayload(m: seq<byte>, m': seq<byte>, lo: nat, hi: nat, s: State, p: nat)
    requires Sound(s, lo, hi) && LiveKept(m, m', lo, s.blocks) && p in s.held
    ensures PayloadKept(m, m', lo, p, s.held[p])
  {
    var b :| Allocated(s.blocks, b) && Payload(b) == p;
  }

  lemma PayloadSame(m: seq<byte>, lo: nat, p: nat, size: nat)
    ensures PayloadKept(m, m, lo, p, size)
  {
  }

  lemma HeldIsPayload(s: State, lo: nat, hi: nat, p: nat)
    requires Sound(s, lo, hi)
    ensures p in s.held ==> exists b :: b in s.blocks && Payload(b) == p
  {
    if p in s.held {
      var b :| Allocated(s.blocks, b) && Payload(b) == p;
    }
  }

  lemma FreeKeepsPayload(m: seq<byte>, m': seq<byte>, lo: nat, hi: nat, s: State, ptr: nat, p: nat)
    requires Sound(s, lo, hi) && ptr in s.held && p in s.held
    requires OnlyWithin(m, m', ptr - HEADER_SIZE - lo, ptr - lo)
    ensures PayloadKept(m, m', lo, p, s.held[p])
  {
    if p < ptr {
      HeldApart(s, lo, hi, p, ptr);
    }
  }

  class Heap {
    const addr: nat
    const mem: array<byte>
    /** The blocks in the order of their addresses. */
    ghost var blocks: seq<Block>
    /** A header has been laid over another: nothing more can be said. */
    var corrupted: bool

    ghost function End(): nat { addr + mem.Length }

    ghost predicate Valid()
      reads this, mem
    {
      && HEADER_SIZE <= addr && addr + mem.Length < WORD && !corrupted
      && blocks != [] && Tiled(blocks, addr, End())
      && Chained(mem[..], addr, blocks, 0)
    }

    // ---------- the fields of a header ----------

    method Put32(off: nat, v: nat)
      requires off + 4 <= mem.Length && v < WORD
      modifies mem
      ensures mem[off..off + 4] == LE32(v) && OnlyWithin(old(mem[..]), mem[..], off, off + 4)
    {
      var b := LE32(v);
      mem[off], mem[off + 1], mem[off + 2], mem[off + 3] := b[0], b[1], b[2], b[3];
    }

    method SetNext(off: nat, v: nat)
      requires off + HEADER_SIZE <= mem.Length && v < WORD
      modifies mem
      ensures HeaderAt(mem[..], off) == HeaderAt(old(mem[..]), off).(next := v)
      ensures OnlyWithin(old(mem[..]), mem[..], off, off + HEADER_SIZE)
    {
      ghost var m := mem[..];
      Put32(off, v);
      assert mem[..][off + 5..off + 9] == m[off + 5..off + 9] && mem[..][off + 4] == m[off + 4];
      assert mem[..][off..off + 4] == mem[off..off + 4];
      LE32RoundTrip(v);
    }

    method SetSize(off: nat, v: nat)
      requires off + HEADER_SIZE <= mem.Length && v < WORD
      modifies mem
      ensures HeaderAt(mem[..], off) == HeaderAt(old(mem[..]), off).(size := v)
      ensures OnlyWithin(old(mem[..]), mem[..], off, off + HEADER_SIZE)
    {
      ghost var m := mem[..];
      Put32(off + 5, v);
      assert mem[..][off..off + 4] == m[off..off + 4] && mem[..][off + 4] == m[off + 4];
      assert mem[..][off + 5..off + 9] == mem[off + 5..off + 9];
      LE32RoundTrip(v);
    }

    method SetSizeAndNext(off: nat, size: nat, next: nat)
      requires off + HEADER_SIZE <= mem.Length && size < WORD && next < WORD
      modifies mem
      ensures HeaderAt(mem[..], off) == Header(next, HeaderAt(old(mem[..]), off).free, size)
      ensures OnlyWithin(old(mem[..]), mem[..], off, off + HEADER_SIZE)
    {
      SetSize(off, size);
      SetNext(off, next);
    }

    /** A one-bit field: the other bits of its byte stay. */
    method SetFree(off: nat, free: bool)
      requires off + HEADER_SIZE <= mem.Length
      modifies mem
      ensures HeaderAt(mem[..], off) == HeaderAt(old(mem[..]), off).(free := free)
      ensures OnlyWithin(old(mem[..]), mem[..], off, off + HEADER_SIZE)
    {
      ghost var m := mem[..];
      mem[off + 4] := mem[off + 4] / 2 * 2 + if free then 1 else 0;
      assert mem[..][off..off + 4] == m[off..off + 4] && mem[..][off + 5..off + 9] == m[off + 5..off + 9];
    }

    method GetHeader(off: nat) returns (h: Header)
      requires off + HEADER_SIZE <= mem.Length
      ensures h == HeaderAt(mem[..], off)
    {
      h := Header(FromLE32(mem[off..off + 4]), mem[off + 4] % 2 == 1, FromLE32(mem[off + 5..off + 9]));
      assert mem[..][off..off + 4] == mem[off..off + 4] && mem[..][off + 5..off + 9] == mem[off + 5..off + 9];
    }

    // ---------- heap_init ----------

    constructor Init(addr: nat, size: nat)
      requires HEADER_SIZE <= addr && HEADER_SIZE <= size && addr + size < WORD
      ensures Valid() && this.addr == addr && mem.Length == size && fresh(mem)
      ensures blocks == [Block(addr, size, true)]
    {
      this.addr := addr;
      mem := new byte[size];
      blocks := [Block(addr, size, true)];
      corrupted := false;
      new;
      SetSize(0, size);
      SetNext(0, 0);
      SetFree(0, true);
      assert blocks[1..] == [];
    }

    // ---------- heap_malloc ----------

    /** The block behind `pre` takes in its free neighbour. */
    method Merge(ghost pre: seq<Block>, ghost rest: seq<Block>, off: nat, h: Header, n: Header)
      requires Valid() && blocks == pre + rest && PairAhead(rest) && off == rest[0].at - addr
      requires h.size == rest[0].size && n.size == rest[1].size && n.next == StartOf(rest[2..], 0)
      modifies mem, this`blocks
      ensures Valid() && blocks == pre + [Front(rest)] + rest[2..]
      ensures LiveKept(old(mem[..]), mem[..], addr, old(blocks))
    {
      hide Tiled, Chained, HeaderAt, OnlyWithin, LiveKept, Front;
      ghost var m, f, post := mem[..], Front(rest), rest[2..];
      assert |m| == mem.Length;
      PairOf(m, addr, End(), pre, rest);
      SetSizeAndNext(off, h.size + n.size, n.next);
      ghost var m' := mem[..];
      assert StoredAt(m', addr, f, StartOf(post, 0));
      Merged(m, m', addr, End(), pre, rest);
      blocks := pre + [f] + post;
    }

    /** The block behind `pre` is cut, if it is large enough for that, and marked. */
    method Grant(ghost pre: seq<Block>, ghost b: Block, ghost post: seq<Block>, off: nat, h: Header, needed: nat)
      requires Valid() && blocks == pre + [b] + post && off == b.at - addr
      requires Suits(b, needed) && !Overlays(b, needed) && h == Header(StartOf(post, 0), true, b.size)
      modifies mem, this`blocks
      ensures Valid() && blocks == pre + Carve(b, needed) + post
      ensures LiveKept(old(mem[..]), mem[..], addr, old(blocks))
    {
      hide Tiled, Chained, HeaderAt, OnlyWithin, LiveKept, Carve;
      ghost var m := mem[..];
      assert |m| == mem.Length;
      GrantRoom(m, addr, End(), pre, b, post);
      CarveAndMark(off, h, needed);
      ghost var m' := mem[..];
      Marked(m', addr, b, StartOf(post, 0), needed);
      Granting(m, m', addr, End(), pre, b, post, needed);
      blocks := pre + Carve(b, needed) + post;
    }

    /** The two headers of a block that is cut, or the one of a block that is not. */
    method CarveAndMark(off: nat, h: Header, needed: nat)
      requires HEADER_SIZE <= h.size && off + h.size <= mem.Length && addr + mem.Length < WORD
      requires h == HeaderAt(mem[..], off) && 0 <= h.next < WORD && needed <= h.size
      requires needed < HEADER_SIZE ==> h.size <= needed + HEADER_SIZE
      modifies mem
      ensures h.size <= needed + HEADER_SIZE ==> HeaderAt(mem[..], off) == h.(free := false)
      ensures h.size > needed + HEADER_SIZE ==>
        && HeaderAt(mem[..], off) == Header(addr + off + needed, false, needed)
        && HeaderAt(mem[..], off + needed) == Header(h.next, true, h.size - needed)
      ensures OnlyWithin(old(mem[..]), mem[..], off, off + h.size)
    {
      if h.size > needed + HEADER_SIZE {
        SplitOff(off, off + needed, h);
      }
      ghost var m1 := mem[..];
      SetFree(off, false);
      ghost var m2 := mem[..];
      if h.size > needed + HEADER_SIZE {
        HeaderKept(m1, m2, off, off + HEADER_SIZE, off + needed);
      }
    }

    /** A second header, for what is left of the block. */
    method SplitOff(off: nat, at: nat, h: Header)
      requires off + HEADER_SIZE <= at && at + HEADER_SIZE <= mem.Length && addr + at < WORD
      requires 0 <= h.next < WORD && at - off < h.size < WORD
      modifies mem
      ensures HeaderAt(mem[..], off) == Header(addr + at, HeaderAt(old(mem[..]), off).free, at - off)
      ensures HeaderAt(mem[..], at) == Header(h.next, true, h.size - (at - off))
      ensures OnlyWithin(old(mem[..]), mem[..], off, at + HEADER_SIZE)
    {
      ghost var m := mem[..];
      SetFree(at, true);
      SetSizeAndNext(at, h.size - (at - off), h.next);
      ghost var m1 := mem[..];
      HeaderKept(m, m1, at, at + HEADER_SIZE, off);
      SetSizeAndNext(off, at - off, addr + at);
      ghost var m2 := mem[..];
      HeaderKept(m1, m2, off, off + HEADER_SIZE, at);
    }

    /** The look at one block: it takes in the next one if both are free. */
    method MergeAhead(ghost pre: seq<Block>, ghost rest: seq<Block>, off: nat) returns (h: Header)
      requires Valid() && blocks == pre + rest && rest != [] && off == rest[0].at - addr
      modifies mem, this`blocks
      ensures Valid() && blocks == pre + [Front(rest)] + Behind(rest)
      ensures h == Header(StartOf(Behind(rest), 0), Front(rest).free, Front(rest).size)
      ensures addr <= StartOf(Behind(rest), addr)
      ensures LiveKept(old(mem[..]), mem[..], addr, old(blocks))
    {
      hide Tiled, Chained, HeaderAt, OnlyWithin;
      ghost var m := mem[..];
      FirstOf(m, addr, End(), pre, rest);
      assert |m| == mem.Length;
      assert PairAhead(rest) <==> rest[0].free && |rest| >= 2 && rest[1].free;
      h := GetHeader(off);
      if h.free && h.next != 0 {
        var n := GetHeader(h.next - addr);
        if n.free {
          Merge(pre, rest, off, h, n);
          h := Header(n.next, true, h.size + n.size);
          return;
        }
      }
      assert !PairAhead(rest) && pre + [Front(rest)] + Behind(rest) == pre + rest;
    }

    /** The scan of bs has dealt with `pre`, and what is left to do decides the answer. */
    ghost predicate Scanning(m0: seq<byte>, bs: seq<Block>, pre: seq<Block>, rest: seq<Block>, block: nat, needed: nat)
      reads this, mem
    {
      && Valid() && blocks == pre + rest && block == StartOf(rest, 0) && addr <= StartOf(rest, addr)
      && Prefixed(pre, Alloc(rest, needed)) == Alloc(bs, needed)
      && LiveKept(m0, mem[..], addr, bs)
      && forall b :: Allocated(bs, b) ==> Allocated(blocks, b)
    }

    ghost predicate Answered(a: Answer, ptr: nat)
      reads this, mem
    {
      match a
      case Null(bs) => Valid() && blocks == bs && ptr == 0
      case Granted(bs, at) => Valid() && blocks == bs && ptr == at + HEADER_SIZE
      case Overlaid => corrupted
    }

    /** One round of the scan: the block is handed out, or it is passed by. */
    method Examine(ghost m0: seq<byte>, ghost bs: seq<Block>, ghost pre: seq<Block>, ghost rest: seq<Block>,
                   block: nat, needed: nat)
      returns (found: bool, next: nat)
      requires Scanning(m0, bs, pre, rest, block, needed) && block != 0
      modifies this, mem
      ensures found ==>
        Answered(Alloc(bs, needed), block + HEADER_SIZE) && (corrupted || LiveKept(m0, mem[..], addr, bs))
      ensures !found ==> Scanning(m0, bs, pre + [Front(rest)], Behind(rest), next, needed)
    {
      var off := block - addr;
      ghost var m1, f, behind := mem[..], Front(rest), Behind(rest);
      AllocStep(bs, pre, rest, needed);
      FrontKeepsAll(pre, rest);
      hide Tiled, Chained, LiveKept, Alloc, Prefixed, Carve, Allocated, Front, Behind;
      var h := MergeAhead(pre, rest, off);
      ghost var m2 := mem[..];
      LiveKeptOn(m0, m1, m2, addr, bs, pre + rest);
      next := h.next;
      found := h.free && h.size >= needed;
      if found {
        if needed < HEADER_SIZE && h.size > needed + HEADER_SIZE {
          corrupted := true;
          return;
        }
        Grant(pre, f, behind, off, h, needed);
        ghost var m3 := mem[..];
        LiveKeptOn(m0, m2, m3, addr, bs, pre + [f] + behind);
      }
    }

    /** heap_malloc: the pointer to the payload of the first block that fits, or NULL. */
    method Malloc(size: nat) returns (ptr: nat)
      requires Valid() && size < WORD
      modifies this, mem
      ensures Answered(Alloc(old(blocks), Needed(size)), ptr)
      ensures !corrupted ==> (ptr == 0 <==> NoneServes(old(blocks), Needed(size)))
      ensures !corrupted ==> LiveKept(old(mem[..]), mem[..], addr, old(blocks))
    {
      hide NoneServes;
      NullOnBlocks(blocks, Needed(size));
      var block: nat, needed := addr, (size + HEADER_SIZE) % WORD;
      ghost var pre, rest, bs := [], blocks, blocks;
      ghost var m0 := mem[..];
      assert Scanning(m0, bs, pre, rest, block, needed);
      while block != 0
        invariant Scanning(m0, bs, pre, rest, block, needed)
        decreases |rest|
      {
        var found, next := Examine(m0, bs, pre, rest, block, needed);
        if found {
          return block + HEADER_SIZE;
        }
        pre, rest := pre + [Front(rest)], Behind(rest);
        block := next;
      }
      assert rest == [] && pre + [] == pre;
      return 0;
    }

    // ---------- heap_free and the number of free bytes ----------

    /** heap_free of a pointer that malloc returned, freed already or not, or of one outside of the heap. */
    method Free(ptr: nat)
      requires Valid()
      requires ptr < addr || ptr > End() || exists b :: b in blocks && Payload(b) == ptr
      modifies this`blocks, mem
      ensures Valid()
      ensures addr <= ptr <= End() ==>
        && ptr >= HEADER_SIZE && blocks == Release(old(blocks), ptr - HEADER_SIZE)
        && OnlyWithin(old(mem[..]), mem[..], ptr - HEADER_SIZE - addr, ptr - addr)
      ensures !(addr <= ptr <= End()) ==> blocks == old(blocks) && mem[..] == old(mem[..])
    {
      if ptr < addr || ptr > addr + mem.Length {
        return;
      }
      ghost var m, bs := mem[..], blocks;
      assert |m| == mem.Length;
      hide Tiled, Chained, HeaderAt, OnlyWithin, Release;
      ghost var i := FindPayload(m, addr, End(), bs, ptr);
      SetFree(ptr - HEADER_SIZE - addr, true);
      ghost var m' := mem[..];
      Freed(m, m', addr, End(), bs, i);
      blocks := Release(bs, ptr - HEADER_SIZE);
    }

    /** The sum over the free blocks, as get_kernel_heap_size computes it. */
    method FreeSize() returns (size: nat)
      requires Valid()
      ensures size == BytesOf(blocks, true) && size <= mem.Length
    {
      size := 0;
      var block: nat := addr;
      ghost var pre, rest, bs, m := [], blocks, blocks, mem[..];
      ghost var lo, hi := addr, End();
      TiledBytes(bs, lo, hi);
      hide Tiled, Chained, HeaderAt, BytesOf;
      while block != 0
        invariant bs == pre + rest && block == StartOf(rest, 0) && lo <= StartOf(rest, lo)
        invariant size + BytesOf(rest, true) == BytesOf(bs, true)
        decreases |rest|
      {
        NextOf(m, lo, hi, pre, rest);
        NextBytes(rest);
        var h := GetHeader(block - addr);
        if h.free {
          size := size + h.size;
        }
        pre, rest := pre + [rest[0]], rest[1..];
        block := h.next;
      }
      NextBytes(rest);
    }

    // ---------- runs ----------

    /** One call of malloc or free. */
    method Do(op: Op, ghost s: State)
      requires Valid() && Sound(s, addr, End()) && s.blocks == blocks && Legal(s, op, addr, End())
      modifies this, mem
      ensures Valid() && Sound(Step(s, op, addr, End()), addr, End()) && blocks == Step(s, op, addr, End()).blocks
      ensures forall p :: p in s.held ==> PayloadKept(old(mem[..]), mem[..], addr, p, s.held[p])
    {
      hide Tiled, Chained, PayloadKept, LiveKept, OnlyWithin, Alloc, Release;
      ghost var m, lo, hi := mem[..], addr, End();
      match op
      case Malloc(size) =>
        NeverOverlaid(blocks, Needed(size));
        MallocSound(s, size, lo, hi);
        var ptr := Malloc(size);
        ghost var m' := mem[..];
        forall p | p in s.held ensures PayloadKept(m, m', lo, p, s.held[p]) {
          MallocKeepsPayload(m, m', lo, hi, s, p);
        }
      case Free(ptr) =>
        FreeSound(s, ptr, lo, hi);
        HeldIsPayload(s, lo, hi, ptr);
        Free(ptr);
        ghost var m' := mem[..];
        forall p | p in s.held ensures PayloadKept(m, m', lo, p, s.held[p]) {
          if lo <= ptr <= hi {
            FreeKeepsPayload(m, m', lo, hi, s, ptr, p);
          } else {
            PayloadSame(m, lo, p, s.held[p]);
          }
        }
    }

    /** Any run of malloc and free keeps to the specification, and leaves what is held, and not freed
        in the run, as it was. */
    method DoAll(ops: seq<Op>, ghost s: State)
      requires Valid() && Sound(s, addr, End()) && s.blocks == blocks && LegalRun(s, ops, addr, End())
      modifies this, mem
      ensures Valid() && blocks == Run(s, ops, addr, End()).blocks
      ensures forall p :: p in s.held && Op.Free(p) !in ops ==> PayloadKept(old(mem[..]), mem[..], addr, p, s.held[p])
      decreases |ops|
    {
      ghost var m0 := mem[..];
      if ops == [] {
        return;
      }
      ghost var lo, hi := addr, End();
      assert ops == [ops[0]] + ops[1..];
      ghost var t := Step(s, ops[0], lo, hi);
      Do(ops[0], s);
      ghost var m1 := mem[..];
      DoAll(ops[1..], t);
      ghost var m2 := mem[..];
      forall p | p in s.held && Op.Free(p) !in ops ensures PayloadKept(m0, m2, lo, p, s.held[p]) {
        StepKeepsHeld(s, ops[0], lo, hi, p);
      }
    }
  }
}

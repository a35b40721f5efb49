/** The on-disk formats of the pseudo-FAT file system: the 25-byte directory
    record, the little-endian integers in it, and the placement of the records
    over the clusters of the root directory. */
module FsLayout {
  import opened Bytes

  const FILE_NAME_LEN: nat := 16
  const EOF_CLUSTER: int := 0xFFF
  const FREE_CLUSTER: int := 0xFFE
  const TAKEN_CLUSTER: int := 0xFFD
  const CLUSTER_SIZE: nat := 64
  const RECORD_SIZE: nat := 25
  const FS_SIZE: nat := 20 * 1024 * 1024
  // min(0xFFF, FS_SIZE / (sizeof(fat12_t) + CLUSTER_SIZE)), a packed fat12_t being 2 bytes
  const CLUSTER_COUNT: nat := if FS_SIZE / 66 < 0xFFF then FS_SIZE / 66 else 0xFFF
  // what is left of the file system's memory behind the FAT
  const DATA_SIZE: nat := FS_SIZE - 2 * CLUSTER_COUNT

  // ---------- names ----------

  /** A C string: the bytes before the first NUL. */
  function CString(b: seq<byte>): (s: seq<byte>)
  {
    if b == [] || b[0] == 0 then [] else [b[0]] + CString(b[1..])
  }

  lemma {:induction false} CStringOfPadded(s: seq<byte>, pad: seq<byte>)
    requires 0 !in s && pad != [] && pad[0] == 0
    ensures CString(s + pad) == s
  {
    if s == [] {
      assert s + pad == pad;
    } else {
      assert (s + pad)[1..] == s[1..] + pad;
      CStringOfPadded(s[1..], pad);
    }
  }

  type Name = seq<byte>

  /** normalize_filename: cut the name so that it and its NUL fit 16 bytes. */
  function Normalize(name: Name): (r: Name)
  {
    if |name| >= FILE_NAME_LEN then name[..FILE_NAME_LEN - 1] else name
  }

  // ---------- directory records ----------

  datatype FileRec = FileRec(name: Name, start: int, size: int, open: bool, system: bool)

  ghost predicate ValidRec(r: FileRec) {
    |r.name| < FILE_NAME_LEN && 0 !in r.name && 0 <= r.start < 0x1_0000_0000 && 0 <= r.size < 0x1_0000_0000
  }

  function Zeros(n: nat): (b: seq<byte>)
    ensures |b| == n
  {
    seq(n, i => 0)
  }

  function EncodeRec(r: FileRec): (b: seq<byte>)
    requires ValidRec(r)
    ensures |b| == RECORD_SIZE
  {
    r.name + Zeros(FILE_NAME_LEN - |r.name|) + LE32(r.start) + LE32(r.size)
      + [(if r.open then 1 else 0) + (if r.system then 2 else 0)]
  }

  function DecodeRec(b: seq<byte>): FileRec
    requires |b| == RECORD_SIZE
  {
    FileRec(CString(b[..16]), FromLE32(b[16..20]), FromLE32(b[20..24]), b[24] % 2 == 1, b[24] / 2 % 2 == 1)
  }

  lemma RecRoundTrip(r: FileRec)
    requires ValidRec(r)
    ensures DecodeRec(EncodeRec(r)) == r
  {
    var b := EncodeRec(r);
    var pad := Zeros(FILE_NAME_LEN - |r.name|);
    assert b[..16] == r.name + pad;
    CStringOfPadded(r.name, pad);
    assert b[16..20] == LE32(r.start);
    assert b[20..24] == LE32(r.size);
    LE32RoundTrip(r.start);
    LE32RoundTrip(r.size);
  }

  /** b is the memory of an array that holds the records rs. */
  ghost predicate Encodes(b: seq<byte>, rs: seq<FileRec>) {
    |b| == RECORD_SIZE * |rs| && forall i :: 0 <= i < |rs| ==>
      DecodeRec(b[RECORD_SIZE * i..RECORD_SIZE * i + RECORD_SIZE]) == rs[i]
  }

  lemma EncodesOneMore(b: seq<byte>, rs: seq<FileRec>, r: FileRec)
    requires Encodes(b, rs) && ValidRec(r)
    ensures Encodes(b + EncodeRec(r), rs + [r])
  {
    var e := EncodeRec(r);
    var b', rs' := b + e, rs + [r];
    RecRoundTrip(r);
    forall i | 0 <= i < |rs'| ensures DecodeRec(b'[RECORD_SIZE * i..RECORD_SIZE * i + RECORD_SIZE]) == rs'[i] {
      if i < |rs| {
        assert b'[RECORD_SIZE * i..RECORD_SIZE * i + RECORD_SIZE] == b[RECORD_SIZE * i..RECORD_SIZE * i + RECORD_SIZE];
      } else {
        assert b'[RECORD_SIZE * i..RECORD_SIZE * i + RECORD_SIZE] == e;
      }
    }
  }

  // ---------- placement of the root directory ----------

  /** get_cluster_count_needed: clusters for an object of `size` bytes. */
  function ClustersNeeded(size: nat): (n: nat)
    ensures CLUSTER_SIZE * n >= size && (n == 0 || CLUSTER_SIZE * (n - 1) < size)
  {
    size / CLUSTER_SIZE + if size % CLUSTER_SIZE != 0 then 1 else 0
  }

  /** Clusters that hold the directory of n records, its EOF cluster not counted. */
  function RootClusters(n: nat): nat { ClustersNeeded(4 + RECORD_SIZE * n) }

  /** Where the encoding of record i starts when the directory's data clusters are p:
      two records to a cluster, whatever is left in the last one. */
  function RecAddr(p: seq<int>, i: nat): int
    requires p != []
  {
    var k := if i / 2 < |p| then i / 2 else |p| - 1;
    CLUSTER_SIZE * p[k] + (if k == 0 then 4 else 0) + RECORD_SIZE * (i - 2 * k)
  }

  /** Bytes written from the start of the last cluster of the root chain. */
  function LastBytes(n: nat): int {
    if n <= 2 then 4 + RECORD_SIZE * n else RECORD_SIZE * (n - 2 * (RootClusters(n) - 1))
  }

  /** The directory stays inside its own clusters exactly for these record counts. */
  predicate Fits(n: nat) { n <= 6 || n == 8 }

  lemma FitsExactly(n: nat)
    ensures LastBytes(n) <= CLUSTER_SIZE <==> Fits(n)
  {
    var c := RootClusters(n);
    assert 64 * c >= 4 + 25 * n > 64 * (c - 1);
    if n > 2 {
      assert LastBytes(n) <= 64 <==> n - 2 * (c - 1) <= 2;
    }
  }

  lemma RootClustersFacts(n: nat)
    ensures RootClusters(n) >= 1
    ensures n <= 2 <==> RootClusters(n) == 1
    ensures n > 2 ==> 2 * (RootClusters(n) - 1) < n && 2 <= RootClusters(n)
    ensures RootClusters(n) <= RootClusters(n + 1) <= RootClusters(n) + 1
    ensures LastBytes(n) >= 4
  {
    var c := RootClusters(n);
    assert 64 * c >= 4 + 25 * n > 64 * (c - 1);
    var d := RootClusters(n + 1);
    assert 64 * d >= 4 + 25 * (n + 1) > 64 * (d - 1);
  }

  // ---------- the stored image ----------

  ghost predicate RecStored(data: seq<byte>, addr: int, r: FileRec) {
    0 <= addr && addr + RECORD_SIZE <= |data| && DecodeRec(data[addr..addr + RECORD_SIZE]) == r
  }

  /** The directory's data clusters p hold the record count and every record. */
  ghost predicate RootImage(data: seq<byte>, p: seq<int>, recs: seq<FileRec>) {
    && |recs| < 0x1_0000_0000
    && |p| == RootClusters(|recs|) >= 1
    && 0 <= CLUSTER_SIZE * p[0] <= |data| - 4
    && data[CLUSTER_SIZE * p[0]..CLUSTER_SIZE * p[0] + 4] == LE32(|recs|)
    && RecsStored(data, p, recs, |recs|)
  }

  /** The first m records are in place. */
  ghost predicate RecsStored(data: seq<byte>, p: seq<int>, recs: seq<FileRec>, m: nat)
    requires p != [] && m <= |recs|
  {
    forall i :: 0 <= i < m ==> RecStored(data, RecAddr(p, i), recs[i])
  }

  /** Clusters that the last write of the directory reaches beyond its own last cluster. */
  predicate InSpill(last: int, n: nat, x: int) {
    Reaches(last, LastBytes(n), x)
  }

  /** A write of `bytes` bytes from the start of cluster `from` reaches into the later cluster x. */
  predicate Reaches(from: int, bytes: int, x: int) {
    from < x && CLUSTER_SIZE * x < CLUSTER_SIZE * from + bytes
  }

  // ---------- changes of memory ----------

  function Spliced(d: seq<byte>, at: nat, src: seq<byte>): (r: seq<byte>)
    requires at + |src| <= |d|
    ensures |r| == |d|
    ensures forall x :: 0 <= x < |d| ==> r[x] == if at <= x < at + |src| then src[x - at] else d[x]
  {
    d[..at] + src + d[at + |src|..]
  }

  /** A record survives any change of memory that spares its 25 bytes. */
  lemma RecStoredFrame(d: seq<byte>, d': seq<byte>, addr: int, r: FileRec)
    requires RecStored(d, addr, r) && |d'| == |d|
    requires forall x :: addr <= x < addr + RECORD_SIZE ==> d'[x] == d[x]
    ensures RecStored(d', addr, r)
  {
    assert d'[addr..addr + RECORD_SIZE] == d[addr..addr + RECORD_SIZE];
  }

  lemma SpliceSlice(d: seq<byte>, at: nat, b: seq<byte>, lo: nat, hi: nat)
    requires at + |b| <= |d| && lo <= hi <= |b|
    ensures Spliced(d, at, b)[at + lo..at + hi] == b[lo..hi]
  {
    var u, v := Spliced(d, at, b)[at + lo..at + hi], b[lo..hi];
    forall x | 0 <= x < hi - lo ensures u[x] == v[x] {}
  }

  /** Copying an array of records to `at` stores each of them. */
  lemma SpliceStores(d: seq<byte>, at: nat, b: seq<byte>, rs: seq<FileRec>, i: nat)
    requires Encodes(b, rs) && at + |b| <= |d| && i < |rs|
    ensures RecStored(Spliced(d, at, b), at + RECORD_SIZE * i, rs[i])
  {
    SpliceSlice(d, at, b, RECORD_SIZE * i, RECORD_SIZE * i + RECORD_SIZE);
  }

  /** Storing records lo.. in a cluster above all earlier ones keeps the records before lo. */
  lemma StoreInCluster(d: seq<byte>, p: seq<int>, b: seq<byte>, recs: seq<FileRec>, lo: nat, hi: nat)
    requires p != [] && lo == 2 * (|p| - 1) <= hi <= |recs| && |p| >= 2
    requires Encodes(b, recs[lo..hi])
    requires forall k :: 0 <= k < |p| - 1 ==> 0 <= p[k] < p[|p| - 1]
    requires 0 <= p[|p| - 1] && CLUSTER_SIZE * p[|p| - 1] + RECORD_SIZE * (hi - lo) <= |d|
    requires RecsStored(d, p[..|p| - 1], recs, lo)
    ensures RecsStored(Spliced(d, CLUSTER_SIZE * p[|p| - 1], b), p, recs, hi)
  {
    var at := CLUSTER_SIZE * p[|p| - 1];
    var d' := Spliced(d, at, b);
    forall i | 0 <= i < hi ensures RecStored(d', RecAddr(p, i), recs[i]) {
      if i < lo {
        assert RecAddr(p, i) == RecAddr(p[..|p| - 1], i);
        assert RecAddr(p, i) + RECORD_SIZE <= CLUSTER_SIZE * p[i / 2] + CLUSTER_SIZE <= at;
        RecStoredFrame(d, d', RecAddr(p, i), recs[i]);
      } else {
        SpliceStores(d, at, b, recs[lo..hi], i - lo);
        assert RecAddr(p, i) == at + RECORD_SIZE * (i - lo);
      }
    }
  }

  /** Byte y was written when a directory was saved in the clusters p, `reach` bytes in the last copy:
      it lies in one of these clusters, or the last copy came that far. */
  predicate Covered(p: seq<int>, reach: int, y: int)
    requires p != []
  {
    y / CLUSTER_SIZE in p || CLUSTER_SIZE * p[|p| - 1] <= y < CLUSTER_SIZE * p[|p| - 1] + reach
  }

  /** The directory depends on the bytes that its saving wrote, and on no others. */
  lemma RootImageFrame(d: seq<byte>, d': seq<byte>, p: seq<int>, recs: seq<FileRec>)
    requires RootImage(d, p, recs) && |d'| == |d|
    requires forall y :: 0 <= y < |d| && Covered(p, LastBytes(|recs|), y) ==> d'[y] == d[y]
    ensures RootImage(d', p, recs)
  {
    RootClustersFacts(|recs|);
    var n := |recs|;
    assert p[0] in p;
    assert d'[CLUSTER_SIZE * p[0]..CLUSTER_SIZE * p[0] + 4] == d[CLUSTER_SIZE * p[0]..CLUSTER_SIZE * p[0] + 4];
    forall i | 0 <= i < n ensures RecStored(d', RecAddr(p, i), recs[i]) {
      var k := if i / 2 < |p| then i / 2 else |p| - 1;
      assert p[k] in p;
      assert RecStored(d, RecAddr(p, i), recs[i]);
      forall y | RecAddr(p, i) <= y < RecAddr(p, i) + RECORD_SIZE ensures Covered(p, LastBytes(n), y) {
        if k < |p| - 1 {
          assert CLUSTER_SIZE * p[k] <= y < CLUSTER_SIZE * p[k] + CLUSTER_SIZE;
          assert y / CLUSTER_SIZE == p[k];
        } else {
          assert CLUSTER_SIZE * p[k] <= y < CLUSTER_SIZE * p[k] + LastBytes(n);
        }
      }
      RecStoredFrame(d, d', RecAddr(p, i), recs[i]);
    }
  }

  /** The bytes of cluster x from `off` on are not the directory's. */
  predicate Spares(p: seq<int>, n: nat, x: int, off: nat)
    requires p != []
  {
    x !in p && (x < p[|p| - 1] || CLUSTER_SIZE * x + off >= CLUSTER_SIZE * p[|p| - 1] + LastBytes(n))
  }

  /** A write to these bytes leaves the directory in place. */
  lemma RootImageSpared(d: seq<byte>, d': seq<byte>, p: seq<int>, recs: seq<FileRec>, x: int, off: nat)
    requires RootImage(d, p, recs) && |d'| == |d| && off < CLUSTER_SIZE && Spares(p, |recs|, x, off)
    requires forall y :: 0 <= y < |d| && !(CLUSTER_SIZE * x + off <= y < CLUSTER_SIZE * x + CLUSTER_SIZE) ==>
      d'[y] == d[y]
    ensures RootImage(d', p, recs)
  {
    forall y | 0 <= y < |d| && Covered(p, LastBytes(|recs|), y) ensures d'[y] == d[y] {
      assert CLUSTER_SIZE * x <= y < CLUSTER_SIZE * x + CLUSTER_SIZE ==> y / CLUSTER_SIZE == x;
    }
    RootImageFrame(d, d', p, recs);
  }

  /** A whole cluster is spared unless it is the directory's or the last copy reaches it. */
  lemma SparesCluster(p: seq<int>, n: nat, x: int)
    requires p != []
    ensures Spares(p, n, x, 0) <==> x !in p && !InSpill(p[|p| - 1], n, x)
  {
  }
}

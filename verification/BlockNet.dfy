/** The HTTP block device: an LRU cache of remote blocks, copy-on-write clusters on top, and one request
    at a time that may stop to wait for a block and be resumed when the block arrives. */
module BlockNet {
  import opened Wrappers

  const SECTOR_SIZE := 512

  type SectorBytes = b: seq<bv8> | |b| == SECTOR_SIZE witness seq(SECTOR_SIZE, _ => 0)

  /** The unit every offset of this file is a multiple of. */
  datatype Sector = Sector(bytes: SectorBytes)

  type Cluster = seq<Sector>

  const SECTORS_PER_CLUSTER := 8

  datatype CachedBlock = CachedBlock(num: int, loaded: bool, data: seq<Sector>)

  // ---- Geometry -------------------------------------------------------------------------------------

  lemma BlockIsWholeClusters(n: nat)
    requires PowerOfTwo(n) && n >= SECTORS_PER_CLUSTER
    ensures n % SECTORS_PER_CLUSTER == 0
  {
    var a := n / 2;
    assert PowerOfTwo(a) && n == 2 * a;
    var b := a / 2;
    assert PowerOfTwo(b) && a == 2 * b;
    var c := b / 2;
    assert b == 2 * c;
    assert n == 8 * c;
  }

  /** What an image and its block size must satisfy; blocks below eight sectors would make a cluster copy
      run past its block. */
  ghost predicate Shape(remote: seq<Sector>, bs: int, nb: int) {
    bs > 0 && bs % SECTORS_PER_CLUSTER == 0 && nb > 0 && |remote| == bs * nb
  }

  lemma BlockInside(remote: seq<Sector>, bs: int, nb: int, num: int)
    requires Shape(remote, bs, nb) && 0 <= num < nb
    ensures 0 <= num * bs <= num * bs + bs <= |remote|
  {
    MulOrder(num, nb, bs);
    MulOrder(0, num, bs);
  }

  function BlockData(remote: seq<Sector>, bs: int, nb: int, num: int): seq<Sector>
    requires Shape(remote, bs, nb) && 0 <= num < nb
  {
    BlockInside(remote, bs, nb, num);
    remote[num * bs..num * bs + bs]
  }

  lemma MulShift(a: int, k: int, d: int)
    requires 0 < d
    ensures (a + k) * d == a * d + k * d
    ensures 0 < k ==> d <= k * d
  {
  }

  lemma MulOrder(a: int, b: int, d: int)
    requires 0 < d
    ensures a < b ==> a * d + d <= b * d
    ensures b < a ==> b * d + d <= a * d
  {
    MulShift(a, b - a, d);
    MulShift(b, a - b, d);
  }

  lemma DivMod(x: int, d: int, q: int, r: int)
    requires 0 <= r < d && x == q * d + r
    ensures x / d == q && x % d == r
  {
    MulOrder(q, x / d, d);
    assert x == x / d * d + x % d;
  }

  /** A cluster lies within one block, at the offset the allocation code computes. */
  lemma ClusterInBlock(bs: int, nb: int, p: int, c: int)
    requires bs > 0 && bs % SECTORS_PER_CLUSTER == 0 && 0 <= p < bs * nb && c == p / SECTORS_PER_CLUSTER
    ensures 0 <= p / bs < nb && p == p / bs * bs + p % bs
    ensures c * SECTORS_PER_CLUSTER == p / bs * bs + c * SECTORS_PER_CLUSTER % bs
    ensures 0 <= c * SECTORS_PER_CLUSTER % bs <= bs - SECTORS_PER_CLUSTER
    ensures c * SECTORS_PER_CLUSTER + SECTORS_PER_CLUSTER <= bs * nb
  {
    var q := bs / SECTORS_PER_CLUSTER;
    var a, b := c / q, c % q;
    var r := b * SECTORS_PER_CLUSTER;
    ClusterSplit(c, q, a, b);
    DivMod(p, bs, a, r + p % SECTORS_PER_CLUSTER);
    DivMod(c * SECTORS_PER_CLUSTER, bs, a, r);
    MulOrder(a, nb, bs);
    MulOrder(a, 0, bs);
  }

  lemma ClusterSplit(c: int, q: int, a: int, b: int)
    requires 0 < q && a == c / q && b == c % q
    ensures 0 <= b < q && c * SECTORS_PER_CLUSTER == a * (q * SECTORS_PER_CLUSTER) + b * SECTORS_PER_CLUSTER
  {
    assert c == a * q + b;
  }

  // ---- The disk a client sees ------------------------------------------------------------------------

  ghost predicate ClustersOk(clusters: seq<Option<Cluster>>, remote: seq<Sector>) {
    && |clusters| * SECTORS_PER_CLUSTER == |remote|
    && forall c :: 0 <= c < |clusters| && clusters[c].Some? ==> |clusters[c].value| == SECTORS_PER_CLUSTER
  }

  predicate Written(clusters: seq<Option<Cluster>>, i: int) {
    0 <= i / SECTORS_PER_CLUSTER < |clusters| && clusters[i / SECTORS_PER_CLUSTER].Some?
  }

  ghost function DiskAt(clusters: seq<Option<Cluster>>, remote: seq<Sector>, i: int): Sector
    requires ClustersOk(clusters, remote) && 0 <= i < |remote|
  {
    if Written(clusters, i) then clusters[i / SECTORS_PER_CLUSTER].value[i % SECTORS_PER_CLUSTER] else remote[i]
  }

  ghost function Disk(clusters: seq<Option<Cluster>>, remote: seq<Sector>): (d: seq<Sector>)
    requires ClustersOk(clusters, remote)
    ensures |d| == |remote| && forall i :: 0 <= i < |d| ==> d[i] == DiskAt(clusters, remote, i)
  {
    seq(|remote|, i requires 0 <= i < |remote| => DiskAt(clusters, remote, i))
  }

  /** An earlier sector of the same read, in the same block, lies in an unwritten cluster. */
  ghost predicate Shadowed(clusters: seq<Option<Cluster>>, bs: int, start: int, j: int)
    requires bs > 0
  {
    exists i :: start <= i < j && i / bs == j / bs && !Written(clusters, i)
  }

  /** What a read starting at `start` delivers for sector `j`. */
  ghost function ReadAt(clusters: seq<Option<Cluster>>, remote: seq<Sector>, bs: int, start: int, j: int): Sector
    requires ClustersOk(clusters, remote) && bs > 0 && 0 <= j < |remote|
  {
    if Shadowed(clusters, bs, start, j) then remote[j] else DiskAt(clusters, remote, j)
  }

  // ---- One request, between two of its segments ----------------------------------------------------------

  /** After `idx` sectors of a write: exactly those sectors differ from the disk at the start of the request, and
      exactly their clusters have been added, except for one that is allocated but not yet written to. */
  ghost predicate WriteProgress(clusters: seq<Option<Cluster>>, before: seq<Option<Cluster>>, remote: seq<Sector>,
                                buf: seq<Sector>, start: int, idx: int)
  {
    && 0 <= idx <= |buf| && 0 <= start && start + |buf| <= |remote|
    && ClustersOk(clusters, remote) && ClustersOk(before, remote)
    && SectorsWritten(clusters, before, remote, buf, start, idx)
    && ClustersAdded(clusters, before, start, idx, idx < |buf|)
  }

  ghost predicate SectorsWritten(clusters: seq<Option<Cluster>>, before: seq<Option<Cluster>>, remote: seq<Sector>,
                                 buf: seq<Sector>, start: int, idx: int)
    requires 0 <= idx <= |buf| && ClustersOk(clusters, remote) && ClustersOk(before, remote)
  {
    forall i :: 0 <= i < |remote| ==>
      DiskAt(clusters, remote, i) == if start <= i < start + idx then buf[i - start] else DiskAt(before, remote, i)
  }

  ghost predicate ClustersAdded(clusters: seq<Option<Cluster>>, before: seq<Option<Cluster>>, start: int, idx: int,
      more: bool) {
    && |clusters| == |before|
    && forall c :: 0 <= c < |clusters| ==>
         && (Touched(start, idx, c) || before[c].Some? ==> clusters[c].Some?)
         && (clusters[c].Some? ==>
               before[c].Some? || Touched(start, idx, c) || (more && c == (start + idx) / SECTORS_PER_CLUSTER))
  }

  /** Cluster `c` holds one of the `n` sectors from `start`. */
  predicate Touched(start: int, n: int, c: int) {
    0 < n && start / SECTORS_PER_CLUSTER <= c <= (start + n - 1) / SECTORS_PER_CLUSTER
  }

  /** After `idx` sectors of a read. */
  ghost predicate ReadProgress(clusters: seq<Option<Cluster>>, remote: seq<Sector>, bs: int,
                               buf: seq<Sector>, start: int, idx: int)
  {
    && 0 <= idx <= |buf| && 0 <= start && start + |buf| <= |remote| && bs > 0
    && ClustersOk(clusters, remote)
    && (forall k :: 0 <= k < idx ==> buf[k] == ReadAt(clusters, remote, bs, start, start + k))
    && (idx < |buf| ==> !Shadowed(clusters, bs, start, start + idx))
  }

  function Min(a: int, b: int): int {
    if a < b then a else b
  }

  /** `dst` with the `n` sectors from `at` replaced by those of `src` from `from`. */
  function Copy(dst: seq<Sector>, at: int, src: seq<Sector>, from: int, n: int): (r: seq<Sector>)
    requires 0 <= n && 0 <= at && at + n <= |dst| && 0 <= from && from + n <= |src|
    ensures |r| == |dst|
    ensures r[..at] == dst[..at] && r[at..at + n] == src[from..from + n] && r[at + n..] == dst[at + n..]
  {
    dst[..at] + src[from..from + n] + dst[at + n..]
  }

  lemma WriteToCluster(clusters: seq<Option<Cluster>>, before: seq<Option<Cluster>>, remote: seq<Sector>,
                       buf: seq<Sector>, start: int, idx: int)
    requires WriteProgress(clusters, before, remote, buf, start, idx) && idx < |buf|
    requires Written(clusters, start + idx)
    ensures var c, offset := (start + idx) / SECTORS_PER_CLUSTER, (start + idx) % SECTORS_PER_CLUSTER;
            var n := Min(|buf| - idx, SECTORS_PER_CLUSTER - offset);
            WriteProgress(clusters[c := Some(Copy(clusters[c].value, offset, buf, idx, n))],
                          before, remote, buf, start, idx + n)
  {
    hide SectorsWritten, ClustersAdded, Copy;
    var c, offset := (start + idx) / SECTORS_PER_CLUSTER, (start + idx) % SECTORS_PER_CLUSTER;
    var n := Min(|buf| - idx, SECTORS_PER_CLUSTER - offset);
    var clusters' := clusters[c := Some(Copy(clusters[c].value, offset, buf, idx, n))];
    WriteSectors(clusters, before, remote, buf, start, idx, n);
    TouchClusters(clusters, clusters', before, start, idx, n, idx + n < |buf|);
  }

  lemma WriteSectors(clusters: seq<Option<Cluster>>, before: seq<Option<Cluster>>, remote: seq<Sector>,
                     buf: seq<Sector>, start: int, idx: int, n: int)
    requires ClustersOk(clusters, remote) && ClustersOk(before, remote) && 0 <= idx < |buf| && 0 <= start
    requires SectorsWritten(clusters, before, remote, buf, start, idx) && Written(clusters, start + idx)
    requires 0 < n <= |buf| - idx && (start + idx) % SECTORS_PER_CLUSTER + n <= SECTORS_PER_CLUSTER
    ensures var c, offset := (start + idx) / SECTORS_PER_CLUSTER, (start + idx) % SECTORS_PER_CLUSTER;
            var clusters' := clusters[c := Some(Copy(clusters[c].value, offset, buf, idx, n))];
            ClustersOk(clusters', remote) && SectorsWritten(clusters', before, remote, buf, start, idx + n)
  {
    hide Copy;
    var c, offset := (start + idx) / SECTORS_PER_CLUSTER, (start + idx) % SECTORS_PER_CLUSTER;
    var clusters' := clusters[c := Some(Copy(clusters[c].value, offset, buf, idx, n))];
    forall i | 0 <= i < |remote|
      ensures DiskAt(clusters', remote, i)
              == if start <= i < start + idx + n then buf[i - start] else DiskAt(before, remote, i)
    {
      assert DiskAt(clusters, remote, i) == if start <= i < start + idx then buf[i - start]
          else DiskAt(before, remote, i);
      if i / SECTORS_PER_CLUSTER == c {
        CopyAt(clusters[c].value, offset, buf, idx, n, i % SECTORS_PER_CLUSTER);
      }
    }
  }

  lemma TouchClusters(clusters: seq<Option<Cluster>>, clusters': seq<Option<Cluster>>, before: seq<Option<Cluster>>,
                      start: int, idx: int, n: int, more: bool)
    requires ClustersAdded(clusters, before, start, idx, true) && |clusters'| == |clusters|
    requires 0 <= start && 0 <= idx && 0 < n && (start + idx) % SECTORS_PER_CLUSTER + n <= SECTORS_PER_CLUSTER
    requires forall k :: 0 <= k < |clusters| ==> clusters'[k].Some? == clusters[k].Some?
    requires Written(clusters, start + idx)
    ensures ClustersAdded(clusters', before, start, idx + n, more)
  {
    forall k | 0 <= k < |clusters|
      ensures Touched(start, idx + n, k) <==> Touched(start, idx, k) || k == (start + idx) / SECTORS_PER_CLUSTER
    {
      TouchedGrows(start, idx, n, k);
    }
  }

  lemma CopyAt(dst: seq<Sector>, at: int, src: seq<Sector>, from: int, n: int, i: int)
    requires 0 <= n && 0 <= at && at + n <= |dst| && 0 <= from && from + n <= |src| && 0 <= i < |dst|
    ensures Copy(dst, at, src, from, n)[i] == if at <= i < at + n then src[from + i - at] else dst[i]
  {
  }

  lemma TouchedGrows(start: int, idx: int, n: int, k: int)
    requires 0 <= start && 0 <= idx && 0 < n && (start + idx) % SECTORS_PER_CLUSTER + n <= SECTORS_PER_CLUSTER
    ensures Touched(start, idx + n, k) <==> Touched(start, idx, k) || k == (start + idx) / SECTORS_PER_CLUSTER
  {
    assert (start + idx + n - 1) / SECTORS_PER_CLUSTER == (start + idx) / SECTORS_PER_CLUSTER;
  }

  lemma AllocateCluster(clusters: seq<Option<Cluster>>, before: seq<Option<Cluster>>, remote: seq<Sector>,
                        buf: seq<Sector>, start: int, idx: int)
    requires WriteProgress(clusters, before, remote, buf, start, idx) && idx < |buf|
    requires !Written(clusters, start + idx)
    ensures var c := (start + idx) / SECTORS_PER_CLUSTER;
            && 0 <= c < |clusters|
            && WriteProgress(clusters[c := Some(remote[c * SECTORS_PER_CLUSTER
                                                ..c * SECTORS_PER_CLUSTER + SECTORS_PER_CLUSTER])],
                          before, remote, buf, start, idx)
  {
    var c := (start + idx) / SECTORS_PER_CLUSTER;
    var at := c * SECTORS_PER_CLUSTER;
    var clusters' := clusters[c := Some(remote[at..at + SECTORS_PER_CLUSTER])];
    forall i | 0 <= i < |remote|
      ensures DiskAt(clusters', remote, i) == DiskAt(clusters, remote, i)
    {
    }
  }

  lemma ReadFromCluster(clusters: seq<Option<Cluster>>, remote: seq<Sector>, bs: int, nb: int,
                        buf: seq<Sector>, buf': seq<Sector>, start: int, idx: int, n: int)
    requires Shape(remote, bs, nb)
    requires ReadProgress(clusters, remote, bs, buf, start, idx) && idx < |buf|
    requires Written(clusters, start + idx)
    requires n == Min(|buf| - idx, SECTORS_PER_CLUSTER - (start + idx) % SECTORS_PER_CLUSTER)
    requires |buf'| == |buf| && buf'[..idx] == buf[..idx]
    requires var c, offset := (start + idx) / SECTORS_PER_CLUSTER, (start + idx) % SECTORS_PER_CLUSTER;
             buf'[idx..idx + n] == clusters[c].value[offset..offset + n]
    ensures ReadProgress(clusters, remote, bs, buf', start, idx + n)
  {
    var p := start + idx;
    forall j | p <= j <= p + n && j < start + |buf|
      ensures !Shadowed(clusters, bs, start, j)
    {
      forall i | start <= i < j && i / bs == j / bs
        ensures Written(clusters, i)
      {
        BlocksBetween(bs, i, p, j);
        assert p <= i ==> i / SECTORS_PER_CLUSTER == p / SECTORS_PER_CLUSTER;
      }
    }
    forall k | 0 <= k < idx + n
      ensures buf'[k] == ReadAt(clusters, remote, bs, start, start + k)
    {
      if k < idx {
        assert buf'[k] == buf'[..idx][k] == buf[..idx][k];
      } else {
        assert buf'[k] == buf'[idx..idx + n][k - idx];
        assert (start + k) / SECTORS_PER_CLUSTER == p / SECTORS_PER_CLUSTER;
      }
    }
  }

  lemma BlocksBetween(bs: int, i: int, p: int, j: int)
    requires bs > 0 && 0 <= i && i / bs == j / bs
    ensures i <= p <= j ==> p / bs == j / bs
  {
    if i <= p <= j {
      DivMod(p, bs, i / bs, i % bs + (p - i));
    }
  }

  lemma ReadFromBlock(clusters: seq<Option<Cluster>>, remote: seq<Sector>, bs: int, nb: int,
                      buf: seq<Sector>, buf': seq<Sector>, start: int, idx: int, n: int)
    requires Shape(remote, bs, nb)
    requires ReadProgress(clusters, remote, bs, buf, start, idx) && idx < |buf|
    requires !Written(clusters, start + idx)
    requires n == Min(|buf| - idx, bs - (start + idx) % bs)
    requires |buf'| == |buf| && buf'[..idx] == buf[..idx]
    requires buf'[idx..idx + n] == remote[start + idx..start + idx + n]
    ensures ReadProgress(clusters, remote, bs, buf', start, idx + n)
  {
    var p := start + idx;
    ClusterInBlock(bs, nb, p, p / SECTORS_PER_CLUSTER);
    forall k | 0 <= k < idx + n
      ensures buf'[k] == ReadAt(clusters, remote, bs, start, start + k)
    {
      if k < idx {
        assert buf'[k] == buf'[..idx][k] == buf[..idx][k];
      } else {
        assert buf'[k] == buf'[idx..idx + n][k - idx];
        ReadInBlock(clusters, remote, bs, start, p, start + k);
      }
    }
    if idx + n < |buf| {
      NextBlock(bs, p, p + n);
    }
  }

  lemma ReadInBlock(clusters: seq<Option<Cluster>>, remote: seq<Sector>, bs: int, start: int, p: int, j: int)
    requires ClustersOk(clusters, remote) && bs > 0 && 0 <= start <= p <= j < |remote|
    requires !Written(clusters, p) && j - p < bs - p % bs
    ensures ReadAt(clusters, remote, bs, start, j) == remote[j]
  {
    DivMod(j, bs, p / bs, p % bs + (j - p));
    if p < j {
      assert Shadowed(clusters, bs, start, j);
    }
  }

  /** Block numbers below a block boundary are smaller. */
  lemma NextBlock(bs: int, p: int, q: int)
    requires bs > 0 && 0 <= p && q == p + bs - p % bs
    ensures forall i :: 0 <= i < q ==> i / bs != q / bs
  {
    DivMod(q, bs, p / bs + 1, 0);
    forall i | 0 <= i < q
      ensures i / bs != q / bs
    {
      MulOrder(i / bs, q / bs, bs);
      assert i == i / bs * bs + i % bs;
    }
  }

  // ---- The device as a flat array, and the requests it has completed ---------------------------------------

  /** The sectors a client sees, and which clusters have been written to. */
  datatype Flat = Flat(disk: seq<Sector>, written: seq<bool>)

  datatype Done = DidWrite(start: int, data: seq<Sector>) | DidRead(start: int, data: seq<Sector>)

  ghost predicate FlatOk(f: Flat, remote: seq<Sector>) {
    && |f.disk| == |remote| == |f.written| * SECTORS_PER_CLUSTER
    && forall i :: 0 <= i < |remote| && !f.written[i / SECTORS_PER_CLUSTER] ==> f.disk[i] == remote[i]
  }

  ghost function View(clusters: seq<Option<Cluster>>, remote: seq<Sector>): (f: Flat)
    requires ClustersOk(clusters, remote)
    ensures FlatOk(f, remote) && |f.written| == |clusters|
  {
    Flat(Disk(clusters, remote), seq(|clusters|, c requires 0 <= c < |clusters| => clusters[c].Some?))
  }

  ghost function AfterWrite(f: Flat, start: int, data: seq<Sector>): (f': Flat)
    requires 0 <= start && start + |data| <= |f.disk|
  {
    Flat(f.disk[..start] + data + f.disk[start + |data|..],
         seq(|f.written|, c requires 0 <= c < |f.written| => f.written[c] || Touched(start, |data|, c)))
  }

  /** Some earlier sector of the read, in the block of sector `j`, lies in an unwritten cluster. */
  ghost predicate FromUnwritten(written: seq<bool>, bs: int, start: int, j: int)
    requires bs > 0 && 0 <= start && j <= |written| * SECTORS_PER_CLUSTER
  {
    exists i :: start <= i < j && i / bs == j / bs && !written[i / SECTORS_PER_CLUSTER]
  }

  ghost predicate IsRead(f: Flat, remote: seq<Sector>, bs: int, start: int, data: seq<Sector>) {
    && bs > 0 && FlatOk(f, remote) && 0 <= start && start + |data| <= |remote|
    && forall k :: 0 <= k < |data| ==>
         data[k] == if FromUnwritten(f.written, bs, start, start + k) then remote[start + k] else f.disk[start + k]
  }

  /** The read takes sectors from an unwritten cluster and then from a written one of the same block. */
  ghost predicate RunsIntoWritten(written: seq<bool>, bs: int, start: int, n: int)
    requires bs > 0 && 0 <= start && 0 <= n && start + n <= |written| * SECTORS_PER_CLUSTER
  {
    exists j :: start <= j < start + n && written[j / SECTORS_PER_CLUSTER] && FromUnwritten(written, bs, start, j)
  }

  ghost function ReadData(f: Flat, remote: seq<Sector>, bs: int, start: int, n: int): (data: seq<Sector>)
    requires bs > 0 && FlatOk(f, remote) && 0 <= start && 0 <= n && start + n <= |remote|
    ensures |data| == n && IsRead(f, remote, bs, start, data)
  {
    seq(n, k requires 0 <= k < n =>
      if FromUnwritten(f.written, bs, start, start + k) then remote[start + k] else f.disk[start + k])
  }

  /** A read that does not run from an unwritten into a written cluster of one block is the current disk. */
  lemma ReadIsCurrent(f: Flat, remote: seq<Sector>, bs: int, start: int, data: seq<Sector>)
    requires IsRead(f, remote, bs, start, data) && !RunsIntoWritten(f.written, bs, start, |data|)
    ensures data == f.disk[start..start + |data|]
  {
    forall k | 0 <= k < |data|
      ensures data[k] == f.disk[start + k]
    {
      assert f.written[(start + k) / SECTORS_PER_CLUSTER] ==> !FromUnwritten(f.written, bs, start, start + k);
    }
  }

  /** And one that does is wrong for some contents of the written clusters: the read is the current disk
      whatever was written exactly when it does not run from an unwritten into a written cluster of one block. */
  lemma ReadIsCurrentExactly(f: Flat, remote: seq<Sector>, bs: int, start: int, n: int)
    requires bs > 0 && FlatOk(f, remote) && 0 <= start && 0 <= n && start + n <= |remote|
    ensures (forall g: Flat, data ::
               g.written == f.written && |data| == n && IsRead(g, remote, bs, start, data)
               ==> data == g.disk[start..start + n])
            <==> !RunsIntoWritten(f.written, bs, start, n)
  {
    if RunsIntoWritten(f.written, bs, start, n) {
      var g, data := StaleRead(f, remote, bs, start, n);
    } else {
      forall g: Flat, data | g.written == f.written && |data| == n && IsRead(g, remote, bs, start, data)
        ensures data == g.disk[start..start + n]
      {
        ReadIsCurrent(g, remote, bs, start, data);
      }
    }
  }

  /** A sector that differs in one bit. */
  function Flipped(s: Sector): (t: Sector)
    ensures t != s
  {
    Sector(s.bytes[0 := s.bytes[0] ^ 1])
  }

  /** The excluded case, exhibited: the client has overwritten sector `j` and reads the old block data back. */
  lemma StaleRead(f: Flat, remote: seq<Sector>, bs: int, start: int, n: int) returns (g: Flat, data: seq<Sector>)
    requires bs > 0 && FlatOk(f, remote) && 0 <= start && 0 <= n && start + n <= |remote|
    requires RunsIntoWritten(f.written, bs, start, n)
    ensures g.written == f.written && |data| == n && IsRead(g, remote, bs, start, data)
    ensures data != g.disk[start..start + n]
  {
    var j :| start <= j < start + n && f.written[j / SECTORS_PER_CLUSTER] && FromUnwritten(f.written, bs, start, j);
    g := Flat(remote[j := Flipped(remote[j])], f.written);
    data := ReadData(g, remote, bs, start, n);
    assert data[j - start] == remote[j] != g.disk[start..start + n][j - start];
  }

  /** Two clusters of one block, the first unwritten: after a write of the second, a read of both takes both from the
      block. */
  lemma StalePair(f: Flat, remote: seq<Sector>, bs: int, start: int, changed: seq<Sector>, data: seq<Sector>)
    requires FlatOk(f, remote) && bs > 0 && TwoClusters(remote, bs, start) && !f.written[start / SECTORS_PER_CLUSTER]
    requires |changed| == SECTORS_PER_CLUSTER && |data| == 2 * SECTORS_PER_CLUSTER
    requires IsRead(AfterWrite(f, start + SECTORS_PER_CLUSTER, changed), remote, bs, start, data)
    ensures data == remote[start..start + 2 * SECTORS_PER_CLUSTER]
    ensures changed[0] != remote[start + SECTORS_PER_CLUSTER] ==>
              data != AfterWrite(f, start + SECTORS_PER_CLUSTER, changed).disk[start..start + 2 * SECTORS_PER_CLUSTER]
  {
    var g := AfterWrite(f, start + SECTORS_PER_CLUSTER, changed);
    assert !Touched(start + SECTORS_PER_CLUSTER, |changed|, start / SECTORS_PER_CLUSTER);
    assert !g.written[start / SECTORS_PER_CLUSTER];
    forall k | 0 <= k < |data|
      ensures data[k] == remote[start + k]
    {
      BlocksBetween(bs, start, start + k, start + 2 * SECTORS_PER_CLUSTER - 1);
      if k > 0 {
        assert FromUnwritten(g.written, bs, start, start + k);
      }
    }
    assert g.disk[start..start + 2 * SECTORS_PER_CLUSTER][SECTORS_PER_CLUSTER] == changed[0];
  }

  /** `start` begins two whole clusters of one block. */
  predicate TwoClusters(remote: seq<Sector>, bs: int, start: int) {
    && bs > 0 && 0 <= start && start % SECTORS_PER_CLUSTER == 0 && start + 2 * SECTORS_PER_CLUSTER <= |remote|
    && start / bs == (start + 2 * SECTORS_PER_CLUSTER - 1) / bs
  }

  /** The flat array after the completed requests. */
  ghost function Replay(remote: seq<Sector>, history: seq<Done>): (f: Flat)
    requires HistoryInRange(remote, history)
    ensures FlatOk(f, remote)
  {
    if history == [] then
      Flat(remote, seq(|remote| / SECTORS_PER_CLUSTER, c => false))
    else
      var f := Replay(remote, history[..|history| - 1]);
      match history[|history| - 1]
      case DidWrite(start, data) => AfterWrite(f, start, data)
      case DidRead(_, _) => f
  }

  ghost predicate HistoryInRange(remote: seq<Sector>, history: seq<Done>) {
    && |remote| % SECTORS_PER_CLUSTER == 0
    && forall i :: 0 <= i < |history| ==> 0 <= history[i].start && history[i].start + |history[i].data| <= |remote|
  }

  /** Every read in the history returned what the flat array after the requests before it determines. */
  ghost predicate HistoryOk(remote: seq<Sector>, bs: int, history: seq<Done>) {
    && HistoryInRange(remote, history)
    && forall i :: 0 <= i < |history| && history[i].DidRead? ==>
         IsRead(Replay(remote, history[..i]), remote, bs, history[i].start, history[i].data)
  }

  lemma HistoryGrows(remote: seq<Sector>, bs: int, history: seq<Done>, d: Done)
    requires HistoryOk(remote, bs, history) && 0 <= d.start && d.start + |d.data| <= |remote|
    requires d.DidRead? ==> IsRead(Replay(remote, history), remote, bs, d.start, d.data)
    ensures HistoryOk(remote, bs, history + [d])
    ensures Replay(remote, history + [d])
            == if d.DidWrite? then AfterWrite(Replay(remote, history), d.start, d.data) else Replay(remote, history)
  {
    var h := history + [d];
    assert h[..|history|] == history;
    forall i | 0 <= i < |h| && h[i].DidRead?
      ensures IsRead(Replay(remote, h[..i]), remote, bs, h[i].start, h[i].data)
    {
      assert i < |history| ==> h[..i] == history[..i];
    }
  }

  /** A finished write has turned the disk into the flat array after the write. */
  lemma WriteFinished(clusters: seq<Option<Cluster>>, before: seq<Option<Cluster>>, remote: seq<Sector>,
                      buf: seq<Sector>, start: int)
    requires WriteProgress(clusters, before, remote, buf, start, |buf|)
    ensures View(clusters, remote) == AfterWrite(View(before, remote), start, buf)
  {
    var v, w := View(clusters, remote), AfterWrite(View(before, remote), start, buf);
    forall i | 0 <= i < |remote|
      ensures v.disk[i] == w.disk[i]
    {
      assert v.disk[i] == DiskAt(clusters, remote, i);
    }
    assert v.disk == w.disk;
    assert v.written == w.written;
  }

  lemma ReadFinished(clusters: seq<Option<Cluster>>, remote: seq<Sector>, bs: int, buf: seq<Sector>, start: int)
    requires ReadProgress(clusters, remote, bs, buf, start, |buf|)
    ensures IsRead(View(clusters, remote), remote, bs, start, buf)
  {
    var f := View(clusters, remote);
    forall k | 0 <= k < |buf|
      ensures buf[k] == if FromUnwritten(f.written, bs, start, start + k) then remote[start + k] else f.disk[start + k]
    {
      assert buf[k] == ReadAt(clusters, remote, bs, start, start + k);
      assert forall i :: start <= i < start + k ==> (f.written[i / SECTORS_PER_CLUSTER] <==> Written(clusters, i));
      assert Shadowed(clusters, bs, start, start + k) <==> FromUnwritten(f.written, bs, start, start + k);
    }
  }

  /** What a client asks for. */
  datatype Ask = AskRead(start: int, count: int) | AskWrite(start: int, data: seq<Sector>)

  function Asked(d: Done): Ask {
    match d
    case DidRead(start, data) => AskRead(start, |data|)
    case DidWrite(start, data) => AskWrite(start, data)
  }

  function AllAsked(history: seq<Done>): seq<Ask> {
    seq(|history|, i requires 0 <= i < |history| => Asked(history[i]))
  }

  /** A request a client makes, if it lies within the disk and no other is pending. */
  function Requested(e: Event, total: int, busy: bool): seq<Ask> {
    match e
    case Read(sector, buf) => if !busy && 0 <= sector && sector + |buf| <= total then [AskRead(sector, |buf|)] else []
    case Write(sector, data) => if !busy && 0 <= sector && sector + |data| <= total then [AskWrite(sector, data)]
        else []
    case Arrive(_) => []
  }

  /** The requests made in a run; `busy` says when the client was waiting for a callback. */
  function Requests(events: seq<Event>, total: int, busy: seq<bool>): seq<Ask>
    requires |busy| == |events|
  {
    if events == [] then []
    else
      var n := |events| - 1;
      Requests(events[..n], total, busy[..n]) + Requested(events[n], total, busy[n])
  }

  lemma OneMoreEvent(events: seq<Event>, total: int, busy: seq<bool>, i: nat, b: bool)
    requires i < |events| && |busy| == i
    ensures Requests(events[..i + 1], total, busy + [b])
            == Requests(events[..i], total, busy) + Requested(events[i], total, b)
  {
    assert events[..i + 1][..i] == events[..i] && (busy + [b])[..i] == busy;
  }

  lemma NoEvents(events: seq<Event>, total: int)
    ensures Requests(events[..0], total, []) == []
  {
  }

  lemma OneMoreAsked(history: seq<Done>, d: Done)
    ensures AllAsked(history + [d]) == AllAsked(history) + [Asked(d)]
  {
  }

  /** What can happen to the device: a client's request, or the server's answer for a block. */
  datatype Event = Read(sector: int, buf: seq<Sector>) | Write(sector: int, data: seq<Sector>) | Arrive(num: int)

  /** Where the device stands between two events: whether a request waits and for which block, how far it is, how many
      requests are done, and which blocks are being loaded. */
  datatype Point = Point(waiting: bool, block: int, index: int, done: nat, loading: set<int>)

  /** An event leads from one point to the next. A request taken up loads no block but the one it waits for. The answer
      for a block that is being loaded ends that load, and takes a request that waits for it further. */
  ghost predicate Leads(p: Point, e: Event, total: int, q: Point) {
    match e
    case Read(sector, buf) =>
      if p.waiting || sector < 0 || sector + |buf| > total then q == p else Started(p, q)
    case Write(sector, data) =>
      if p.waiting || sector < 0 || sector + |data| > total then q == p else Started(p, q)
    case Arrive(num) =>
      if num !in p.loading then q == p
      else if !p.waiting || num != p.block then q == p.(loading := p.loading - {num})
      else
        && q.index > p.index && q.done == p.done + (if q.waiting then 0 else 1)
        && q.loading == p.loading - {num} + if q.waiting then {q.block} else {}
  }

  ghost predicate Started(p: Point, q: Point) {
    q.done == p.done + (if q.waiting then 0 else 1) && q.loading == p.loading + if q.waiting then {q.block} else {}
  }

  // ---- The block cache, most recently used first ------------------------------------------------------------

  ghost predicate CacheOk(cached: seq<CachedBlock>, remote: seq<Sector>, bs: int, nb: int)
    requires Shape(remote, bs, nb)
  {
    && OnePerNumber(cached)
    && (forall b :: b in cached ==> 0 <= b.num < nb)
    && (forall b :: b in cached && b.loaded ==> b.data == BlockData(remote, bs, nb, b.num))
  }

  predicate OnePerNumber(cached: seq<CachedBlock>) {
    forall i, j :: 0 <= i < j < |cached| ==> cached[i].num != cached[j].num
  }

  /** The blocks whose load is in flight. */
  ghost function Loading(cached: seq<CachedBlock>): set<int> {
    set b | b in cached && !b.loaded :: b.num
  }

  predicate HasBlock(cached: seq<CachedBlock>, num: int) {
    exists i :: 0 <= i < |cached| && cached[i].num == num
  }

  ghost predicate HasLoaded(cached: seq<CachedBlock>, num: int) {
    exists b :: b in cached && b.loaded && b.num == num
  }

  function MoveToFront(cached: seq<CachedBlock>, i: nat): seq<CachedBlock>
    requires i < |cached|
  {
    [cached[i]] + cached[..i] + cached[i + 1..]
  }

  lemma MoveToFrontMembers(cached: seq<CachedBlock>, i: nat)
    requires i < |cached|
    ensures forall b :: b in MoveToFront(cached, i) <==> b in cached
    ensures Loading(MoveToFront(cached, i)) == Loading(cached)
  {
    assert cached == cached[..i] + [cached[i]] + cached[i + 1..];
  }

  lemma MoveToFrontDistinct(cached: seq<CachedBlock>, i: nat)
    requires i < |cached| && OnePerNumber(cached)
    ensures OnePerNumber(MoveToFront(cached, i))
  {
    var r := MoveToFront(cached, i);
    forall p, q | 0 <= p < q < |r|
      ensures r[p].num != r[q].num
    {
      assert r[p] == cached[if p == 0 then i else if p <= i then p - 1 else p];
      assert r[q] == cached[if q <= i then q - 1 else q];
    }
  }

  /** The blocks of `s` still loading, in order. */
  function Unloaded(s: seq<CachedBlock>): seq<CachedBlock> {
    if s == [] then [] else (if s[0].loaded then [] else [s[0]]) + Unloaded(s[1..])
  }

  lemma {:induction false} UnloadedMembers(s: seq<CachedBlock>)
    ensures forall b :: b in Unloaded(s) <==> b in s && !b.loaded
    ensures |Unloaded(s)| <= |s|
  {
    if s != [] {
      UnloadedMembers(s[1..]);
      assert s == [s[0]] + s[1..];
    }
  }

  lemma {:induction false} UnloadedDistinct(s: seq<CachedBlock>)
    requires OnePerNumber(s)
    ensures OnePerNumber(Unloaded(s))
  {
    if s != [] {
      UnloadedDistinct(s[1..]);
      UnloadedMembers(s[1..]);
      assert forall b :: b in s[1..] ==> b.num != s[0].num;
    }
  }

  /** What an eviction leaves of the cache: the first `k` entries, and of the others only those still loading. */
  function Evicted(cached: seq<CachedBlock>, k: nat): seq<CachedBlock>
    requires k <= |cached|
  {
    cached[..k] + Unloaded(cached[k..])
  }

  lemma EvictedKeeps(cached: seq<CachedBlock>, k: nat, remote: seq<Sector>, bs: int, nb: int)
    requires Shape(remote, bs, nb) && CacheOk(cached, remote, bs, nb) && k <= |cached|
    ensures CacheOk(Evicted(cached, k), remote, bs, nb)
    ensures forall b :: b in Evicted(cached, k) ==> b in cached
    ensures forall b :: b in cached && !b.loaded ==> b in Evicted(cached, k)
    ensures Loading(Evicted(cached, k)) == Loading(cached)
  {
    UnloadedMembers(cached[k..]);
    EvictedDistinct(cached, k);
    assert cached == cached[..k] + cached[k..];
  }

  predicate Before(s: seq<CachedBlock>, x: CachedBlock, y: CachedBlock) {
    exists p, q :: 0 <= p < q < |s| && s[p] == x && s[q] == y
  }

  predicate InOrder(s: seq<CachedBlock>, t: seq<CachedBlock>) {
    forall i, j | 0 <= i < j < |t| :: Before(s, t[i], t[j])
  }

  /** If entry `i` is gone, it was loaded, and so are no loaded entries behind it still there. */
  predicate LastGone(s: seq<CachedBlock>, t: seq<CachedBlock>) {
    forall i | 0 <= i < |s| && s[i] !in t :: s[i].loaded && forall j | i < j < |s| && s[j].loaded :: s[j] !in t
  }

  /** `t` is `s` in its order without some loaded entries, those nearest the end. */
  predicate TailGone(s: seq<CachedBlock>, t: seq<CachedBlock>) {
    (forall b | b in t :: b in s) && InOrder(s, t) && LastGone(s, t)
  }

  lemma BeforeInTail(s: seq<CachedBlock>, x: CachedBlock, y: CachedBlock)
    requires s != [] && Before(s[1..], x, y)
    ensures Before(s, x, y)
  {
    var p, q :| 0 <= p < q < |s| - 1 && s[1..][p] == x && s[1..][q] == y;
    assert s[p + 1] == x && s[q + 1] == y;
  }

  lemma HeadBefore(s: seq<CachedBlock>, y: CachedBlock)
    requires s != [] && y in s[1..]
    ensures Before(s, s[0], y)
  {
    var q :| 0 <= q < |s| - 1 && s[1..][q] == y;
    assert s[0] == s[0] && s[q + 1] == y;
  }

  lemma {:induction false} UnloadedInOrder(s: seq<CachedBlock>)
    ensures InOrder(s, Unloaded(s))
  {
    hide Before;
    if s != [] {
      var t := Unloaded(s[1..]);
      UnloadedInOrder(s[1..]);
      UnloadedMembers(s[1..]);
      forall i, j | 0 <= i < j < |t|
        ensures Before(s, t[i], t[j])
      {
        BeforeInTail(s, t[i], t[j]);
      }
      forall j | 0 <= j < |t|
        ensures Before(s, s[0], t[j])
      {
        HeadBefore(s, t[j]);
      }
      OneInFront(s, s[0], t);
      assert [] + t == t;
    }
  }

  lemma OneInFront(s: seq<CachedBlock>, x: CachedBlock, t: seq<CachedBlock>)
    requires InOrder(s, t) && forall j | 0 <= j < |t| :: Before(s, x, t[j])
    ensures InOrder(s, [x] + t)
  {
    hide Before;
  }

  lemma EvictedInOrder(s: seq<CachedBlock>, k: nat)
    requires k <= |s|
    ensures InOrder(s, Evicted(s, k))
  {
    var t, c := Evicted(s, k), s[k..];
    var u := Unloaded(c);
    UnloadedInOrder(c);
    UnloadedMembers(c);
    forall i, j | 0 <= i < j < |t|
      ensures Before(s, t[i], t[j])
    {
      if j < k {
        assert t[i] == s[i] && t[j] == s[j];
      } else if i < k {
        assert t[j] == u[j - k] && u[j - k] in c;
        var q :| 0 <= q < |c| && c[q] == u[j - k];
        assert s[i] == t[i] && s[k + q] == t[j];
      } else {
        assert t[i] == u[i - k] && t[j] == u[j - k] && Before(c, u[i - k], u[j - k]);
        var p, q :| 0 <= p < q < |c| && c[p] == u[i - k] && c[q] == u[j - k];
        assert s[k + p] == t[i] && s[k + q] == t[j];
      }
    }
  }

  /** What is evicted are the least recently used loaded blocks. */
  lemma EvictedTail(s: seq<CachedBlock>, k: nat)
    requires OnePerNumber(s) && k <= |s|
    ensures TailGone(s, Evicted(s, k))
  {
    EvictedInOrder(s, k);
    UnloadedMembers(s[k..]);
    var t := Evicted(s, k);
    forall i | 0 <= i < |s| && (i < k || !s[i].loaded)
      ensures s[i] in t
    {
      assert if i < k then t[i] == s[i] else s[i] == s[k..][i - k];
    }
    forall j | k <= j < |s| && s[j].loaded
      ensures s[j] !in t
    {
      assert forall i | 0 <= i < k :: s[i].num != s[j].num;
    }
  }

  lemma EvictedDistinct(cached: seq<CachedBlock>, k: nat)
    requires OnePerNumber(cached) && k <= |cached|
    ensures OnePerNumber(Evicted(cached, k))
  {
    var a, c := cached[..k], cached[k..];
    UnloadedMembers(c);
    UnloadedDistinct(c);
    assert forall x, y :: x in a && y in c ==> x.num != y.num;
  }

  lemma BlockLoaded(cached: seq<CachedBlock>, i: nat, data: seq<Sector>)
    requires i < |cached| && OnePerNumber(cached) && !cached[i].loaded
    ensures OnePerNumber(cached[i := CachedBlock(cached[i].num, true, data)])
    ensures Loading(cached[i := CachedBlock(cached[i].num, true, data)]) == Loading(cached) - {cached[i].num}
  {
    var cached' := cached[i := CachedBlock(cached[i].num, true, data)];
    forall b | b in cached && !b.loaded && b.num != cached[i].num
      ensures b in cached'
    {
      var k :| 0 <= k < |cached| && cached[k] == b;
      assert cached'[k] == b;
    }
  }

  lemma UnloadedSplit(cached: seq<CachedBlock>, i: nat)
    requires i < |cached|
    ensures Unloaded(cached[i..]) == (if cached[i].loaded then [] else [cached[i]]) + Unloaded(cached[i + 1..])
  {
    assert cached[i..][0] == cached[i] && cached[i..][1..] == cached[i + 1..];
  }

  lemma NumbersDiffer(cached: seq<CachedBlock>, remote: seq<Sector>, bs: int, nb: int)
    requires Shape(remote, bs, nb) && CacheOk(cached, remote, bs, nb)
    ensures OnePerNumber(cached)
  {
    hide OnePerNumber;
  }

  /** A loading block goes in front. */
  lemma Fronted(orig: seq<CachedBlock>, kept: seq<CachedBlock>, remote: seq<Sector>, bs: int, nb: int, num: int)
    requires Shape(remote, bs, nb) && CacheOk(kept, remote, bs, nb) && 0 <= num < nb
    requires !HasBlock(orig, num) && forall b | b in kept :: b in orig
    ensures CacheOk([CachedBlock(num, false, [])] + kept, remote, bs, nb)
    ensures Loading([CachedBlock(num, false, [])] + kept) == Loading(kept) + {num}
    ensures (forall b | b in kept :: !b.loaded) ==>
              forall b | b in [CachedBlock(num, false, [])] + kept :: !b.loaded
  {
    hide BlockData;
    var front := CachedBlock(num, false, []);
    forall b | b in kept
      ensures b.num != num
    {
      assert b in orig;
    }
    assert forall b :: b in [front] + kept <==> b == front || b in kept;
  }

  /** Block `num` has been put in the cache or found there; loaded blocks may have gone, if there was no room. */
  ghost predicate Kept(a: seq<CachedBlock>, b: seq<CachedBlock>, num: int, max: int) {
    && HasBlock(b, num) && |b| <= |a| + 1
    && (forall m | HasBlock(b, m) :: m == num || HasBlock(a, m))
    && (forall m | HasLoaded(b, m) :: HasLoaded(a, m))
    && (forall m | HasBlock(a, m) :: HasBlock(b, m) || (HasLoaded(a, m) && |a| >= max))
  }

  lemma SameKept(a: seq<CachedBlock>, b: seq<CachedBlock>, num: int, max: int)
    requires HasBlock(a, num) && |b| == |a| && forall x :: x in b <==> x in a
    ensures Kept(a, b, num, max)
  {
    forall m
      ensures HasBlock(a, m) <==> HasBlock(b, m)
    {
      SameBlocks(a, b, m);
      SameBlocks(b, a, m);
    }
  }

  lemma SameBlocks(a: seq<CachedBlock>, b: seq<CachedBlock>, m: int)
    requires forall x | x in a :: x in b
    ensures HasBlock(a, m) ==> HasBlock(b, m)
  {
    if HasBlock(a, m) {
      var i :| 0 <= i < |a| && a[i].num == m;
      assert a[i] in b;
    }
  }

  lemma FrontKept(a: seq<CachedBlock>, b: seq<CachedBlock>, num: int, max: int)
    requires exists i: nat | i < |a| :: a[i].num == num && b == [a[i]] + a[..i] + a[i + 1..]
    ensures Kept(a, b, num, max) && |b| == |a| && forall x :: x in b <==> x in a
  {
    var i: nat :| i < |a| && a[i].num == num && b == [a[i]] + a[..i] + a[i + 1..];
    MoveToFrontMembers(a, i);
    assert b == MoveToFront(a, i);
    SameKept(a, b, num, max);
  }

  lemma AddedKept(a: seq<CachedBlock>, b: seq<CachedBlock>, num: int, max: int)
    requires b != [] && b[0] == CachedBlock(num, false, []) && TailGone(a, b[1..]) && |b| <= |a| + 1
    requires b[1..] == a || |a| >= max
    ensures Kept(a, b, num, max)
  {
    hide InOrder;
    var t := b[1..];
    assert b == [b[0]] + t;
    forall m | HasBlock(b, m) && m != num
      ensures HasBlock(a, m)
    {
      var i :| 0 <= i < |b| && b[i].num == m;
      assert b[i] == t[i - 1] && t[i - 1] in a;
    }
    forall m | HasBlock(a, m) && !(HasLoaded(a, m) && |a| >= max)
      ensures HasBlock(b, m)
    {
      var i :| 0 <= i < |a| && a[i].num == m;
      assert a[i] in t;
    }
  }

  /** After the blocks of a list have been looked up in turn, those that were missing having been asked for: what was
      not in the cache was asked for, and each is there unless it was loaded before and there was no room. */
  ghost predicate Prefetched(a: seq<CachedBlock>, b: seq<CachedBlock>, nums: seq<int>, tab: seq<Option<int>>,
      max: int) {
    && |tab| == |nums| && |b| <= |a| + |nums|
    && (forall m | HasBlock(b, m) :: HasBlock(a, m) || Some(m) in tab)
    && (forall m | HasLoaded(b, m) :: HasLoaded(a, m))
    && (forall i | 0 <= i < |nums| :: HasBlock(a, nums[i]) || Some(nums[i]) in tab[..i + 1])
    && (forall i | 0 <= i < |nums| && HasBlock(a, nums[i]) && tab[i].Some? :: Dropped(a, nums[i], i, max))
    && (forall i | 0 <= i < |nums| :: HasBlock(b, nums[i]) || Dropped(a, nums[i], |nums|, max))
    && (forall m | HasBlock(a, m) :: HasBlock(b, m) || Dropped(a, m, |nums|, max))
  }

  /** A block may have gone after `n` others have been looked up. */
  ghost predicate Dropped(a: seq<CachedBlock>, num: int, n: nat, max: int) {
    HasLoaded(a, num) && n > 0 && |a| + n > max
  }

  lemma NonePrefetched(a: seq<CachedBlock>, max: int)
    ensures Prefetched(a, a, [], [], max)
  {
  }

  lemma OneMorePrefetched(a: seq<CachedBlock>, b: seq<CachedBlock>, c: seq<CachedBlock>, nums: seq<int>,
                          tab: seq<Option<int>>, max: int, num: int)
    requires Prefetched(a, b, nums, tab, max) && Kept(b, c, num, max)
    ensures Prefetched(a, c, nums + [num], tab + [if HasBlock(b, num) then None else Some(num)], max)
  {
    hide HasBlock, HasLoaded;
    var t := tab + [if HasBlock(b, num) then None else Some(num)];
    assert t[..|tab|] == tab && t[..|nums| + 1] == t;
    forall i | 0 <= i < |nums|
      ensures HasBlock(a, nums[i]) || Some(nums[i]) in t[..i + 1]
    {
      assert tab[..i + 1] == t[..i + 1];
    }
  }

  /** A block has got its data where it was, and nothing else has changed. */
  ghost predicate Filled(a: seq<CachedBlock>, b: seq<CachedBlock>, num: int, data: seq<Sector>) {
    exists i: nat | i < |a| :: a[i].num == num && !a[i].loaded && b == a[i := CachedBlock(num, true, data)]
  }

  /** Exactly one callback for each finished request whose first call returned 1, none for any other. */
  ghost predicate CallbacksOk(callbacks: seq<nat>, asynchronous: set<nat>, waiting: bool, request: nat) {
    && (forall i, j :: 0 <= i < j < |callbacks| ==> callbacks[i] != callbacks[j])
    && (forall id :: id in callbacks <==> id in asynchronous && !(waiting && id == request))
    && (forall id :: id in asynchronous ==> id <= request)
    && (waiting ==> request in asynchronous)
  }

  lemma CallbackSteps(callbacks: seq<nat>, asynchronous: set<nat>, waiting: bool, request: nat)
    requires CallbacksOk(callbacks, asynchronous, waiting, request)
    ensures !waiting ==> CallbacksOk(callbacks, asynchronous, false, request + 1)
    ensures !waiting ==> CallbacksOk(callbacks, asynchronous + {request + 1}, true, request + 1)
    ensures waiting ==> CallbacksOk(callbacks + [request], asynchronous, false, request)
  {
  }

  class BlockDevice {
    const blockSize: int
    const nbBlocks: int
    const nCachedBlocksMax: int
    const remote: seq<Sector>            // what the server holds

    var cachedBlocks: seq<CachedBlock>
    var nCachedBlocks: int
    var clusters: seq<Option<Cluster>>

    // the current request
    var isWrite: bool
    var sectorNum: int
    var curBlockNum: int
    var sectorIndex: int
    var sectorCount: int
    var ioBuf: seq<Sector>

    var callbacks: seq<nat>              // requests whose completion callback has been called
    var request: nat                     // number of the latest request, standing for its callback and opaque pointer
    ghost var asynchronous: set<nat>     // requests whose first call returned 1
    var waiting: bool                    // the client has been told 1 and awaits the callback
    ghost var start: int
    ghost var before: seq<Option<Cluster>>
    ghost var history: seq<Done>

    ghost predicate Valid()
      reads this
    {
      && CacheValid()
      && ClustersOk(clusters, remote)
      && Recorded()
      && (if waiting then InRequest() && Waits() else Idle())
      && CallbacksOk(callbacks, asynchronous, waiting, request)
    }

    ghost predicate CacheValid()
      reads this`cachedBlocks, this`nCachedBlocks
    {
      && Shape(remote, blockSize, nbBlocks)
      && 1 <= nCachedBlocksMax
      && CacheOk(cachedBlocks, remote, blockSize, nbBlocks)
      && nCachedBlocks == |cachedBlocks|
    }

    /** The history is consistent and, at the start of the latest request, described the device. */
    ghost predicate Recorded()
      reads this`before, this`history
    {
      && ClustersOk(before, remote)
      && HistoryOk(remote, blockSize, history)
      && View(before, remote) == Replay(remote, history)
    }

    ghost predicate InRequest()
      reads this`clusters, this`before, this`isWrite, this`ioBuf, this`start, this`sectorIndex, this`sectorNum,
          this`sectorCount
    {
      && sectorCount == |ioBuf| && sectorNum == start + sectorIndex
      && (if isWrite then WriteProgress(clusters, before, remote, ioBuf, start, sectorIndex)
          else clusters == before && ReadProgress(clusters, remote, blockSize, ioBuf, start, sectorIndex))
    }

    /** The latest request stopped at a sector of a block still loading. */
    ghost predicate Waits()
      reads this`clusters, this`cachedBlocks, this`sectorIndex, this`sectorCount, this`sectorNum, this`curBlockNum
    {
      && sectorIndex < sectorCount && blockSize > 0
      && !Written(clusters, sectorNum)
      && curBlockNum == sectorNum / blockSize
      && curBlockNum in Loading(cachedBlocks)
    }

    /** No arriving block resumes a finished request, even if `curBlockNum` is left over from a write. */
    ghost predicate Idle()
      reads this`clusters, this`before, this`cachedBlocks, this`curBlockNum
    {
      clusters == before && curBlockNum !in Loading(cachedBlocks)
    }

    constructor (image: seq<Sector>, blockSize: int, nbBlocks: int, nCachedBlocksMax: int)
      requires blockSize >= SECTORS_PER_CLUSTER && PowerOfTwo(blockSize) && nbBlocks > 0 && nCachedBlocksMax >= 1
      requires |image| == blockSize * nbBlocks
      ensures Valid() && !waiting && history == [] && callbacks == [] && remote == image && this.blockSize == blockSize
      ensures this.nbBlocks == nbBlocks && this.nCachedBlocksMax == nCachedBlocksMax
      ensures cachedBlocks == [] && curBlockNum == -1
    {
      BlockIsWholeClusters(blockSize);
      MulShift(0, nbBlocks, blockSize);
      assert Shape(image, blockSize, nbBlocks);
      WholeClusters(image, blockSize, nbBlocks);
      this.blockSize, this.nbBlocks, this.nCachedBlocksMax, remote := blockSize, nbBlocks, nCachedBlocksMax, image;
      cachedBlocks, nCachedBlocks := [], 0;
      clusters := seq(blockSize * nbBlocks / SECTORS_PER_CLUSTER, c => None);
      isWrite, sectorNum, curBlockNum, sectorIndex, sectorCount, ioBuf := false, 0, -1, 0, 0, [];
      callbacks, request, asynchronous, waiting := [], 0, {}, false;
      start, history := 0, [];
      before := seq(blockSize * nbBlocks / SECTORS_PER_CLUSTER, c => None);
      new;
      FreshView(clusters, image);
    }

    /** Look a block up and make it the most recently used. */
    method FindBlock(num: int) returns (found: bool)
      requires CacheValid()
      modifies this`cachedBlocks
      ensures CacheValid() && Loading(cachedBlocks) == Loading(old(cachedBlocks))
      ensures found <==> HasBlock(old(cachedBlocks), num)
      ensures found ==> cachedBlocks[0].num == num
      ensures HasLoaded(old(cachedBlocks), num) <==> found && cachedBlocks[0].loaded
      ensures if found
              then exists i: nat | i < |old(cachedBlocks)| ::
                     && old(cachedBlocks)[i].num == num
                     && cachedBlocks == [old(cachedBlocks)[i]] + old(cachedBlocks)[..i] + old(cachedBlocks)[i + 1..]
              else cachedBlocks == old(cachedBlocks)
    {
      for i := 0 to |cachedBlocks|
        invariant cachedBlocks == old(cachedBlocks)
        invariant forall k :: 0 <= k < i ==> cachedBlocks[k].num != num
      {
        if cachedBlocks[i].num == num {
          MoveToFrontMembers(cachedBlocks, i);
          MoveToFrontDistinct(cachedBlocks, i);
          cachedBlocks := MoveToFront(cachedBlocks, i);
          return true;
        }
      }
      return false;
    }

    /** Make room, least recently used loaded blocks first, and put a loading block in front. Loading blocks are
        never given up, no more are than needed, and the limit is passed only if every block is loading. */
    method AddBlock(num: int)
      requires CacheValid() && 0 <= num < nbBlocks && !HasBlock(cachedBlocks, num)
      modifies this`cachedBlocks, this`nCachedBlocks
      ensures CacheValid()
      ensures cachedBlocks != [] && cachedBlocks[0] == CachedBlock(num, false, [])
      ensures TailGone(old(cachedBlocks), cachedBlocks[1..])
      ensures cachedBlocks[1..] == old(cachedBlocks)
              || (|old(cachedBlocks)| >= nCachedBlocksMax && |cachedBlocks| >= nCachedBlocksMax)
      ensures |cachedBlocks| <= nCachedBlocksMax || forall b :: b in cachedBlocks ==> !b.loaded
      ensures |cachedBlocks| <= |old(cachedBlocks)| + 1
      ensures Loading(cachedBlocks) == Loading(old(cachedBlocks)) + {num}
    {
      hide BlockData, Evicted, CacheOk, Shape, TailGone, HasBlock, Loading;
      ghost var k := MakeRoom();
      NumbersDiffer(old(cachedBlocks), remote, blockSize, nbBlocks);
      EvictedKeeps(old(cachedBlocks), k, remote, blockSize, nbBlocks);
      EvictedTail(old(cachedBlocks), k);
      ghost var kept := cachedBlocks;
      Fronted(old(cachedBlocks), kept, remote, blockSize, nbBlocks, num);
      cachedBlocks := [CachedBlock(num, false, [])] + cachedBlocks;
      assert cachedBlocks[1..] == kept;
      nCachedBlocks := nCachedBlocks + 1;
    }

    method MakeRoom() returns (ghost k: nat)
      requires CacheValid()
      modifies this`cachedBlocks, this`nCachedBlocks
      ensures k <= |old(cachedBlocks)| && cachedBlocks == Evicted(old(cachedBlocks), k)
      ensures nCachedBlocks == |cachedBlocks| <= |old(cachedBlocks)|
      ensures |cachedBlocks| < nCachedBlocksMax || forall b :: b in cachedBlocks ==> !b.loaded
      ensures cachedBlocks == old(cachedBlocks)
              || (|old(cachedBlocks)| >= nCachedBlocksMax && |cachedBlocks| >= nCachedBlocksMax - 1)
    {
      hide CacheOk, Shape;
      ghost var orig := cachedBlocks;
      k := |orig|;
      if nCachedBlocks >= nCachedBlocksMax {
        var i := |cachedBlocks|;
        while i > 0
          invariant 0 <= i <= |orig| && k == i
          invariant cachedBlocks == Evicted(orig, i) && nCachedBlocks == |cachedBlocks| >= nCachedBlocksMax
        {
          i := i - 1;
          k := i;
          UnloadedSplit(orig, i);
          if cachedBlocks[i].loaded {
            cachedBlocks := cachedBlocks[..i] + cachedBlocks[i + 1..];
            nCachedBlocks := nCachedBlocks - 1;
            if nCachedBlocks < nCachedBlocksMax {
              return;
            }
          }
        }
        UnloadedMembers(orig);
        assert Evicted(orig, 0) == Unloaded(orig);
      }
    }

    lemma RequestFits()
      requires InRequest()
      ensures 0 <= sectorIndex <= sectorCount && 0 <= start && start + |ioBuf| <= |remote|
    {
    }

    /** Sectors of a written cluster, up to its end. */
    method ClusterSegment()
      requires Shape(remote, blockSize, nbBlocks) && InRequest()
      requires sectorIndex < sectorCount && Written(clusters, sectorNum)
      modifies this`clusters, this`ioBuf, this`sectorIndex, this`sectorNum
      ensures InRequest() && sectorIndex > old(sectorIndex) && ClustersOk(clusters, remote)
      ensures isWrite ==> ioBuf == old(ioBuf)
    {
      hide Disk, Shadowed;
      var n := Min(sectorCount - sectorIndex, SECTORS_PER_CLUSTER - sectorNum % SECTORS_PER_CLUSTER);
      if isWrite {
        CopyIn(n);
      } else {
        CopyOut(n);
      }
      sectorIndex := sectorIndex + n;
      sectorNum := sectorNum + n;
    }

    method CopyIn(n: int)
      requires Shape(remote, blockSize, nbBlocks) && InRequest()
      requires isWrite && sectorIndex < sectorCount && Written(clusters, sectorNum)
      requires n == Min(sectorCount - sectorIndex, SECTORS_PER_CLUSTER - sectorNum % SECTORS_PER_CLUSTER)
      modifies this`clusters
      ensures WriteProgress(clusters, before, remote, ioBuf, start, sectorIndex + n)
    {
      hide SectorsWritten, ClustersAdded, Copy, ReadProgress;
      var c, offset := sectorNum / SECTORS_PER_CLUSTER, sectorNum % SECTORS_PER_CLUSTER;
      WriteToCluster(clusters, before, remote, ioBuf, start, sectorIndex);
      clusters := clusters[c := Some(Copy(clusters[c].value, offset, ioBuf, sectorIndex, n))];
    }

    method CopyOut(n: int)
      requires Shape(remote, blockSize, nbBlocks) && InRequest()
      requires !isWrite && sectorIndex < sectorCount && Written(clusters, sectorNum)
      requires n == Min(sectorCount - sectorIndex, SECTORS_PER_CLUSTER - sectorNum % SECTORS_PER_CLUSTER)
      modifies this`ioBuf
      ensures ReadProgress(clusters, remote, blockSize, ioBuf, start, sectorIndex + n) && |ioBuf| == sectorCount
    {
      var c, offset := sectorNum / SECTORS_PER_CLUSTER, sectorNum % SECTORS_PER_CLUSTER;
      ghost var was := ioBuf;
      ioBuf := Copy(ioBuf, sectorIndex, clusters[c].value, offset, n);
      ReadFromCluster(clusters, remote, blockSize, nbBlocks, was, ioBuf, start, sectorIndex, n);
    }

    /** A new cluster, with the cached block's data, for the next sector to be written. */
    method AllocateSegment()
      requires CacheValid() && InRequest()
      requires isWrite && sectorIndex < sectorCount && !Written(clusters, sectorNum)
      requires |cachedBlocks| > 0 && cachedBlocks[0].num == sectorNum / blockSize && cachedBlocks[0].loaded
      modifies this`clusters
      ensures InRequest() && Written(clusters, sectorNum) && ClustersOk(clusters, remote)
    {
      var clusterNum := sectorNum / SECTORS_PER_CLUSTER;
      // the source masks; blockSize is a power of two
      var clusterOffset := clusterNum * SECTORS_PER_CLUSTER % blockSize;
      AllocateCluster(clusters, before, remote, ioBuf, start, sectorIndex);
      ClusterOfBlock(remote, blockSize, nbBlocks, sectorNum);
      assert cachedBlocks[0] in cachedBlocks;
      clusters := clusters[clusterNum :=
        Some(cachedBlocks[0].data[clusterOffset..clusterOffset + SECTORS_PER_CLUSTER])];
    }

    /** Sectors of a loaded block, up to its end. */
    method BlockSegment()
      requires CacheValid() && InRequest()
      requires !isWrite && sectorIndex < sectorCount && !Written(clusters, sectorNum)
      requires |cachedBlocks| > 0 && cachedBlocks[0].num == sectorNum / blockSize && cachedBlocks[0].loaded
      modifies this`ioBuf, this`sectorIndex, this`sectorNum
      ensures InRequest() && sectorIndex > old(sectorIndex)
    {
      hide BlockData, ReadProgress, WriteProgress, Disk;
      var offset := sectorNum % blockSize;
      var n := Min(sectorCount - sectorIndex, blockSize - offset);
      RequestFits();
      assert cachedBlocks[0] in cachedBlocks;
      SectorsOfBlock(remote, blockSize, nbBlocks, sectorNum, n);
      ghost var was := ioBuf;
      ioBuf := Copy(ioBuf, sectorIndex, cachedBlocks[0].data, offset, n);
      ReadFromBlock(clusters, remote, blockSize, nbBlocks, was, ioBuf, start, sectorIndex, n);
      sectorIndex := sectorIndex + n;
      sectorNum := sectorNum + n;
    }

    /** The next sector can be served without waiting. */
    ghost predicate Ready()
      reads this`clusters, this`sectorNum, this`cachedBlocks
      requires blockSize > 0
    {
      Written(clusters, sectorNum) || HasLoaded(cachedBlocks, sectorNum / blockSize)
    }

    /** The next sector has no cluster: use its cached block, or have it loaded. */
    method BlockOrWait() returns (wait: bool)
      requires CacheValid() && InRequest() && ClustersOk(clusters, remote)
      requires sectorIndex < sectorCount && !Written(clusters, sectorNum)
      modifies this`clusters, this`ioBuf, this`sectorIndex, this`sectorNum, this`curBlockNum,
               this`cachedBlocks, this`nCachedBlocks
      ensures CacheValid() && InRequest() && ClustersOk(clusters, remote)
      ensures Loading(cachedBlocks) == Loading(old(cachedBlocks)) + if wait then {curBlockNum} else {}
      ensures wait ==> Waits() && sectorIndex == old(sectorIndex) && sectorNum == old(sectorNum)
      ensures !wait ==> curBlockNum !in Loading(cachedBlocks)
      ensures !wait ==> sectorIndex > old(sectorIndex)
                        || (sectorIndex == old(sectorIndex) && Written(clusters, sectorNum))
      ensures wait ==> !HasLoaded(old(cachedBlocks), sectorNum / blockSize)
      ensures isWrite ==> ioBuf == old(ioBuf)
    {
      hide BlockData, ReadProgress, WriteProgress, CacheOk, ClustersOk;
      RequestFits();
      ClusterInBlock(blockSize, nbBlocks, sectorNum, sectorNum / SECTORS_PER_CLUSTER);
      curBlockNum := sectorNum / blockSize;
      var found := FindBlock(curBlockNum);
      if !found {
        AddBlock(curBlockNum);
        return true;
      }
      FrontBlock();
      if !cachedBlocks[0].loaded {
        return true;
      }
      if isWrite {
        AllocateSegment();
      } else {
        BlockSegment();
        curBlockNum := -1;
      }
      return false;
    }

    /** The front entry is the only one with its number, and no entry has number -1. */
    lemma FrontBlock()
      requires CacheValid() && |cachedBlocks| > 0
      ensures cachedBlocks[0].num in Loading(cachedBlocks) <==> !cachedBlocks[0].loaded
      ensures -1 !in Loading(cachedBlocks)
    {
      assert cachedBlocks[0] in cachedBlocks;
    }

    /** Serve the request until it is done (0) or has to wait for a block (1). */
    method RwAsync1(isSync: bool) returns (ret: int)
      requires CacheValid() && ClustersOk(clusters, remote) && InRequest()
      requires blockSize > 0 && curBlockNum !in Loading(cachedBlocks)
      modifies this`clusters, this`ioBuf, this`sectorIndex, this`sectorNum, this`curBlockNum,
               this`cachedBlocks, this`nCachedBlocks, this`callbacks
      ensures CacheValid() && ClustersOk(clusters, remote) && InRequest()
      ensures if ret == 0 then sectorIndex == sectorCount && curBlockNum !in Loading(cachedBlocks)
              else ret == 1 && Waits()
      ensures Loading(cachedBlocks) == Loading(old(cachedBlocks)) + if ret == 1 then {curBlockNum} else {}
      ensures sectorIndex >= old(sectorIndex)
      ensures old(Ready()) && old(sectorIndex) < sectorCount ==> sectorIndex > old(sectorIndex)
      ensures isWrite ==> ioBuf == old(ioBuf)
      ensures callbacks == old(callbacks) + (if ret == 0 && !isSync then [request] else [])
    {
      hide CacheValid, Shape, InRequest, Written, ClustersOk;
      while true
        invariant CacheValid() && ClustersOk(clusters, remote) && InRequest()
        invariant Loading(cachedBlocks) == Loading(old(cachedBlocks))
        invariant callbacks == old(callbacks) && sectorIndex >= old(sectorIndex)
        invariant curBlockNum !in Loading(cachedBlocks)
        invariant isWrite ==> ioBuf == old(ioBuf)
        invariant old(Ready()) && sectorIndex == old(sectorIndex) ==> Ready()
        decreases sectorCount - sectorIndex, !Written(clusters, sectorNum)
      {
        InRequestFacts();
        if sectorCount - sectorIndex == 0 {
          break;
        }
        if Written(clusters, sectorNum) {
          ClusterSegment();
        } else {
          var wait := BlockOrWait();
          if wait {
            return 1;
          }
        }
        InRequestFacts();
      }
      if !isSync {
        callbacks := callbacks + [request];
      }
      return 0;
    }

    lemma InRequestFacts()
      requires CacheValid() && InRequest()
      ensures Shape(remote, blockSize, nbBlocks) && blockSize > 0 && 0 <= sectorIndex <= sectorCount == |ioBuf|
    {
    }

    /** Start a read. 0: done, the data is in `ioBuf`; 1: the callback will say so later. */
    method ReadAsync(sector: int, buf: seq<Sector>) returns (ret: int)
      requires Valid() && !waiting && 0 <= sector && sector + |buf| <= |remote|
      modifies this
      ensures Valid() && start == sector && sectorCount == |buf| && !isWrite
      ensures ret == if waiting then 1 else 0
      ensures ret == 0 ==> history == old(history) + [DidRead(sector, ioBuf)] && |ioBuf| == |buf|
      ensures ret == 1 ==> history == old(history)
      ensures callbacks == old(callbacks)
      ensures Loading(cachedBlocks) == Loading(old(cachedBlocks)) + if waiting then {curBlockNum} else {}
    {
      isWrite, start := false, sector;
      ret := Begin(sector, buf);
    }

    /** Start a write. */
    method WriteAsync(sector: int, buf: seq<Sector>) returns (ret: int)
      requires Valid() && !waiting && 0 <= sector && sector + |buf| <= |remote|
      modifies this
      ensures Valid() && start == sector && ioBuf == buf && isWrite
      ensures ret == if waiting then 1 else 0
      ensures history == old(history) + (if ret == 0 then [DidWrite(sector, buf)] else [])
      ensures callbacks == old(callbacks)
      ensures Loading(cachedBlocks) == Loading(old(cachedBlocks)) + if waiting then {curBlockNum} else {}
    {
      isWrite, start := true, sector;
      ret := Begin(sector, buf);
    }

    method Begin(sector: int, buf: seq<Sector>) returns (ret: int)
      requires Valid() && !waiting
      requires start == sector && 0 <= sector && sector + |buf| <= |remote|
      modifies this`sectorNum, this`ioBuf, this`sectorCount, this`sectorIndex, this`request, this`clusters,
               this`curBlockNum, this`cachedBlocks, this`nCachedBlocks, this`callbacks, this`waiting,
               this`asynchronous, this`before, this`history
      ensures Valid() && sectorCount == |buf| && |ioBuf| == |buf|
      ensures ret == if waiting then 1 else 0
      ensures isWrite ==> ioBuf == buf
      ensures history == old(history) + (if ret == 0 then [Outcome()] else [])
      ensures callbacks == old(callbacks)
      ensures Loading(cachedBlocks) == Loading(old(cachedBlocks)) + if waiting then {curBlockNum} else {}
    {
      hide ClustersOk, InRequest, Recorded, CacheValid, Shape, CallbacksOk, Waits, Loading;
      CallbackSteps(callbacks, asynchronous, waiting, request);
      sectorNum := sector;
      ioBuf := buf;
      sectorCount := |buf|;
      sectorIndex := 0;
      request := request + 1;
      StartsInRequest();
      InRequestFacts();
      ret := RwAsync1(true);
      assert callbacks == old(callbacks);
      InRequestFacts();
      Settle(ret);
    }

    /** The bookkeeping after the first call of a request. */
    method Settle(ret: int)
      requires CacheValid() && ClustersOk(clusters, remote) && Recorded() && InRequest() && !waiting
               && sectorCount == |ioBuf|
      requires CallbacksOk(callbacks, asynchronous, false, request)
      requires CallbacksOk(callbacks, asynchronous + {request}, true, request)
      requires if ret == 0 then sectorIndex == sectorCount && curBlockNum !in Loading(cachedBlocks)
               else ret == 1 && Waits()
      modifies this`waiting, this`asynchronous, this`before, this`history
      ensures Valid() && waiting == (ret == 1)
      ensures history == old(history) + (if ret == 0 then [Outcome()] else [])
    {
      hide ClustersOk, InRequest, Recorded, CacheValid, CallbacksOk, Waits, Loading;
      if ret == 0 {
        Record();
      } else {
        waiting := true;
        asynchronous := asynchronous + {request};
      }
    }

    lemma StartsInRequest()
      requires CacheValid() && ClustersOk(clusters, remote) && clusters == before
      requires sectorIndex == 0 && sectorCount == |ioBuf| && sectorNum == start && 0 <= start
               && start + |ioBuf| <= |remote|
      ensures InRequest()
    {
    }

    ghost function Outcome(): Done
      reads this`isWrite, this`start, this`ioBuf
    {
      if isWrite then DidWrite(start, ioBuf) else DidRead(start, ioBuf)
    }

    /** A finished request joins the history. */
    ghost method Record()
      requires ClustersOk(clusters, remote) && Recorded() && InRequest() && sectorIndex == sectorCount
      modifies this`before, this`history
      ensures Recorded() && before == clusters
      ensures history == old(history) + [Outcome()]
    {
      hide Disk, Replay, AfterWrite;
      if isWrite {
        WriteFinished(clusters, before, remote, ioBuf, start);
      } else {
        ReadFinished(clusters, remote, blockSize, ioBuf, start);
      }
      HistoryGrows(remote, blockSize, history, Outcome());
      history := history + [Outcome()];
      before := clusters;
    }

    /** The server's answer for a block arrives; a request waiting for exactly this block goes on, and gets
        further. Every other load in flight stays in flight. */
    method OnLoad(num: int, data: seq<Sector>)
      requires Valid() && num in Loading(cachedBlocks) && 0 <= num < nbBlocks
      requires data == BlockData(remote, blockSize, nbBlocks, num)
      modifies this
      ensures Valid()
      ensures Loading(cachedBlocks) == Loading(old(cachedBlocks)) - {num} + if waiting then {curBlockNum} else {}
      ensures start == old(start) && isWrite == old(isWrite) && sectorCount == old(sectorCount)
              && request == old(request)
      ensures !old(waiting) ==> !waiting
      ensures isWrite ==> ioBuf == old(ioBuf)
      ensures old(waiting) ==> |ioBuf| == sectorCount
      ensures if old(waiting) && num == old(curBlockNum)
              then sectorIndex > old(sectorIndex) && (waiting || sectorIndex == sectorCount)
              else waiting == old(waiting) && sectorIndex == old(sectorIndex) && curBlockNum == old(curBlockNum)
                   && Filled(old(cachedBlocks), cachedBlocks, num, data)
      ensures if waiting == old(waiting)
              then history == old(history) && callbacks == old(callbacks)
              else history == old(history) + [Outcome()] && callbacks == old(callbacks) + [request]
    {
      hide CallbacksOk, InRequest, Recorded, ClustersOk, BlockData;
      ghost var awaited := waiting;
      if awaited { AwaitedInRange(); }
      UpdateBlock(num, data);
      if num == curBlockNum {
        Resume();
      }
    }

    method UpdateBlock(num: int, data: seq<Sector>)
      requires CacheValid() && num in Loading(cachedBlocks) && 0 <= num < nbBlocks
      requires data == BlockData(remote, blockSize, nbBlocks, num)
      modifies this`cachedBlocks
      ensures CacheValid() && Loading(cachedBlocks) == Loading(old(cachedBlocks)) - {num}
      ensures HasLoaded(cachedBlocks, num) && Filled(old(cachedBlocks), cachedBlocks, num, data)
    {
      ghost var w :| 0 <= w < |cachedBlocks| && cachedBlocks[w].num == num && !cachedBlocks[w].loaded;
      var i := 0;
      while cachedBlocks[i].loaded || cachedBlocks[i].num != num
        invariant 0 <= i <= w
        decreases w - i
      {
        i := i + 1;
      }
      BlockLoaded(cachedBlocks, i, data);
      cachedBlocks := cachedBlocks[i := CachedBlock(num, true, data)];
      assert cachedBlocks[i] in cachedBlocks;
    }

    /** The waiting request goes on. */
    method Resume()
      requires CacheValid() && ClustersOk(clusters, remote) && Recorded() && InRequest() && waiting
      requires sectorIndex < sectorCount && blockSize > 0 && Ready() && curBlockNum !in Loading(cachedBlocks)
      requires CallbacksOk(callbacks, asynchronous, waiting, request)
      modifies this`sectorNum, this`ioBuf, this`sectorIndex, this`clusters, this`curBlockNum, this`cachedBlocks,
               this`nCachedBlocks, this`callbacks, this`waiting, this`before, this`history
      ensures Valid()
      ensures Loading(cachedBlocks) == Loading(old(cachedBlocks)) + if waiting then {curBlockNum} else {}
      ensures sectorIndex > old(sectorIndex) && (waiting || sectorIndex == sectorCount)
      ensures |ioBuf| == sectorCount && (isWrite ==> ioBuf == old(ioBuf))
      ensures if waiting then history == old(history) && callbacks == old(callbacks)
              else history == old(history) + [Outcome()] && callbacks == old(callbacks) + [request]
    {
      hide CallbacksOk, InRequest, Recorded, ClustersOk, CacheValid, Waits, Loading, Ready;
      CallbackSteps(callbacks, asynchronous, waiting, request);
      var ret := RwAsync1(false);
      InRequestFacts();
      if ret == 0 {
        Record();
        waiting := false;
      } else {
        assert callbacks == old(callbacks);
      }
    }

    /** Ask for a group of blocks before the first request; `tab` names the ones this load will fill. */
    method StartLoadPrefetchGroup(nums: seq<int>) returns (tab: seq<Option<int>>)
      requires Valid() && !waiting && curBlockNum == -1
      requires forall i :: 0 <= i < |nums| ==> 0 <= nums[i] < nbBlocks
      modifies this`cachedBlocks, this`nCachedBlocks
      ensures Valid() && !waiting && curBlockNum == -1 && |tab| == |nums|
      ensures Loading(old(cachedBlocks)) <= Loading(cachedBlocks)
      ensures forall i :: 0 <= i < |tab| && tab[i].Some? ==>
                tab[i].value == nums[i] && nums[i] in Loading(cachedBlocks) && nums[i] !in Loading(old(cachedBlocks))
      ensures forall i, k :: 0 <= i < k < |tab| && tab[i].Some? ==> tab[i] != tab[k]
      ensures Prefetched(old(cachedBlocks), cachedBlocks, nums, tab, nCachedBlocksMax)
      ensures forall m | m in Loading(cachedBlocks) :: m in Loading(old(cachedBlocks)) || Some(m) in tab
      ensures (exists i :: 0 <= i < |tab| && tab[i].Some?) ==>
                |cachedBlocks| <= nCachedBlocksMax || forall b | b in cachedBlocks :: !b.loaded
    {
      hide CallbacksOk, Recorded, ClustersOk, Prefetched, Kept, Loading;
      tab := [];
      NonePrefetched(cachedBlocks, nCachedBlocksMax);
      assert nums[..0] == [];
      for i := 0 to |nums|
        invariant Valid() && !waiting && curBlockNum == -1 && |tab| == i
        invariant Loading(old(cachedBlocks)) <= Loading(cachedBlocks)
        invariant forall k :: 0 <= k < i && tab[k].Some? ==>
                    tab[k].value == nums[k] && nums[k] in Loading(cachedBlocks)
                        && nums[k] !in Loading(old(cachedBlocks))
        invariant forall m, k :: 0 <= m < k < i && tab[m].Some? ==> tab[m] != tab[k]
        invariant Prefetched(old(cachedBlocks), cachedBlocks, nums[..i], tab, nCachedBlocksMax)
        invariant forall m | m in Loading(cachedBlocks) :: m in Loading(old(cachedBlocks)) || Some(m) in tab
        invariant (exists k :: 0 <= k < i && tab[k].Some?) ==>
                    |cachedBlocks| <= nCachedBlocksMax || forall b | b in cachedBlocks :: !b.loaded
      {
        ghost var c := cachedBlocks;
        var added := LoadUnlessCached(nums[i]);
        OneMorePrefetched(old(cachedBlocks), c, cachedBlocks, nums[..i], tab, nCachedBlocksMax, nums[i]);
        assert nums[..i + 1] == nums[..i] + [nums[i]];
        tab := tab + [if added then Some(nums[i]) else None];
      }
      assert nums[..|nums|] == nums;
    }

    method LoadUnlessCached(num: int) returns (added: bool)
      requires CacheValid() && 0 <= num < nbBlocks
      modifies this`cachedBlocks, this`nCachedBlocks
      ensures CacheValid()
      ensures added ==> num !in Loading(old(cachedBlocks))
      ensures Loading(cachedBlocks) == Loading(old(cachedBlocks)) + (if added then {num} else {})
      ensures added <==> !HasBlock(old(cachedBlocks), num)
      ensures Kept(old(cachedBlocks), cachedBlocks, num, nCachedBlocksMax)
      ensures if added then |cachedBlocks| <= nCachedBlocksMax || forall b | b in cachedBlocks :: !b.loaded
              else |cachedBlocks| == |old(cachedBlocks)| && forall b :: b in cachedBlocks <==> b in old(cachedBlocks)
    {
      hide CacheValid, TailGone;
      var found := FindBlock(num);
      if found {
        FrontKept(old(cachedBlocks), cachedBlocks, num, nCachedBlocksMax);
      } else {
        ghost var c := cachedBlocks;
        AddBlock(num);
        AddedKept(c, cachedBlocks, num, nCachedBlocksMax);
      }
      return !found;
    }

    /** The group arrives: every block it was to fill is still there, loading, whatever was evicted meanwhile. */
    method OnGroupLoad(tab: seq<Option<int>>, data: seq<seq<Sector>>)
      requires Valid() && |data| == |tab|
      requires forall i :: 0 <= i < |tab| && tab[i].Some? ==>
                 && tab[i].value in Loading(cachedBlocks) && 0 <= tab[i].value < nbBlocks
                 && data[i] == BlockData(remote, blockSize, nbBlocks, tab[i].value)
      requires forall i, k :: 0 <= i < k < |tab| && tab[i].Some? ==> tab[i] != tab[k]
      modifies this
      ensures AllAsked(history) + Pending() == old(AllAsked(history) + Pending())
      ensures forall i :: 0 <= i < |tab| && tab[i].Some? ==>
                tab[i].value !in Loading(cachedBlocks) || (waiting && curBlockNum == tab[i].value)
      ensures Valid()
    {
      hide CacheValid, CallbacksOk, ClustersOk, InRequest, Recorded, AllAsked, BlockData;
      for i := 0 to |tab|
        invariant AllAsked(history) + Pending() == old(AllAsked(history) + Pending())
        invariant Valid()
        invariant forall k :: i <= k < |tab| && tab[k].Some? ==> tab[k].value in Loading(cachedBlocks)
        invariant forall k :: 0 <= k < i && tab[k].Some? ==>
                    tab[k].value !in Loading(cachedBlocks) || (waiting && curBlockNum == tab[k].value)
      {
        if tab[i].Some? {
          ghost var was := history;
          OnLoad(tab[i].value, data[i]);
          OneMoreAsked(was, Outcome());
        }
      }
    }

    /** The awaited blocks arrive one after the other until the request is done. */
    method Complete()
      requires Valid() && waiting
      modifies this
      ensures Valid() && !waiting
      ensures history == old(history) + [Outcome()] && callbacks == old(callbacks) + [request]
      ensures start == old(start) && isWrite == old(isWrite) && sectorCount == old(sectorCount)
              && request == old(request)
      ensures |ioBuf| == sectorCount && (isWrite ==> ioBuf == old(ioBuf))
    {
      hide CallbacksOk, InRequest, Recorded, ClustersOk, BlockData;
      AwaitedInRange();
      while waiting
        invariant Valid() && |ioBuf| == sectorCount && (isWrite ==> ioBuf == old(ioBuf))
        invariant start == old(start) && isWrite == old(isWrite) && sectorCount == old(sectorCount)
                  && request == old(request)
        invariant if waiting then history == old(history) && callbacks == old(callbacks)
                  else history == old(history) + [Outcome()] && callbacks == old(callbacks) + [request]
        decreases waiting, sectorCount - sectorIndex
      {
        AwaitedInRange();
        OnLoad(curBlockNum, BlockData(remote, blockSize, nbBlocks, curBlockNum));
      }
    }

    lemma AwaitedInRange()
      requires Valid() && waiting
      ensures Shape(remote, blockSize, nbBlocks) && curBlockNum in Loading(cachedBlocks) && 0 <= curBlockNum < nbBlocks
      ensures sectorIndex <= sectorCount == |ioBuf|
    {
    }

    /** The device as the completed requests have left it. */
    ghost function Now(): Flat
      requires HistoryInRange(remote, history)
      reads this`history
    {
      Replay(remote, history)
    }

    lemma ValidShape()
      requires Valid()
      ensures Shape(remote, blockSize, nbBlocks) && blockSize > 0
      ensures HistoryOk(remote, blockSize, history) && HistoryInRange(remote, history)
    {
    }

    /** A read served to its end, with whatever waits and evictions that takes. */
    method ReadDisk(sector: int, buf: seq<Sector>) returns (data: seq<Sector>)
      requires Valid() && !waiting && 0 <= sector && sector + |buf| <= |remote|
      modifies this
      ensures Valid() && !waiting && |data| == |buf|
      ensures history == old(history) + [DidRead(sector, data)] && Now() == old(Now())
      ensures IsRead(Now(), remote, blockSize, sector, data)
      ensures !RunsIntoWritten(Now().written, blockSize, sector, |buf|) ==> data == Now().disk[sector..sector + |buf|]
    {
      hide Valid, HistoryOk, HistoryInRange, IsRead, RunsIntoWritten, Replay, FlatOk;
      ValidShape();
      ghost var h := history;
      var ret := ReadAsync(sector, buf);
      if ret != 0 {
        Complete();
      }
      ValidShape();
      data := ioBuf;
      ValidShape();
      LastRead(remote, blockSize, h, sector, data);
    }

    /** A write served to its end: the device is the flat array with exactly these sectors replaced. */
    method WriteDisk(sector: int, data: seq<Sector>)
      requires Valid() && !waiting && 0 <= sector && sector + |data| <= |remote|
      modifies this
      ensures Valid() && !waiting
      ensures history == old(history) + [DidWrite(sector, data)] && Now() == AfterWrite(old(Now()), sector, data)
    {
      hide CacheValid, CallbacksOk, ClustersOk, InRequest, IsRead;
      var ret := WriteAsync(sector, data);
      if ret != 0 {
        Complete();
      }
      assert history[..|history| - 1] == old(history);
    }

    /** Whatever has happened before, what is written is read back. */
    method WriteThenRead(sector: int, data: seq<Sector>, buf: seq<Sector>) returns (back: seq<Sector>)
      requires Valid() && !waiting && 0 <= sector && sector + |data| <= |remote| && |buf| == |data|
      modifies this
      ensures Valid() && !waiting && back == data
    {
      hide Replay, CacheValid, CallbacksOk, ClustersOk, IsRead;
      ValidShape();
      JustWritten(Now(), remote, blockSize, sector, data);
      WriteDisk(sector, data);
      back := ReadDisk(sector, buf);
    }

    /** A cluster is overwritten, and a read from the unwritten cluster before it, in the same block, brings the old
        sectors back. */
    method OverwriteThenRead(sector: int, buf: seq<Sector>) returns (data: seq<Sector>)
      requires Valid() && !waiting && TwoClusters(remote, blockSize, sector) && |buf| == 2 * SECTORS_PER_CLUSTER
      requires HistoryInRange(remote, history) && !Now().written[sector / SECTORS_PER_CLUSTER]
      modifies this
      ensures Valid() && !waiting && data == remote[sector..sector + 2 * SECTORS_PER_CLUSTER]
      ensures HistoryInRange(remote, history) && data != Now().disk[sector..sector + 2 * SECTORS_PER_CLUSTER]
    {
      hide Valid, HistoryOk, HistoryInRange, IsRead, RunsIntoWritten, Replay, FlatOk, AfterWrite;
      var second := sector + SECTORS_PER_CLUSTER;
      ValidShape();
      ghost var f := Now();
      var changed := seq(SECTORS_PER_CLUSTER, k requires 0 <= k < SECTORS_PER_CLUSTER => Flipped(remote[second + k]));
      assert changed[0] == Flipped(remote[second]);
      WriteDisk(second, changed);
      data := ReadDisk(sector, buf);
      ValidShape();
      StalePair(f, remote, blockSize, sector, changed, data);
    }

    /** Any run: requests one at a time, answers in any order. Everything `Valid` says holds throughout, in
        particular that the device is the flat array left by the requests completed so far, that every completed
        read agrees with it, and that callbacks and requests match one to one. */
    method Run(events: seq<Event>) returns (busy: seq<bool>, ghost points: seq<Point>)
      requires Valid()
      modifies this
      ensures |points| == |events| + 1 && points[0] == old(Here()) && points[|events|] == Here()
      ensures forall i | 0 <= i < |events| :: Leads(points[i], events[i], |remote|, points[i + 1])
      ensures Valid() && old(history) <= history && |busy| == |events|
      ensures AllAsked(history) + Pending() == old(AllAsked(history) + Pending()) + Requests(events, |remote|, busy)
      ensures |callbacks| - |old(callbacks)| <= |history| - |old(history)|
    {
      hide CacheValid, CallbacksOk, ClustersOk, InRequest, Recorded, Requests, Leads, Here;
      ghost var asked := AllAsked(history) + Pending();
      busy, points := [], [Here()];
      NoEvents(events, |remote|);
      for i := 0 to |events|
        invariant Valid() && old(history) <= history && |busy| == i
        invariant |points| == i + 1 && points[0] == old(Here()) && points[i] == Here()
        invariant forall k | 0 <= k < i :: Leads(points[k], events[k], |remote|, points[k + 1])
        invariant AllAsked(history) + Pending() == asked + Requests(events[..i], |remote|, busy)
        invariant |callbacks| - |old(callbacks)| <= |history| - |old(history)|
      {
        OneMoreEvent(events, |remote|, busy, i, waiting);
        busy := busy + [waiting];
        Handle(events[i]);
        points := points + [Here()];
      }
      assert events[..|events|] == events;
    }

    ghost function Here(): Point
      reads this`waiting, this`curBlockNum, this`sectorIndex, this`history, this`cachedBlocks
    {
      Point(waiting, curBlockNum, sectorIndex, |history|, Loading(cachedBlocks))
    }

    /** The request whose callback the client awaits. */
    ghost function Pending(): seq<Ask>
      reads this
    {
      if !waiting then [] else if isWrite then [AskWrite(start, ioBuf)] else [AskRead(start, sectorCount)]
    }

    /** One event: a request joins those made, and a callback comes only with a request done. */
    method Handle(e: Event)
      requires Valid()
      modifies this
      ensures Valid() && old(history) <= history
      ensures AllAsked(history) + Pending() == old(AllAsked(history) + Pending()) + Requested(e, |remote|, old(waiting))
      ensures |callbacks| - |old(callbacks)| <= |history| - |old(history)|
      ensures Leads(old(Here()), e, |remote|, Here())
    {
      hide CacheValid, CallbacksOk, ClustersOk, InRequest, Recorded, AllAsked;
      match e
      case Read(sector, buf) =>
        if !waiting && 0 <= sector && sector + |buf| <= |remote| {
          var ret := ReadAsync(sector, buf);
          OneMoreAsked(old(history), DidRead(sector, ioBuf));
        }
      case Write(sector, data) =>
        if !waiting && 0 <= sector && sector + |data| <= |remote| {
          var ret := WriteAsync(sector, data);
          assert ret == 1 ==> history == old(history);
          OneMoreAsked(old(history), DidWrite(sector, data));
        }
      case Arrive(num) =>
        if exists b :: b in cachedBlocks && !b.loaded && b.num == num {
          LoadingInRange(num);
          OnLoad(num, BlockData(remote, blockSize, nbBlocks, num));
          OneMoreAsked(old(history), Outcome());
        }
    }

    lemma LoadingInRange(num: int)
      requires Valid() && num in Loading(cachedBlocks)
      ensures Shape(remote, blockSize, nbBlocks) && 0 <= num < nbBlocks
    {
    }
  }

  /** It happens on a device of one block of sixteen sectors that nobody has used. */
  method StaleDevice(image: seq<Sector>, buf: seq<Sector>) returns (d: BlockDevice, data: seq<Sector>)
    requires |image| == |buf| == 16
    ensures d.Valid() && !d.waiting && data == image
    ensures HistoryInRange(d.remote, d.history) && data != d.Now().disk
  {
    assert PowerOfTwo(1) && PowerOfTwo(2) && PowerOfTwo(4) && PowerOfTwo(8);
    d := new BlockDevice(image, 16, 1, 1);
    d.ValidShape();
    hide BlockDevice.Valid;
    data := d.OverwriteThenRead(0, buf);
    d.ValidShape();
    ghost var f := d.Now();
    assert f.disk[0..16] == f.disk;
    assert d.remote[0..16] == d.remote;
  }

  /** A block that is listed and loaded is not there any more when its group has been asked for. */
  method PrefetchGivesUp(image: seq<Sector>) returns (d: BlockDevice, tab: seq<Option<int>>)
    requires |image| == 16
    ensures d.Valid() && tab == [None, Some(1)] && !HasBlock(d.cachedBlocks, 0)
  {
    assert PowerOfTwo(1) && PowerOfTwo(2) && PowerOfTwo(4) && PowerOfTwo(8);
    d := new BlockDevice(image, 8, 2, 1);
    hide BlockDevice.Valid, BlockDevice.CacheValid, Prefetched, Filled, Loading, HasBlock, BlockData;
    tab := d.StartLoadPrefetchGroup([0]);
    FirstAsked(d.cachedBlocks, tab);
    ghost var c := d.cachedBlocks;
    d.OnLoad(0, BlockData(image, 8, 2, 0));
    FirstFilled(c, d.cachedBlocks, BlockData(image, 8, 2, 0));
    c := d.cachedBlocks;
    tab := d.StartLoadPrefetchGroup([0, 1]);
    SecondAsked(c, d.cachedBlocks, tab);
  }

  lemma FirstAsked(c: seq<CachedBlock>, tab: seq<Option<int>>)
    requires Prefetched([], c, [0], tab, 1) && |tab| == 1
    ensures tab == [Some(0)] && |c| == 1 && c[0].num == 0
  {
    var nums := [0];
    assert nums[0] == 0 && tab[..1] == tab;
    assert HasBlock(c, 0);
  }

  lemma FirstFilled(c: seq<CachedBlock>, d: seq<CachedBlock>, data: seq<Sector>)
    requires Filled(c, d, 0, data) && |c| == 1
    ensures d == [CachedBlock(0, true, data)]
  {
  }

  lemma SecondAsked(c: seq<CachedBlock>, d: seq<CachedBlock>, tab: seq<Option<int>>)
    requires |c| == 1 && c[0].num == 0 && c[0].loaded && |tab| == 2 && Prefetched(c, d, [0, 1], tab, 1)
    requires forall i :: 0 <= i < |tab| && tab[i].Some? ==> tab[i].value == [0, 1][i]
    requires forall m | m in Loading(d) :: m in Loading(c) || Some(m) in tab
    requires (exists i :: 0 <= i < |tab| && tab[i].Some?) ==> |d| <= 1 || forall b | b in d :: !b.loaded
    ensures tab == [None, Some(1)] && !HasBlock(d, 0)
  {
    OneAsked(c, d, [0, 1], tab);
    hide Prefetched;
    assert tab[1].Some?;
    if HasBlock(d, 0) {
      TwoLoading(d);
    }
  }

  lemma OneAsked(c: seq<CachedBlock>, d: seq<CachedBlock>, nums: seq<int>, tab: seq<Option<int>>)
    requires nums == [0, 1] && |tab| == 2 && Prefetched(c, d, nums, tab, 1)
    requires |c| == 1 && c[0].num == 0 && c[0].loaded
    requires forall i :: 0 <= i < |tab| && tab[i].Some? ==> tab[i].value == nums[i]
    ensures tab == [None, Some(1)] && HasBlock(d, 1) && 0 !in Loading(c)
  {
    OneCached(c);
    PrefetchedAt(c, d, nums, tab, 1, 0);
    PrefetchedAt(c, d, nums, tab, 1, 1);
    hide Prefetched, HasBlock, HasLoaded, Loading;
    assert tab[..2] == tab;
  }

  lemma OneCached(c: seq<CachedBlock>)
    requires |c| == 1 && c[0].num == 0 && c[0].loaded
    ensures HasBlock(c, 0) && !HasBlock(c, 1) && !HasLoaded(c, 1) && 0 !in Loading(c)
  {
    assert c == [c[0]];
  }

  lemma PrefetchedAt(a: seq<CachedBlock>, b: seq<CachedBlock>, nums: seq<int>, tab: seq<Option<int>>, max: int, i: nat)
    requires Prefetched(a, b, nums, tab, max) && i < |nums|
    ensures HasBlock(a, nums[i]) || Some(nums[i]) in tab[..i + 1]
    ensures HasBlock(a, nums[i]) && tab[i].Some? ==> Dropped(a, nums[i], i, max)
    ensures HasBlock(b, nums[i]) || Dropped(a, nums[i], |nums|, max)
  {
    hide HasBlock, HasLoaded, Dropped;
  }

  lemma TwoLoading(d: seq<CachedBlock>)
    requires HasBlock(d, 0) && HasBlock(d, 1) && (|d| <= 1 || forall b | b in d :: !b.loaded)
    ensures 0 in Loading(d)
  {
    var i, j :| 0 <= i < |d| && 0 <= j < |d| && d[i].num == 0 && d[j].num == 1;
    assert d[i] in d;
  }

  lemma LastRead(remote: seq<Sector>, bs: int, h: seq<Done>, start: int, data: seq<Sector>)
    requires HistoryOk(remote, bs, h + [DidRead(start, data)])
    ensures HistoryInRange(remote, h) && Replay(remote, h + [DidRead(start, data)]) == Replay(remote, h)
    ensures var f := Replay(remote, h);
            && IsRead(f, remote, bs, start, data)
            && (!RunsIntoWritten(f.written, bs, start, |data|) ==> data == f.disk[start..start + |data|])
  {
    var h' := h + [DidRead(start, data)];
    assert h'[..|h|] == h && h'[|h|] == DidRead(start, data);
    assert forall i :: 0 <= i < |h| ==> h[i] == h'[i];
    var f := Replay(remote, h);
    if !RunsIntoWritten(f.written, bs, start, |data|) {
      ReadIsCurrent(f, remote, bs, start, data);
    }
  }

  /** A range just written has no unwritten cluster, so a read of it is current. */
  lemma JustWritten(f: Flat, remote: seq<Sector>, bs: int, start: int, data: seq<Sector>)
    requires FlatOk(f, remote) && bs > 0 && 0 <= start && start + |data| <= |remote|
    ensures |AfterWrite(f, start, data).written| == |f.written|
    ensures !RunsIntoWritten(AfterWrite(f, start, data).written, bs, start, |data|)
    ensures AfterWrite(f, start, data).disk[start..start + |data|] == data
  {
    var w := AfterWrite(f, start, data).written;
    forall i | start <= i < start + |data|
      ensures w[i / SECTORS_PER_CLUSTER]
    {
      assert Touched(start, |data|, i / SECTORS_PER_CLUSTER);
    }
  }

  /** The slice the allocation code copies out of a block is the cluster's part of the image. */
  lemma ClusterOfBlock(remote: seq<Sector>, bs: int, nb: int, p: int)
    requires Shape(remote, bs, nb) && 0 <= p < |remote|
    ensures 0 <= p / bs < nb && |BlockData(remote, bs, nb, p / bs)| == bs
    ensures var c := p / SECTORS_PER_CLUSTER;
            var offset := c * SECTORS_PER_CLUSTER % bs;
            && 0 <= offset && offset + SECTORS_PER_CLUSTER <= bs
            && 0 <= c && c * SECTORS_PER_CLUSTER + SECTORS_PER_CLUSTER <= |remote|
            && BlockData(remote, bs, nb, p / bs)[offset..offset + SECTORS_PER_CLUSTER]
               == remote[c * SECTORS_PER_CLUSTER..c * SECTORS_PER_CLUSTER + SECTORS_PER_CLUSTER]
  {
    var c := p / SECTORS_PER_CLUSTER;
    ClusterInBlock(bs, nb, p, c);
    BlockInside(remote, bs, nb, p / bs);
    SliceOfSlice(remote, p / bs * bs, bs, c * SECTORS_PER_CLUSTER % bs, SECTORS_PER_CLUSTER);
  }

  lemma SliceOfSlice(s: seq<Sector>, a: int, m: int, o: int, n: int)
    requires 0 <= a && 0 <= o && 0 <= n && o + n <= m && a + m <= |s|
    ensures s[a..a + m][o..o + n] == s[a + o..a + o + n]
  {
    var l, r := s[a..a + m][o..o + n], s[a + o..a + o + n];
    assert |l| == |r| && forall k :: 0 <= k < n ==> l[k] == r[k];
    assert l == r;
  }

  lemma SectorsOfBlock(remote: seq<Sector>, bs: int, nb: int, p: int, n: int)
    requires Shape(remote, bs, nb) && 0 <= p < |remote| && 0 <= n <= bs - p % bs
    ensures 0 <= p / bs < nb && |BlockData(remote, bs, nb, p / bs)| == bs && p + n <= |remote|
    ensures BlockData(remote, bs, nb, p / bs)[p % bs..p % bs + n] == remote[p..p + n]
  {
    ClusterInBlock(bs, nb, p, p / SECTORS_PER_CLUSTER);
    BlockInside(remote, bs, nb, p / bs);
    SliceOfSlice(remote, p / bs * bs, bs, p % bs, n);
  }

  lemma WholeClusters(image: seq<Sector>, bs: int, nb: int)
    requires Shape(image, bs, nb)
    ensures |image| % SECTORS_PER_CLUSTER == 0
  {
    var q := bs / SECTORS_PER_CLUSTER;
    assert bs * nb == SECTORS_PER_CLUSTER * (q * nb);
  }

  /** A device nobody has written to is the image. */
  lemma FreshView(clusters: seq<Option<Cluster>>, image: seq<Sector>)
    requires ClustersOk(clusters, image) && forall c :: 0 <= c < |clusters| ==> clusters[c].None?
    ensures HistoryInRange(image, []) && View(clusters, image) == Replay(image, [])
  {
    assert View(clusters, image).disk == image;
    assert View(clusters, image).written == seq(|image| / SECTORS_PER_CLUSTER, c => false);
  }
}

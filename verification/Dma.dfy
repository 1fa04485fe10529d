/** The scatter list of a memory object: pages of four sizes, and the borders by which the MMU finds the page of an
    offset. */
module Dma {
  const NUM_SHIFTS := 4

  /** Page sizes, largest first. */
  function PageSize(level: nat): (s: nat)
    requires level < NUM_SHIFTS
    ensures s > 0
  {
    if level == 0 then 0x1000000 else if level == 1 then 0x100000 else if level == 2 then 0x10000 else 0x1000
  }

  /** A message of the list: page `index`, its number at its own size, and that size. */
  datatype SgEntry = SgEntry(index: nat, page: nat, len: nat)

  /** The last message: for each size, up to where its pages reach and what to add to find their index. */
  datatype Region = Region(border: seq<nat>, offset: seq<nat>)

  /** How many pages there are of each size. */
  datatype Regions = Regions(r0: nat, r1: nat, r2: nat, r3: nat)

  function Count(r: Regions, level: nat): nat
    requires level < NUM_SHIFTS
  {
    if level == 0 then r.r0 else if level == 1 then r.r1 else if level == 2 then r.r2 else r.r3
  }

  function OneMore(r: Regions, level: nat): Regions
    requires level < NUM_SHIFTS
  {
    if level == 0 then r.(r0 := r.r0 + 1)
    else if level == 1 then r.(r1 := r.r1 + 1)
    else if level == 2 then r.(r2 := r.r2 + 1)
    else r.(r3 := r.r3 + 1)
  }

  function Total(r: Regions): nat {
    r.r0 + r.r1 + r.r2 + r.r3
  }

  function Bytes(r: Regions): nat {
    r.r0 * 0x1000000 + r.r1 * 0x100000 + r.r2 * 0x10000 + r.r3 * 0x1000
  }

  /** Page `k`, the larger pages coming first: its size, and where in the object it starts. */
  function LevelOf(r: Regions, k: nat): (level: nat)
    ensures level < NUM_SHIFTS
  {
    if k < r.r0 then 0 else if k < r.r0 + r.r1 then 1 else if k < r.r0 + r.r1 + r.r2 then 2 else 3
  }

  /** Pages of the same size before page `k`, were the object made of that size alone. */
  function PageNo(r: Regions, k: nat): nat {
    if k < r.r0 then k
    else if k < r.r0 + r.r1 then r.r0 * 16 + (k - r.r0)
    else if k < r.r0 + r.r1 + r.r2 then r.r0 * 256 + r.r1 * 16 + (k - r.r0 - r.r1)
    else r.r0 * 4096 + r.r1 * 256 + r.r2 * 16 + (k - r.r0 - r.r1 - r.r2)
  }

  function StartOf(r: Regions, k: nat): nat {
    PageNo(r, k) * PageSize(LevelOf(r, k))
  }

  /** The number, at its own size, of the page at `addr` of object `id`. */
  function PageOf(id: nat, addr: nat, level: nat): nat
    requires level < NUM_SHIFTS
  {
    (id * 0x1_0000_0000 + addr) / PageSize(level)
  }

  function EntryAt(r: Regions, id: nat, k: nat): SgEntry {
    SgEntry(k, PageOf(id, StartOf(r, k), LevelOf(r, k)), PageSize(LevelOf(r, k)))
  }

  ghost predicate Laid(entries: seq<SgEntry>, r: Regions, id: nat) {
    |entries| == Total(r) && forall k :: 0 <= k < |entries| ==> entries[k] == EntryAt(r, id, k)
  }

  /** No page is smaller than it need be. */
  predicate Greedy(r: Regions, left: nat) {
    && (r.r1 + r.r2 + r.r3 > 0 ==> r.r1 * 0x100000 + r.r2 * 0x10000 + r.r3 * 0x1000 + left < 0x1000000)
    && (r.r2 + r.r3 > 0 ==> r.r2 * 0x10000 + r.r3 * 0x1000 + left < 0x100000)
    && (r.r3 > 0 ==> r.r3 * 0x1000 + left < 0x10000)
  }

  // ---- The list ---------------------------------------------------------------------------------------------

  /** Pages follow one another without gaps and never grow; by its definition each starts at a multiple of its size. */
  lemma PageFollows(r: Regions, k: nat)
    requires k < Total(r)
    ensures StartOf(r, k) + PageSize(LevelOf(r, k)) == if k + 1 == Total(r) then Bytes(r) else StartOf(r, k + 1)
    ensures LevelOf(r, k) <= LevelOf(r, k + 1)
  {
  }

  lemma FirstPage(r: Regions)
    ensures StartOf(r, 0) == 0
  {
  }

  /** Where a page of the list is; at a multiple of its size, by its definition. */
  function AddressOf(e: SgEntry): nat {
    e.page * e.len
  }

  /** The list covers the addresses from `base` to `end`: the first page is at the base, each next one where the last
      ended and no larger, and the last one ends there. */
  ghost predicate Contiguous(entries: seq<SgEntry>, base: nat, end: nat) {
    && (if entries == [] then end == base else AddressOf(entries[0]) == base)
    && forall k: nat | k < |entries| :: InPlace(entries, k, end)
  }

  ghost predicate InPlace(entries: seq<SgEntry>, k: nat, end: nat)
    requires k < |entries|
  {
    var e := entries[k];
    && e.index == k && IsPageSize(e.len)
    && (if k + 1 == |entries| then AddressOf(e) + e.len == end
        else AddressOf(e) + e.len == AddressOf(entries[k + 1]) && e.len >= entries[k + 1].len)
  }

  predicate IsPageSize(len: nat) {
    len == 0x1000000 || len == 0x100000 || len == 0x10000 || len == 0x1000
  }

  lemma LaidContiguous(entries: seq<SgEntry>, r: Regions, id: nat)
    requires Laid(entries, r, id)
    ensures Contiguous(entries, id * 0x1_0000_0000, id * 0x1_0000_0000 + Bytes(r))
  {
    hide StartOf, LevelOf, Bytes, PageSize, EntryAt, AddressOf;
    if entries == [] {
      NoPages(r);
    } else {
      EntryAddress(r, id, 0);
      FirstPage(r);
      assert entries[0] == EntryAt(r, id, 0);
    }
    var end := id * 0x1_0000_0000 + Bytes(r);
    forall k: nat | k < |entries|
      ensures InPlace(entries, k, end)
    {
      EntryAddress(r, id, k);
      EntryAddress(r, id, k + 1);
      PageFollows(r, k);
      SizesOrdered(LevelOf(r, k), LevelOf(r, k + 1));
    }
  }

  lemma NoPages(r: Regions)
    requires Total(r) == 0
    ensures Bytes(r) == 0
  {
  }

  lemma SizesOrdered(i: nat, j: nat)
    requires i <= j < NUM_SHIFTS
    ensures PageSize(i) >= PageSize(j) && IsPageSize(PageSize(i))
  {
  }

  lemma EntryAddress(r: Regions, id: nat, k: nat)
    ensures AddressOf(EntryAt(r, id, k)) == id * 0x1_0000_0000 + StartOf(r, k)
    ensures EntryAt(r, id, k).index == k && EntryAt(r, id, k).len == PageSize(LevelOf(r, k))
  {
    hide PageNo, LevelOf, PageSize;
    PageAddress(id, PageNo(r, k), LevelOf(r, k));
  }

  /** Fewer than 2^31 bytes take fewer pages than a byte can count. */
  lemma FewPages(r: Regions)
    requires Greedy(r, 0) && Bytes(r) < 0x8000_0000
    ensures Total(r) <= 172
  {
  }

  // ---- Finding a page ---------------------------------------------------------------------------------------

  /** What the borders message holds. */
  function BorderOf(r: Regions, level: nat): nat
    requires level < NUM_SHIFTS
  {
    if level == 0 then r.r0
    else if level == 1 then r.r0 * 16 + r.r1
    else if level == 2 then r.r0 * 256 + r.r1 * 16 + r.r2
    else r.r0 * 4096 + r.r1 * 256 + r.r2 * 16 + r.r3
  }

  function Before(r: Regions, level: nat): nat
    requires level < NUM_SHIFTS
  {
    if level == 0 then 0 else if level == 1 then r.r0 else if level == 2 then r.r0 + r.r1 else r.r0 + r.r1 + r.r2
  }

  function OffsetOf(r: Regions, level: nat): nat
    requires level < NUM_SHIFTS
  {
    (Before(r, level) - (BorderOf(r, level) - Count(r, level))) % 256
  }

  ghost predicate Borders(m: Region, r: Regions) {
    && |m.border| == NUM_SHIFTS == |m.offset|
    && forall j :: 0 <= j < NUM_SHIFTS ==> m.border[j] == BorderOf(r, j) && m.offset[j] == OffsetOf(r, j)
  }

  /** The number of the page of a size that holds an offset, were the object made of that size alone. */
  function NumberAt(o: nat, level: nat): nat
    requires level < NUM_SHIFTS
  {
    o / PageSize(level)
  }

  /** The size the MMU settles on: the first whose border the offset is below. */
  function FirstLevel(m: Region, o: nat, level: nat): (i: nat)
    requires |m.border| == NUM_SHIFTS && level <= NUM_SHIFTS
    decreases NUM_SHIFTS - level
  {
    if level == NUM_SHIFTS || NumberAt(o, level) < m.border[level] then level else FirstLevel(m, o, level + 1)
  }

  /** The entry the MMU looks up, at that size. */
  function EntryFor(m: Region, o: nat, level: nat): nat
    requires |m.offset| == NUM_SHIFTS && level < NUM_SHIFTS
  {
    (m.offset[level] + NumberAt(o, level)) % 256
  }

  /** An offset beyond the pages of one size is beyond them at the next. */
  lemma Beyond(o: nat, b: nat, level: nat)
    requires 0 < level < NUM_SHIFTS && NumberAt(o, level - 1) >= b
    ensures NumberAt(o, level) >= b * 16
  {
    if level == 1 {
      assert o >= b * 0x1000000;
    } else if level == 2 {
      assert o >= b * 0x100000;
    } else {
      assert o >= b * 0x10000;
    }
  }

  lemma WithinPage(o: nat, level: nat)
    requires level < NUM_SHIFTS
    ensures var n := NumberAt(o, level); n * PageSize(level) <= o < n * PageSize(level) + PageSize(level)
    ensures o == NumberAt(o, level) * PageSize(level) + o % PageSize(level)
  {
  }

  lemma LastLevel(r: Regions, o: nat)
    requires o < Bytes(r)
    ensures NumberAt(o, 3) < BorderOf(r, 3)
  {
  }

  /** The size found is the first whose pages reach the offset. */
  lemma LevelFound(m: Region, r: Regions, o: nat) returns (i: nat)
    requires Borders(m, r) && o < Bytes(r)
    ensures i == FirstLevel(m, o, 0) && i < NUM_SHIFTS
    ensures BorderOf(r, i) - Count(r, i) <= NumberAt(o, i) < BorderOf(r, i)
  {
    hide NumberAt, BorderOf;
    LastLevel(r, o);
    i := 0;
    while NumberAt(o, i) >= m.border[i]
      invariant i < NUM_SHIFTS && FirstLevel(m, o, 0) == FirstLevel(m, o, i)
      invariant i > 0 ==> NumberAt(o, i - 1) >= BorderOf(r, i - 1)
      decreases NUM_SHIFTS - i
    {
      i := i + 1;
    }
    if i > 0 {
      Beyond(o, BorderOf(r, i - 1), i);
    }
    BorderStep(r, i);
  }

  lemma BorderStep(r: Regions, i: nat)
    requires i < NUM_SHIFTS
    ensures BorderOf(r, i) - Count(r, i) == if i == 0 then 0 else BorderOf(r, i - 1) * 16
  {
  }

  /** The page whose number at size `i` is `n`. */
  lemma PageAt(r: Regions, i: nat, n: nat) returns (k: nat)
    requires i < NUM_SHIFTS && BorderOf(r, i) - Count(r, i) <= n < BorderOf(r, i)
    ensures k == Before(r, i) + (n - (BorderOf(r, i) - Count(r, i)))
    ensures k < Total(r) && LevelOf(r, k) == i && PageNo(r, k) == n
  {
    k := Before(r, i) + (n - (BorderOf(r, i) - Count(r, i)));
  }

  /** The MMU finds the page that holds an offset, and with it the address of the offset. */
  lemma Lookup(entries: seq<SgEntry>, m: Region, r: Regions, id: nat, o: nat)
    requires Laid(entries, r, id) && Borders(m, r) && Greedy(r, 0) && Bytes(r) < 0x8000_0000 && o < Bytes(r)
    ensures var i := FirstLevel(m, o, 0);
            && i < NUM_SHIFTS
            && var k := EntryFor(m, o, i);
               && k < |entries| && entries[k].index == k && entries[k].len == PageSize(i)
               && StartOf(r, k) <= o < StartOf(r, k) + PageSize(i)
               && entries[k].page * PageSize(i) + o % PageSize(i) == id * 0x1_0000_0000 + o
  {
    hide PageSize, BorderOf, Count, Before, LevelOf, PageNo, Greedy, Bytes, Total, FirstLevel;
    var i := LevelFound(m, r, o);
    var n := NumberAt(o, i);
    var k := PageAt(r, i, n);
    FewPages(r);
    IndexFound(m, r, i, n, k);
    WithinPage(o, i);
    assert entries[k] == EntryAt(r, id, k);
    PageAddress(id, n, i);
  }

  /** The byte-wide index arithmetic comes out right, since there are fewer than 256 pages. */
  lemma IndexFound(m: Region, r: Regions, i: nat, n: nat, k: nat)
    requires Borders(m, r) && i < NUM_SHIFTS && k == Before(r, i) + (n - (BorderOf(r, i) - Count(r, i))) && k < 256
    ensures (m.offset[i] + n) % 256 == k
  {
    hide Before, BorderOf, Count;
    var d := Before(r, i) - (BorderOf(r, i) - Count(r, i));
    assert m.offset[i] == OffsetOf(r, i) == d % 256;
    ModAdd(d, n);
  }

  lemma ModAdd(d: int, n: nat)
    requires 0 <= d + n < 256
    ensures (d % 256 + n) % 256 == d + n
  {
  }

  lemma PageAddress(id: nat, n: nat, i: nat)
    requires i < NUM_SHIFTS
    ensures (id * 0x1_0000_0000 + n * PageSize(i)) / PageSize(i) * PageSize(i) == id * 0x1_0000_0000 + n * PageSize(i)
  {
    if i == 0 {
      assert (id * 0x1_0000_0000 + n * 0x1000000) == (id * 0x100 + n) * 0x1000000;
    } else if i == 1 {
      assert (id * 0x1_0000_0000 + n * 0x100000) == (id * 0x1000 + n) * 0x100000;
    } else if i == 2 {
      assert (id * 0x1_0000_0000 + n * 0x10000) == (id * 0x10000 + n) * 0x10000;
    } else {
      assert (id * 0x1_0000_0000 + n * 0x1000) == (id * 0x100000 + n) * 0x1000;
    }
  }

  // ---- Sending it -------------------------------------------------------------------------------------------

  /** The pages of an object of `objectLen` bytes, its list, its end, and the borders. */
  method SendToPortal(objectLen: nat, id: nat) returns (entries: seq<SgEntry>, end: SgEntry, m: Region,
      ghost r: Regions)
    requires RoundUp(objectLen) < 0x8000_0000
    ensures Bytes(r) == RoundUp(objectLen) && Greedy(r, 0) && Laid(entries, r, id) && Borders(m, r) && Total(r) < 256
    ensures Contiguous(entries, id * 0x1_0000_0000, id * 0x1_0000_0000 + RoundUp(objectLen))
    ensures objectLen <= RoundUp(objectLen) < objectLen + 0x1000 && RoundUp(objectLen) % 0x1000 == 0
    ensures end == SgEntry(|entries|, 0, 0)
  {
    hide Contiguous, Laid, Greedy, Bytes, PageSize, Borders, Total, OneMore, PageOf, RoundUp;
    RoundedUp(objectLen);
    NoBytes();
    NoneTaken(RoundUp(objectLen));
    NoEntries(id);
    var left: nat := RoundUp(objectLen);
    var sizeAccum: nat := 0;
    var regions := Regions(0, 0, 0, 0);
    entries := [];
    while left > 0
      invariant sizeAccum == Bytes(regions) && sizeAccum + left == RoundUp(objectLen) && left % 0x1000 == 0
      invariant Greedy(regions, left) && Laid(entries, regions, id)
    {
      var j := LargestPage(left);
      Append(entries, regions, id, left, j);
      entries := entries + [SgEntry(|entries|, PageOf(id, sizeAccum, j), PageSize(j))];
      sizeAccum := sizeAccum + PageSize(j);
      left := left - PageSize(j);
      regions := OneMore(regions, j);
    }
    r := regions;
    FewPages(r);
    LaidContiguous(entries, r, id);
    end := SgEntry(|entries|, 0, 0);
    m := BordersOf(regions);
  }

  lemma NoBytes()
    ensures Bytes(Regions(0, 0, 0, 0)) == 0
  {
  }

  lemma NoneTaken(left: nat)
    ensures Greedy(Regions(0, 0, 0, 0), left)
  {
  }

  lemma NoEntries(id: nat)
    ensures Laid([], Regions(0, 0, 0, 0), id)
  {
    hide EntryAt;
  }

  lemma RoundedUp(n: nat)
    ensures RoundUp(n) % 0x1000 == 0 && n <= RoundUp(n) < n + 0x1000
  {
  }

  function RoundUp(n: nat): nat {
    (n + 0xfff) / 0x1000 * 0x1000
  }

  method LargestPage(left: nat) returns (j: nat)
    requires left >= 0x1000
    ensures j < NUM_SHIFTS && PageSize(j) <= left && (j > 0 ==> left < PageSize(j - 1))
  {
    j := 0;
    while left < PageSize(j)
      invariant j < NUM_SHIFTS && (j > 0 ==> left < PageSize(j - 1))
      decreases NUM_SHIFTS - j
    {
      j := j + 1;
    }
  }

  /** Taking the largest page that fits keeps the list in shape. */
  lemma Append(entries: seq<SgEntry>, r: Regions, id: nat, left: nat, j: nat)
    requires Laid(entries, r, id) && Greedy(r, left) && left % 0x1000 == 0
    requires j < NUM_SHIFTS && PageSize(j) <= left && (j > 0 ==> left < PageSize(j - 1))
    ensures Laid(entries + [SgEntry(|entries|, PageOf(id, Bytes(r), j), PageSize(j))], OneMore(r, j), id)
    ensures Greedy(OneMore(r, j), left - PageSize(j)) && (left - PageSize(j)) % 0x1000 == 0
    ensures Bytes(OneMore(r, j)) == Bytes(r) + PageSize(j)
  {
    hide Greedy, PageNo, LevelOf, PageSize, OneMore, PageOf, NoneBelow;
    NoSmaller(r, left, j);
    StaysGreedy(r, left, j);
    var r' := OneMore(r, j);
    LastPage(r, j);
    forall k | 0 <= k < Total(r)
      ensures EntryAt(r', id, k) == EntryAt(r, id, k)
    {
      EarlierPage(r, j, k);
    }
  }

  predicate NoneBelow(r: Regions, j: nat) {
    (j < 3 ==> r.r3 == 0) && (j < 2 ==> r.r2 == 0) && (j < 1 ==> r.r1 == 0)
  }

  lemma LastPage(r: Regions, j: nat)
    requires j < NUM_SHIFTS && NoneBelow(r, j)
    ensures var r' := OneMore(r, j);
            Total(r') == Total(r) + 1 && LevelOf(r', Total(r)) == j && StartOf(r', Total(r)) == Bytes(r)
  {
  }

  lemma EarlierPage(r: Regions, j: nat, k: nat)
    requires j < NUM_SHIFTS && NoneBelow(r, j) && k < Total(r)
    ensures LevelOf(OneMore(r, j), k) == LevelOf(r, k) && PageNo(OneMore(r, j), k) == PageNo(r, k)
  {
  }

  lemma StaysGreedy(r: Regions, left: nat, j: nat)
    requires Greedy(r, left) && left % 0x1000 == 0 && j < NUM_SHIFTS && NoneBelow(r, j)
    requires PageSize(j) <= left && (j > 0 ==> left < PageSize(j - 1))
    ensures Greedy(OneMore(r, j), left - PageSize(j)) && (left - PageSize(j)) % 0x1000 == 0
    ensures Bytes(OneMore(r, j)) == Bytes(r) + PageSize(j)
  {
  }

  /** While a page of a size fits, no smaller page has been taken. */
  lemma NoSmaller(r: Regions, left: nat, j: nat)
    requires Greedy(r, left) && j < NUM_SHIFTS && PageSize(j) <= left
    ensures NoneBelow(r, j)
  {
  }

  /** The borders, accumulated a size at a time; the index arithmetic is that of a byte. */
  method BordersOf(r: Regions) returns (m: Region)
    requires Total(r) < 256
    ensures Borders(m, r)
  {
    hide BorderOf, Count, Before, Total;
    var border, entryCount := 0, 0;
    var bs, os: seq<nat> := [], [];
    BorderStep(r, 0);
    BeforeStep(r, 0);
    for i := 0 to NUM_SHIFTS
      invariant |bs| == i == |os| && entryCount == (if i == 4 then Total(r) else Before(r, i))
      invariant i < 4 ==> border == BorderOf(r, i) - Count(r, i)
      invariant forall j :: 0 <= j < i ==> bs[j] == BorderOf(r, j) && os[j] == OffsetOf(r, j)
    {
      BeforeStep(r, i);
      if i < 3 {
        BorderStep(r, i + 1);
      }
      var idxOffset := (entryCount - border) % 256;
      entryCount := (entryCount + Count(r, i)) % 256;
      border := border + Count(r, i);
      bs := bs + [border];
      os := os + [idxOffset];
      border := border * (if i == 3 then 0x1000 else 16);
    }
    m := Region(bs, os);
  }

  lemma BeforeStep(r: Regions, i: nat)
    requires i < NUM_SHIFTS
    ensures Before(r, 0) == 0
            && Before(r, i) + Count(r, i) == (if i == 3 then Total(r) else Before(r, i + 1)) <= Total(r)
  {
  }
}

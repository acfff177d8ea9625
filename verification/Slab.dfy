/** The slab allocator of src/slab.c above its page allocator: zoneindex, rt_malloc and rt_free.
    Each operation is one step. */
module Slab {
  import PageAlloc
  import opened Sequences

  // ---------------------------------------------------------------- size classes

  const NZONES := 72

  /** zoneindex: the index, and the chunk size that it stores back. */
  function ZoneIndex(n: nat): (r: (int, nat)) {
    if n < 128 then var m := (n + 7) / 8 * 8; (m / 8 - 1, m)
    else if n < 256 then var m := (n + 15) / 16 * 16; (m / 16 + 7, m)
    else if n < 512 then var m := (n + 31) / 32 * 32; (m / 32 + 15, m)
    else if n < 1024 then var m := (n + 63) / 64 * 64; (m / 64 + 23, m)
    else if n < 2048 then var m := (n + 127) / 128 * 128; (m / 128 + 31, m)
    else if n < 4096 then var m := (n + 255) / 256 * 256; (m / 256 + 39, m)
    else if n < 8192 then var m := (n + 511) / 512 * 512; (m / 512 + 47, m)
    else if n < 16384 then var m := (n + 1023) / 1024 * 1024; (m / 1024 + 55, m)
    else (0, n)
  }

  /** The chunk size of a zone. */
  function SizeOf(zi: nat): nat {
    if zi < 16 then 8 * (zi + 1)
    else if zi < 24 then 16 * (zi - 7)
    else if zi < 32 then 32 * (zi - 15)
    else if zi < 40 then 64 * (zi - 23)
    else if zi < 48 then 128 * (zi - 31)
    else if zi < 56 then 256 * (zi - 39)
    else if zi < 64 then 512 * (zi - 47)
    else 1024 * (zi - 55)
  }

  lemma SizesGrow(i: nat, j: nat)
    requires i < j < NZONES
    ensures SizeOf(i) < SizeOf(j)
  {
  }

  /** The zone is the first one whose chunks are large enough, the size is that of its chunks, and what
      is wasted is less than an eighth from 128 bytes on. */
  predicate FitsBest(n: nat, zi: int, size: nat) {
    && 0 <= zi < NZONES && size == SizeOf(zi) && n <= size
    && (zi > 0 ==> SizeOf(zi - 1) < n)
    && (if n < 128 then size - n < 8 else 8 * (size - n) < n)
  }

  lemma ZoneFitsBest(n: nat)
    requires 0 < n < 16384
    ensures FitsBest(n, ZoneIndex(n).0, ZoneIndex(n).1)
  {
    if n < 256 { FitsFirst(n); } else if n < 1024 { FitsSecond(n); } else if n < 4096 { FitsThird(n); } else { FitsLast(n); }
  }

  lemma FitsFirst(n: nat)
    requires 0 < n < 256
    ensures FitsBest(n, ZoneIndex(n).0, ZoneIndex(n).1)
  {
    if n < 128 { var q := (n + 7) / 8; assert ZoneIndex(n) == (q - 1, 8 * q) && q <= 16; }
    else { var q := (n + 15) / 16; assert ZoneIndex(n) == (q + 7, 16 * q) && 8 <= q <= 16; }
  }

  lemma FitsSecond(n: nat)
    requires 256 <= n < 1024
    ensures FitsBest(n, ZoneIndex(n).0, ZoneIndex(n).1)
  {
    if n < 512 { var q := (n + 31) / 32; assert ZoneIndex(n) == (q + 15, 32 * q) && 8 <= q <= 16; }
    else { var q := (n + 63) / 64; assert ZoneIndex(n) == (q + 23, 64 * q) && 8 <= q <= 16; }
  }

  lemma FitsThird(n: nat)
    requires 1024 <= n < 4096
    ensures FitsBest(n, ZoneIndex(n).0, ZoneIndex(n).1)
  {
    if n < 2048 { var q := (n + 127) / 128; assert ZoneIndex(n) == (q + 31, 128 * q) && 8 <= q <= 16; }
    else { var q := (n + 255) / 256; assert ZoneIndex(n) == (q + 39, 256 * q) && 8 <= q <= 16; }
  }

  lemma FitsLast(n: nat)
    requires 4096 <= n < 16384
    ensures FitsBest(n, ZoneIndex(n).0, ZoneIndex(n).1)
  {
    if n < 8192 { var q := (n + 511) / 512; assert ZoneIndex(n) == (q + 47, 512 * q) && 8 <= q <= 16; }
    else { var q := (n + 1023) / 1024; assert ZoneIndex(n) == (q + 55, 1024 * q) && 8 <= q <= 16; }
  }

  /** So a larger request gets no smaller zone, and two requests share a zone exactly when they are
      rounded to the same size, across all brackets. */
  lemma ZoneIndexMonotone(m: nat, n: nat)
    requires 0 < m <= n < 16384
    ensures ZoneIndex(m).0 <= ZoneIndex(n).0
    ensures ZoneIndex(m).0 == ZoneIndex(n).0 <==> ZoneIndex(m).1 == ZoneIndex(n).1
  {
    hide ZoneIndex, SizeOf;
    ZoneFitsBest(m);
    ZoneFitsBest(n);
    var i, j := ZoneIndex(m).0, ZoneIndex(n).0;
    if i < j { SizesGrow(i, j); }
    if j < i {
      SizesGrow(j, i);
      if j < i - 1 { SizesGrow(j, i - 1); }
    }
  }

  // ---------------------------------------------------------------- the layout of a zone

  const PAGE := 4096
  /** sizeof(slab_zone). */
  const HEADER := 36

  predicate PowerOfTwo(n: nat) {
    n == 1 || (n > 1 && n % 2 == 0 && PowerOfTwo(n / 2))
  }

  /** Where the chunks of a zone begin: at a multiple of their size if that is a power of two. */
  function BaseOffset(size: nat): nat
    requires size > 0
  {
    if PowerOfTwo(size) then (HEADER + size - 1) / size * size else (HEADER + 7) / 8 * 8
  }

  function Quotient(n: nat, m: nat): nat
    requires m > 0
  {
    n / m
  }

  /** z_nmax. */
  function Chunks(zoneSize: nat, size: nat): nat
    requires size > 0
  {
    if zoneSize < BaseOffset(size) then 0 else Quotient(zoneSize - BaseOffset(size), size)
  }

  function Times(a: nat, b: nat): nat { a * b }

  /** The address of a chunk of the zone that begins at page z. */
  function ChunkAddress(z: nat, size: nat, c: nat): nat
    requires size > 0
  {
    z * PAGE + BaseOffset(size) + Times(c, size)
  }

  lemma DivBounds(n: nat, m: nat)
    requires m > 0
    ensures n / m >= 0 && Times(n / m, m) <= n < Times(n / m, m) + m
  {
    assert n == n / m * m + n % m;
  }

  lemma TimesAdd(a: nat, b: nat, m: nat)
    ensures Times(a + b, m) == Times(a, m) + Times(b, m)
  {
  }

  lemma TimesTimes(z: nat, k: nat, m: nat)
    ensures z * Times(k, m) == Times(z * k, m)
  {
  }

  lemma {:induction false} TimesGrows(a: nat, b: nat, m: nat)
    requires a < b
    ensures Times(a, m) + m <= Times(b, m)
  {
    hide Times;
    TimesAdd(b - 1, 1, m);
    TimesIs(1, m);
    if a < b - 1 { TimesGrows(a, b - 1, m); }
  }

  lemma BaseOffsetIs(size: nat)
    requires size > 0
    ensures HEADER <= BaseOffset(size) < HEADER + size + 8
    ensures PowerOfTwo(size) ==> exists k: nat :: BaseOffset(size) == Times(k, size)
  {
    hide Times;
    if PowerOfTwo(size) {
      DivBounds(HEADER + size - 1, size);
      TimesIs((HEADER + size - 1) / size, size);
    }
  }

  lemma TimesIs(a: nat, b: nat)
    ensures Times(a, b) == a * b
  {
  }

  /** A chunk lies in its zone, behind the header, and apart from the others. */
  lemma ChunkInZone(z: nat, zoneSize: nat, size: nat, c: nat, d: nat)
    requires size > 0 && c < Chunks(zoneSize, size) && d < Chunks(zoneSize, size)
    ensures z * PAGE + HEADER <= ChunkAddress(z, size, c) && ChunkAddress(z, size, c) + size <= z * PAGE + zoneSize
    ensures c < d ==> ChunkAddress(z, size, c) + size <= ChunkAddress(z, size, d)
  {
    hide Times;
    BaseOffsetIs(size);
    DivBounds(zoneSize - BaseOffset(size), size);
    TimesGrows(c, Chunks(zoneSize, size), size);
    if c < d { TimesGrows(c, d, size); }
  }

  lemma {:induction false} PowerDividesPage(size: nat, page: nat)
    requires PowerOfTwo(size) && PowerOfTwo(page) && size <= page
    ensures exists k: nat :: page == Times(k, size)
  {
    if size == 1 { assert page == Times(page, 1); }
    else {
      PowerDividesPage(size / 2, page / 2);
      var k: nat :| page / 2 == Times(k, size / 2);
      assert page == Times(k, size) by { TimesIs(k, size / 2); TimesIs(k, size); assert 2 * (k * (size / 2)) == k * (2 * (size / 2)); }
    }
  }

  lemma PageIsPower()
    ensures PowerOfTwo(PAGE)
  {
    assert PowerOfTwo(1) && PowerOfTwo(2) && PowerOfTwo(4) && PowerOfTwo(8) && PowerOfTwo(16) && PowerOfTwo(32);
    assert PowerOfTwo(64) && PowerOfTwo(128) && PowerOfTwo(256) && PowerOfTwo(512) && PowerOfTwo(1024) && PowerOfTwo(2048);
  }

  /** A chunk whose size is a power of two, up to a page, is aligned to its size. */
  lemma ChunkAligned(z: nat, size: nat, c: nat)
    requires PowerOfTwo(size) && 0 < size <= PAGE
    ensures exists k: nat :: ChunkAddress(z, size, c) == Times(k, size)
  {
    hide PowerOfTwo, BaseOffset, Times;
    PageIsPower();
    PowerDividesPage(size, PAGE);
    BaseOffsetIs(size);
    var k: nat :| PAGE == Times(k, size);
    var b: nat :| BaseOffset(size) == Times(b, size);
    TimesTimes(z, k, size);
    TimesAdd(z * k, b, size);
    TimesAdd(z * k + b, c, size);
    assert ChunkAddress(z, size, c) == Times(z * k + b + c, size);
  }

  /** From the address of a chunk, its page and what the page table says of that page, rt_free finds the
      zone. */
  lemma ZoneRecovered(z: nat, zoneSize: nat, size: nat, c: nat)
    requires size > 0 && c < Chunks(zoneSize, size)
    ensures var j := ChunkAddress(z, size, c) / PAGE - z;
            0 <= j && j * PAGE < zoneSize
  {
    ChunkInZone(z, zoneSize, size, c, c);
  }

  // ---------------------------------------------------------------- one zone

  /** struct slab_zone. The free list is given by the numbers of its chunks. */
  datatype Zone = Zone(index: nat, chunk: nat, nmax: nat, nfree: int, uindex: nat, free: seq<nat>)

  /** Of the chunks up to uindex each is either live or on the free list, the others have never been used,
      and nfree counts all that are not live. */
  ghost predicate ZoneOk(z: Zone, live: set<nat>) {
    && z.uindex < z.nmax
    && z.nfree == |z.free| + (z.nmax - 1 - z.uindex)
    && Distinct(z.free)
    && (forall c <- z.free :: c <= z.uindex && c !in live)
    && (forall c <- live :: c <= z.uindex)
    && (forall c: nat :: c <= z.uindex ==> c in live || c in z.free)
  }

  function NewZone(zi: nat, size: nat, zoneSize: nat): Zone
    requires size > 0
  {
    Zone(zi, size, Chunks(zoneSize, size), Chunks(zoneSize, size) - 1, 0, [])
  }

  /** rt_malloc takes a chunk that was never used, as long as there is one. */
  function TakeChunk(z: Zone): (Zone, nat) {
    if z.uindex + 1 != z.nmax || z.free == [] then (z.(nfree := z.nfree - 1, uindex := z.uindex + 1), z.uindex + 1)
    else (z.(nfree := z.nfree - 1, free := z.free[1..]), z.free[0])
  }

  function GiveChunk(z: Zone, c: nat): Zone {
    z.(free := [c] + z.free, nfree := z.nfree + 1)
  }

  lemma TakeKeepsZone(z: Zone, live: set<nat>)
    requires ZoneOk(z, live) && z.nfree > 0
    ensures var (r, c) := TakeChunk(z); c !in live && c < z.nmax && ZoneOk(r, live + {c})
  {
    if z.uindex + 1 == z.nmax {
      assert z.free[0] in z.free;
      assert forall c :: c in z.free <==> c == z.free[0] || c in z.free[1..];
    }
  }

  lemma GiveKeepsZone(z: Zone, live: set<nat>, c: nat)
    requires ZoneOk(z, live) && c in live
    ensures ZoneOk(GiveChunk(z, c), live - {c})
  {
    var r := GiveChunk(z, c);
    assert forall i :: 0 < i < |r.free| ==> r.free[i] == z.free[i - 1];
  }

  lemma NewZoneOk(zi: nat, size: nat, zoneSize: nat)
    requires size > 0 && Chunks(zoneSize, size) > 0
    ensures ZoneOk(NewZone(zi, size, zoneSize), {0})
  {
  }

  function UpTo(n: nat): (s: set<nat>)
    ensures |s| == n && forall c: nat :: c in s <==> c < n
  {
    if n == 0 then {} else UpTo(n - 1) + {n - 1}
  }

  lemma {:induction false} FewerThan(q: seq<nat>, s: set<nat>)
    requires Distinct(q) && forall c <- q :: c in s
    ensures |q| <= |s|
  {
    if q != [] {
      assert q[0] !in q[1..];
      FewerThan(q[1..], s - {q[0]});
    }
  }

  /** When all chunks are counted as free, none is live. */
  lemma AllFree(z: Zone, live: set<nat>)
    requires ZoneOk(z, live) && z.nfree == z.nmax
    ensures live == {}
  {
    if live != {} {
      var c :| c in live;
      FewerThan(z.free, UpTo(z.uindex + 1) - {c});
    }
  }

  // ---------------------------------------------------------------- the allocator

  datatype Usage = FreePage | SmallPage(offset: nat) | LargePage(pages: nat)

  /** rt_page_list, the zones in use, zone_array, zone_free and memusage. */
  datatype State = State(
    pages: seq<PageAlloc.Span>, zones: map<nat, Zone>, arrays: seq<seq<nat>>, idle: seq<nat>, usage: map<nat, Usage>)

  /** The live chunks of each zone, and all that has been taken from the page allocator; `large` are the
      allocations of whole pages. */
  datatype Abs = Abs(live: map<nat, set<nat>>, large: map<nat, nat>, taken: map<nat, nat>)

  const ZONE_RELEASE_THRESH := 2

  function MarkPages(usage: map<nat, Usage>, z: nat, n: nat): map<nat, Usage> {
    if n == 0 then usage else MarkPages(usage, z, n - 1)[z + n - 1 := SmallPage(n - 1)]
  }

  function ClearPages(usage: map<nat, Usage>, z: nat, n: nat): map<nat, Usage> {
    if n == 0 then usage else ClearPages(usage, z, n - 1)[z + n - 1 := FreePage]
  }

  /** rt_malloc of less than zone_limit bytes: the zone and the chunk. */
  function MallocSmall(s: State, n: nat, zonePages: nat): (State, Option<(nat, nat)>) {
    var (zi, size) := ZoneIndex(n);
    if !(0 <= zi < |s.arrays|) || size == 0 then (s, None)
    else if s.arrays[zi] != [] && s.arrays[zi][0] in s.zones then
      var z := s.arrays[zi][0];
      var (zone, c) := TakeChunk(s.zones[z]);
      (s.(zones := s.zones[z := zone],
          arrays := if zone.nfree == 0 then s.arrays[zi := s.arrays[zi][1..]] else s.arrays), Some((z, c)))
    else if s.idle != [] then
      var z := s.idle[0];
      (s.(idle := s.idle[1..], zones := s.zones[z := NewZone(zi, size, zonePages * PAGE)],
          arrays := s.arrays[zi := [z] + s.arrays[zi]]), Some((z, 0)))
    else
      var (r, pages) := PageAlloc.Alloc(s.pages, zonePages);
      if r.None? then (s, None)
      else
        var z := r.value;
        (s.(pages := pages, zones := s.zones[z := NewZone(zi, size, zonePages * PAGE)],
            arrays := s.arrays[zi := [z] + s.arrays[zi]], usage := MarkPages(s.usage, z, zonePages)), Some((z, 0)))
  }

  /** rt_malloc of whole pages. */
  function MallocLarge(s: State, n: nat): (State, Option<nat>) {
    var (r, pages) := PageAlloc.Alloc(s.pages, n);
    if r.None? then (s, None)
    else (s.(pages := pages, usage := s.usage[r.value := LargePage(n)]), Some(r.value))
  }

  /** rt_free of whole pages. */
  function FreeLarge(s: State, a: nat, n: nat): State {
    s.(pages := PageAlloc.Free(s.pages, a, n), usage := s.usage[a := LargePage(0)])
  }

  /** A zone all of whose chunks are free leaves its list, and perhaps goes back to the page allocator. */
  function Retire(s: State, z: nat, zi: nat, zonePages: nat): State
    requires zi < |s.arrays|
  {
    var s1 := s.(arrays := s.arrays[zi := Without<nat>(s.arrays[zi], z)], zones := s.zones - {z});
    if |s.idle| + 1 > ZONE_RELEASE_THRESH then
      s1.(usage := ClearPages(s.usage, z, zonePages), pages := PageAlloc.Free(s.pages, z, zonePages))
    else s1.(idle := [z] + s.idle)
  }

  /** rt_free of a chunk. */
  function FreeSmall(s: State, z: nat, c: nat, zonePages: nat): State
    requires z in s.zones
  {
    var zone := GiveChunk(s.zones[z], c);
    var zi := zone.index;
    if zi >= |s.arrays| then s
    else
      var s1 := s.(zones := s.zones[z := zone],
                   arrays := if zone.nfree == 1 then s.arrays[zi := [z] + s.arrays[zi]] else s.arrays);
      if zone.nfree == zone.nmax && |s1.arrays[zi]| > 1 then Retire(s1, z, zi, zonePages) else s1
  }

  // ---------------------------------------------------------------- invariant

  /** A zone is on the list of its size exactly if it has chunks to give. */
  ghost predicate Lists(arrays: seq<seq<nat>>, zones: map<nat, Zone>) {
    && |arrays| == NZONES
    && (forall i: nat :: i < NZONES ==> Distinct(arrays[i]))
    && (forall i: nat, z :: i < NZONES && z in arrays[i] ==> z in zones && zones[z].index == i && zones[z].nfree > 0)
    && (forall z <- zones :: zones[z].index < NZONES && (zones[z].nfree > 0 ==> z in arrays[zones[z].index]))
  }

  ghost predicate ZonesOk(zones: map<nat, Zone>, live: map<nat, set<nat>>, zonePages: nat) {
    && live.Keys == zones.Keys
    && forall z <- zones ::
         && zones[z].chunk > 0 && zones[z].index < NZONES && zones[z].chunk == SizeOf(zones[z].index)
         && zones[z].nmax == Chunks(zonePages * PAGE, zones[z].chunk) && zones[z].nmax > 1
         && ZoneOk(zones[z], live[z])
  }

  /** Each piece of the pages taken is a zone in use, an idle zone, or a large allocation. */
  ghost predicate Pieces(s: State, a: Abs, zonePages: nat) {
    && Distinct(s.idle)
    && (forall z <- s.idle :: z !in s.zones && z !in a.large)
    && (forall z <- s.zones :: z !in a.large)
    && (forall p :: p in a.taken <==> p in s.zones || p in s.idle || p in a.large)
    && (forall p <- a.taken :: a.taken[p] == if p in a.large then a.large[p] else zonePages)
  }

  predicate TagAt(usage: map<nat, Usage>, z: nat, j: nat) {
    z + j in usage && usage[z + j] == SmallPage(j)
  }

  predicate Tagged(usage: map<nat, Usage>, z: nat, n: nat) {
    forall j: nat {:trigger TagAt(usage, z, j)} :: j < n ==> TagAt(usage, z, j)
  }

  /** The page table says of each page of a zone how far it is from its beginning. */
  ghost predicate UsageOk(s: State, a: Abs, zonePages: nat) {
    && (forall z <- a.taken :: z !in a.large ==> Tagged(s.usage, z, zonePages))
    && (forall p <- a.large :: p in s.usage && s.usage[p] == LargePage(a.large[p]))
  }

  ghost predicate Inv(s: State, a: Abs, from: nat, total: nat, zonePages: nat) {
    && Lists(s.arrays, s.zones)
    && ZonesOk(s.zones, a.live, zonePages)
    && Pieces(s, a, zonePages)
    && UsageOk(s, a, zonePages)
    && PageAlloc.Inv(PageAlloc.State(s.pages, a.taken), from, total)
  }

  lemma ZoneFacts(zones: map<nat, Zone>, live: map<nat, set<nat>>, zonePages: nat, z: nat)
    requires ZonesOk(zones, live, zonePages) && z in zones
    ensures z in live && ZoneOk(zones[z], live[z]) && zones[z].chunk > 0 && zones[z].chunk == SizeOf(zones[z].index)
    ensures zones[z].index < NZONES && zones[z].nmax == Chunks(zonePages * PAGE, zones[z].chunk) && zones[z].nmax > 1
  {
  }

  lemma LiveChunk(z: Zone, live: set<nat>, c: nat)
    requires ZoneOk(z, live) && c in live
    ensures c < z.nmax
  {
  }

  lemma ZoneIsTagged(s: State, a: Abs, zonePages: nat, z: nat)
    requires UsageOk(s, a, zonePages) && Pieces(s, a, zonePages) && z in s.zones
    ensures z in a.taken && z !in a.large && a.taken[z] == zonePages && Tagged(s.usage, z, zonePages)
  {
  }

  /** Any live chunk leads rt_free to its zone. */
  lemma PointersAreFound(s: State, a: Abs, from: nat, total: nat, zonePages: nat, z: nat, c: nat)
    requires Inv(s, a, from, total, zonePages) && z in s.zones && z in a.live && c in a.live[z] && s.zones[z].chunk > 0
    ensures var page := ChunkAddress(z, s.zones[z].chunk, c) / PAGE;
            page in s.usage && s.usage[page].SmallPage? && page - s.usage[page].offset == z
  {
    hide Lists, ZonesOk, Pieces, UsageOk, Tagged, ZoneOk, Chunks, ChunkAddress;
    var size := s.zones[z].chunk;
    ZoneFacts(s.zones, a.live, zonePages, z);
    LiveChunk(s.zones[z], a.live[z], c);
    ZoneRecovered(z, zonePages * PAGE, size, c);
    ZoneIsTagged(s, a, zonePages, z);
    TaggedAt(s.usage, z, zonePages, ChunkAddress(z, size, c) / PAGE - z);
  }

  // ---------------------------------------------------------------- pages and their table

  lemma {:induction false} MarkPagesTags(usage: map<nat, Usage>, z: nat, n: nat)
    ensures var r := MarkPages(usage, z, n);
            Tagged(r, z, n) && forall p :: p in usage && !(z <= p < z + n) ==> p in r && r[p] == usage[p]
  {
    if n > 0 {
      MarkPagesTags(usage, z, n - 1);
      var m, r := MarkPages(usage, z, n - 1), MarkPages(usage, z, n);
      forall j: nat | j < n
        ensures TagAt(r, z, j)
      {
        if j < n - 1 { TaggedAt(m, z, n - 1, j); }
      }
    }
  }

  lemma {:induction false} ClearPagesElsewhere(usage: map<nat, Usage>, z: nat, n: nat)
    ensures var r := ClearPages(usage, z, n); forall p :: p in usage && !(z <= p < z + n) ==> p in r && r[p] == usage[p]
  {
    if n > 0 { ClearPagesElsewhere(usage, z, n - 1); }
  }

  lemma TaggedAt(usage: map<nat, Usage>, z: nat, n: nat, j: nat)
    requires Tagged(usage, z, n) && j < n
    ensures z + j in usage && usage[z + j] == SmallPage(j)
  {
    assert TagAt(usage, z, j);
  }

  /** Tags elsewhere stay when pages change that are not theirs. */
  lemma TagsElsewhere(usage: map<nat, Usage>, r: map<nat, Usage>, z: nat, n: nat, a: nat, k: nat)
    requires Tagged(usage, z, n) && (z + n <= a || a + k <= z)
    requires forall p :: p in usage && !(a <= p < a + k) ==> p in r && r[p] == usage[p]
    ensures Tagged(r, z, n)
  {
    forall j: nat | j < n
      ensures TagAt(r, z, j)
    {
      TaggedAt(usage, z, n, j);
    }
  }

  // ---------------------------------------------------------------- each operation

  lemma SizeFitsZone(n: nat, zonePages: nat)
    requires 0 < n && ValidZone(n, zonePages)
    ensures var (zi, size) := ZoneIndex(n);
            0 <= zi < NZONES && size > 0 && size == SizeOf(zi) && Chunks(zonePages * PAGE, size) > 1
  {
    ZoneFitsBest(n);
    var (zi, size) := ZoneIndex(n);
    assert size <= 16384 && (n < 8192 ==> size <= 8192) by { SizeBound(n); }
    BaseOffsetIs(size);
    var room := zonePages * PAGE - BaseOffset(size);
    assert room >= 2 * size;
    DivBounds(room, size);
    if Chunks(zonePages * PAGE, size) < 2 {
      AtMostOnce(room / size, size);
    }
  }

  lemma AtMostOnce(k: nat, m: nat)
    requires k < 2
    ensures Times(k, m) + m <= 2 * m
  {
  }

  lemma SizeBound(n: nat)
    requires 0 < n < 16384
    ensures ZoneIndex(n).1 <= 16384 && (n < 8192 ==> ZoneIndex(n).1 <= 8192)
  {
  }

  /** zone_limit and zone_size: zones of 8 pages hold chunks for less than 8 KB, larger ones for less than
      16 KB. */
  predicate ValidZone(n: nat, zonePages: nat) {
    zonePages >= 8 && n < (if zonePages < 16 then 8192 else 16384)
  }

  /** What the page allocator gives is no piece yet, and shares no page with the others. */
  lemma FreshPiece(s: PageAlloc.State, n: nat, from: nat, total: nat)
    requires PageAlloc.Inv(s, from, total) && n > 0 && PageAlloc.Alloc(s.list, n).0.Some?
    ensures var (r, list) := PageAlloc.Alloc(s.list, n);
            && r.value !in s.taken
            && PageAlloc.Inv(PageAlloc.State(list, s.taken[r.value := n]), from, total)
            && forall p <- s.taken :: p + s.taken[p] <= r.value || r.value + n <= p
  {
    PageAlloc.AllocKeepsInv(s, n, from, total);
    var x: nat := PageAlloc.Alloc(s.list, n).0.value;
    PageAlloc.AllocTakes(s.list, n, from, x);
    assert PageAlloc.Has(s.list, x);
    assert x !in s.taken by { if x in s.taken { assert PageAlloc.Within(x, x, s.taken[x]); } }
    var t := PageAlloc.State(PageAlloc.Alloc(s.list, n).1, s.taken[x := n]);
    assert PageAlloc.Apply(s, PageAlloc.DoAlloc(n)) == t;
    forall p | p in s.taken
      ensures p + s.taken[p] <= x || x + n <= p
    {
      assert t.taken[p] == s.taken[p] && t.taken[x] == n;
    }
  }

  // Lists

  lemma ListsTake(arrays: seq<seq<nat>>, zones: map<nat, Zone>, zi: nat, z: nat, zone: Zone)
    requires Lists(arrays, zones) && zi < NZONES && arrays[zi] != [] && arrays[zi][0] == z && z in zones
    requires zone.index == zi && zone.nfree == zones[z].nfree - 1
    ensures Lists(if zone.nfree == 0 then arrays[zi := arrays[zi][1..]] else arrays, zones[z := zone])
  {
    hide Distinct;
    assert z in arrays[zi];
    RestDistinct(arrays[zi]);
  }

  lemma ListsPut(arrays: seq<seq<nat>>, zones: map<nat, Zone>, zi: nat, z: nat, zone: Zone)
    requires Lists(arrays, zones) && zi < NZONES && (z in zones ==> zones[z].nfree <= 0 && zones[z].index == zi)
    requires zone.index == zi && zone.nfree > 0
    ensures Lists(arrays[zi := [z] + arrays[zi]], zones[z := zone])
  {
    hide Distinct;
    FirstDistinct(z, arrays[zi]);
  }

  lemma ListsSet(arrays: seq<seq<nat>>, zones: map<nat, Zone>, z: nat, zone: Zone)
    requires Lists(arrays, zones) && z in zones && zones[z].nfree > 0 && zone.nfree > 0 && zone.index == zones[z].index
    ensures Lists(arrays, zones[z := zone])
  {
    hide Distinct;
  }

  lemma ListsDrop(arrays: seq<seq<nat>>, zones: map<nat, Zone>, zi: nat, z: nat)
    requires Lists(arrays, zones) && z in zones && zones[z].index == zi
    ensures zi < NZONES && Lists(arrays[zi := Without<nat>(arrays[zi], z)], zones - {z})
  {
    hide Distinct, Without;
    WithoutDistinct(arrays[zi], z);
  }

  lemma ZonesSet(zones: map<nat, Zone>, live: map<nat, set<nat>>, zonePages: nat, z: nat, zone: Zone, chunks: set<nat>)
    requires ZonesOk(zones, live, zonePages) && ZoneOk(zone, chunks)
    requires zone.chunk > 0 && zone.index < NZONES && zone.chunk == SizeOf(zone.index)
    requires zone.nmax == Chunks(zonePages * PAGE, zone.chunk) && zone.nmax > 1
    ensures ZonesOk(zones[z := zone], live[z := chunks], zonePages)
  {
    hide ZoneOk, SizeOf, Chunks;
  }

  lemma ZonesDrop(zones: map<nat, Zone>, live: map<nat, set<nat>>, zonePages: nat, z: nat)
    requires ZonesOk(zones, live, zonePages)
    ensures ZonesOk(zones - {z}, live - {z}, zonePages)
  {
    hide ZoneOk, SizeOf, Chunks;
  }

  /** A chunk of a zone that is on its list. */
  lemma TakeFromList(s: State, a: Abs, n: nat, from: nat, total: nat, zonePages: nat)
    requires Inv(s, a, from, total, zonePages) && 0 < n && ValidZone(n, zonePages)
    requires var zi := ZoneIndex(n).0; 0 <= zi < |s.arrays| && s.arrays[zi] != []
    ensures var (r, x) := MallocSmall(s, n, zonePages);
            && x.Some? && x.value.0 in s.zones && x.value.0 in a.live && x.value.1 !in a.live[x.value.0]
            && s.zones[x.value.0].chunk == ZoneIndex(n).1
            && Inv(r, a.(live := a.live[x.value.0 := a.live[x.value.0] + {x.value.1}]), from, total, zonePages)
  {
    hide Lists, ZonesOk, PageAlloc.Inv, ZoneOk, Tagged, Distinct, Chunks, SizeOf, TakeChunk, ZoneIndex, ValidZone;
    SizeFitsZone(n, zonePages);
    var zi, size := ZoneIndex(n).0, ZoneIndex(n).1;
    OnList(s.arrays, s.zones, zi);
    var z := s.arrays[zi][0];
    ZoneFacts(s.zones, a.live, zonePages, z);
    TakeKeepsZone(s.zones[z], a.live[z]);
    TakeChunkIs(s.zones[z]);
    var zone, c := TakeChunk(s.zones[z]).0, TakeChunk(s.zones[z]).1;
    ListsTake(s.arrays, s.zones, zi, z, zone);
    ZonesSet(s.zones, a.live, zonePages, z, zone, a.live[z] + {c});
  }

  lemma OnList(arrays: seq<seq<nat>>, zones: map<nat, Zone>, zi: nat)
    requires Lists(arrays, zones) && zi < |arrays| && arrays[zi] != []
    ensures |arrays| == NZONES && arrays[zi][0] in zones && zones[arrays[zi][0]].index == zi && zones[arrays[zi][0]].nfree > 0
  {
    assert arrays[zi][0] in arrays[zi];
  }

  lemma TakeChunkIs(z: Zone)
    ensures var r := TakeChunk(z).0; r.index == z.index && r.chunk == z.chunk && r.nmax == z.nmax && r.nfree == z.nfree - 1
  {
  }

  /** An idle zone is set up again. */
  lemma TakeIdle(s: State, a: Abs, n: nat, from: nat, total: nat, zonePages: nat)
    requires Inv(s, a, from, total, zonePages) && 0 < n && ValidZone(n, zonePages) && s.idle != []
    requires var zi := ZoneIndex(n).0; 0 <= zi < |s.arrays| && s.arrays[zi] == []
    ensures var (r, x) := MallocSmall(s, n, zonePages);
            && x == Some((s.idle[0], 0)) && s.idle[0] !in s.zones
            && Inv(r, a.(live := a.live[s.idle[0] := {0}]), from, total, zonePages)
  {
    hide Lists, ZonesOk, PageAlloc.Inv, ZoneOk, Tagged, Distinct, Chunks, SizeOf, ZoneIndex, ValidZone;
    SizeFitsZone(n, zonePages);
    var zi, size := ZoneIndex(n).0, ZoneIndex(n).1;
    var z := s.idle[0];
    assert z in s.idle;
    RestDistinct(s.idle);
    var zone := NewZone(zi, size, zonePages * PAGE);
    NewZoneOk(zi, size, zonePages * PAGE);
    ListsSize(s.arrays, s.zones);
    ListsPut(s.arrays, s.zones, zi, z, zone);
    ZonesSet(s.zones, a.live, zonePages, z, zone, {0});
  }

  lemma ListsSize(arrays: seq<seq<nat>>, zones: map<nat, Zone>)
    requires Lists(arrays, zones)
    ensures |arrays| == NZONES
  {
  }

  /** A new zone on pages that were free. */
  lemma PiecesFresh(s: State, a: Abs, z: nat, zone: Zone, zonePages: nat)
    requires Pieces(s, a, zonePages) && z !in a.taken
    ensures z !in s.zones && z !in s.idle && z !in a.large
    ensures Pieces(s.(zones := s.zones[z := zone]), a.(live := a.live[z := {0}], taken := a.taken[z := zonePages]), zonePages)
  {
    hide Distinct;
  }

  lemma PiecesSame(s: State, r: State, a: Abs, zonePages: nat)
    requires Pieces(s, a, zonePages) && r.idle == s.idle && r.zones == s.zones
    ensures Pieces(r, a, zonePages)
  {
  }

  /** Pages become a zone. */
  lemma TakePages(s: State, a: Abs, n: nat, from: nat, total: nat, zonePages: nat)
    requires Inv(s, a, from, total, zonePages) && 0 < n && ValidZone(n, zonePages) && s.idle == []
    requires var zi := ZoneIndex(n).0; 0 <= zi < |s.arrays| && s.arrays[zi] == []
    ensures var (r, x) := MallocSmall(s, n, zonePages);
            if PageAlloc.Alloc(s.pages, zonePages).0.None? then r == s && x == None
            else var z := PageAlloc.Alloc(s.pages, zonePages).0.value;
                 && x == Some((z, 0)) && z !in s.zones
                 && Inv(r, a.(live := a.live[z := {0}], taken := a.taken[z := zonePages]), from, total, zonePages)
  {
    hide Lists, ZonesOk, PageAlloc.Inv, PageAlloc.Alloc, ZoneOk, Tagged, Distinct, Chunks, SizeOf, ZoneIndex, MarkPages, Pieces;
    SizeFitsZone(n, zonePages);
    var zi, size := ZoneIndex(n).0, ZoneIndex(n).1;
    var x := PageAlloc.Alloc(s.pages, zonePages).0;
    if x.Some? {
      var z := x.value;
      FreshPiece(PageAlloc.State(s.pages, a.taken), zonePages, from, total);
      var zone := NewZone(zi, size, zonePages * PAGE);
      NewZoneOk(zi, size, zonePages * PAGE);
      ListsSize(s.arrays, s.zones);
      PiecesFresh(s, a, z, zone, zonePages);
      ListsPut(s.arrays, s.zones, zi, z, zone);
      ZonesSet(s.zones, a.live, zonePages, z, zone, {0});
      var r := MallocSmall(s, n, zonePages).0;
      var b := a.(live := a.live[z := {0}], taken := a.taken[z := zonePages]);
      PiecesSame(s.(zones := s.zones[z := zone]), r, b, zonePages);
      MarkPagesTags(s.usage, z, zonePages);
      LargeTaken(PageAlloc.State(s.pages, a.taken), from, total);
      TagsKept(s, a, r.usage, z, zonePages, zonePages);
      assert UsageOk(r, b, zonePages);
    }
  }

  lemma LargeTaken(s: PageAlloc.State, from: nat, total: nat)
    requires PageAlloc.Inv(s, from, total)
    ensures forall p <- s.taken :: s.taken[p] > 0
  {
  }

  /** The tags of the pieces stay when pages change that are in none of them. */
  lemma TagsKept(s: State, a: Abs, usage: map<nat, Usage>, z: nat, k: nat, zonePages: nat)
    requires Pieces(s, a, zonePages) && UsageOk(s, a, zonePages) && forall p <- a.taken :: a.taken[p] > 0
    requires forall p <- a.taken :: p == z || p + a.taken[p] <= z || z + k <= p
    requires forall p :: p in s.usage && !(z <= p < z + k) ==> p in usage && usage[p] == s.usage[p]
    ensures forall p <- a.taken :: p != z && p !in a.large ==> Tagged(usage, p, zonePages)
    ensures forall p <- a.large :: p != z ==> p in usage && usage[p] == LargePage(a.large[p])
  {
    hide Tagged, Distinct;
    forall p | p in a.taken && p != z && p !in a.large
      ensures Tagged(usage, p, zonePages)
    {
      TagsElsewhere(s.usage, usage, p, zonePages, z, k);
    }
  }

  // Whole pages

  lemma LargeKeepsInv(s: State, a: Abs, n: nat, from: nat, total: nat, zonePages: nat)
    requires Inv(s, a, from, total, zonePages) && n > 0
    ensures var (r, x) := MallocLarge(s, n);
            if PageAlloc.Alloc(s.pages, n).0.None? then r == s && x == None
            else var p := PageAlloc.Alloc(s.pages, n).0.value;
                 && x == Some(p) && p !in a.taken
                 && Inv(r, a.(large := a.large[p := n], taken := a.taken[p := n]), from, total, zonePages)
  {
    hide Lists, ZonesOk, PageAlloc.Inv, PageAlloc.Alloc, Tagged, Distinct;
    var x := PageAlloc.Alloc(s.pages, n).0;
    if x.Some? {
      FreshPiece(PageAlloc.State(s.pages, a.taken), n, from, total);
      LargeTaken(PageAlloc.State(s.pages, a.taken), from, total);
      TagsKept(s, a, s.usage[x.value := LargePage(n)], x.value, 1, zonePages);
    }
  }

  lemma PiecesApart(s: PageAlloc.State, from: nat, total: nat, z: nat)
    requires PageAlloc.Inv(s, from, total) && z in s.taken
    ensures forall p <- s.taken :: p == z || p + s.taken[p] <= z || z + s.taken[z] <= p
    ensures forall p <- s.taken :: s.taken[p] > 0
    ensures PageAlloc.Inv(PageAlloc.State(PageAlloc.Free(s.list, z, s.taken[z]), s.taken - {z}), from, total)
  {
    PageAlloc.FreeKeepsInv(s, z, from, total);
    assert PageAlloc.Apply(s, PageAlloc.DoFree(z)) == PageAlloc.State(PageAlloc.Free(s.list, z, s.taken[z]), s.taken - {z});
  }

  lemma FreeLargeKeepsInv(s: State, a: Abs, p: nat, from: nat, total: nat, zonePages: nat)
    requires Inv(s, a, from, total, zonePages) && p in a.large
    ensures p in s.usage && s.usage[p] == LargePage(a.large[p])
    ensures Inv(FreeLarge(s, p, a.large[p]), a.(large := a.large - {p}, taken := a.taken - {p}), from, total, zonePages)
  {
    hide Lists, ZonesOk, PageAlloc.Inv, PageAlloc.Free, Tagged, Distinct;
    PiecesApart(PageAlloc.State(s.pages, a.taken), from, total, p);
    TagsKept(s, a, s.usage[p := LargePage(0)], p, 1, zonePages);
  }

  // Chunks given back

  /** The zone stays where it is, or comes back to its list. */
  lemma GiveKeepsInv(s: State, a: Abs, z: nat, c: nat, from: nat, total: nat, zonePages: nat)
    requires Inv(s, a, from, total, zonePages) && z in s.zones && z in a.live && c in a.live[z]
    ensures var zone := GiveChunk(s.zones[z], c);
            var zi := zone.index;
            && zi < |s.arrays|
            && var r := s.(zones := s.zones[z := zone], arrays := if zone.nfree == 1 then s.arrays[zi := [z] + s.arrays[zi]] else s.arrays);
            && Inv(r, a.(live := a.live[z := a.live[z] - {c}]), from, total, zonePages)
            && z in r.arrays[zi] && (zone.nfree == zone.nmax ==> a.live[z] - {c} == {})
  {
    hide Lists, ZonesOk, PageAlloc.Inv, ZoneOk, Tagged, Distinct, Chunks, SizeOf;
    ZoneFacts(s.zones, a.live, zonePages, z);
    GiveKeepsZone(s.zones[z], a.live[z], c);
    FreeCountIsNatural(s.zones[z], a.live[z]);
    var zone := GiveChunk(s.zones[z], c);
    ListsSize(s.arrays, s.zones);
    if zone.nfree == 1 { ListsPut(s.arrays, s.zones, zone.index, z, zone); } else { ListsSet(s.arrays, s.zones, z, zone); }
    ZonesSet(s.zones, a.live, zonePages, z, zone, a.live[z] - {c});
    var arrays := if zone.nfree == 1 then s.arrays[zone.index := [z] + s.arrays[zone.index]] else s.arrays;
    IsListed(arrays, s.zones[z := zone], z);
    if zone.nfree == zone.nmax { AllFree(zone, a.live[z] - {c}); }
  }

  lemma FreeCountIsNatural(z: Zone, live: set<nat>)
    requires ZoneOk(z, live)
    ensures z.nfree >= 0
  {
  }

  lemma IsListed(arrays: seq<seq<nat>>, zones: map<nat, Zone>, z: nat)
    requires Lists(arrays, zones) && z in zones && zones[z].nfree > 0
    ensures zones[z].index < |arrays| && z in arrays[zones[z].index]
  {
  }

  /** A zone becomes idle, or its pages are given back. */
  lemma PiecesRetired(s: State, a: Abs, z: nat, gone: bool, zonePages: nat)
    requires Pieces(s, a, zonePages) && z in s.zones
    ensures z in a.taken && z !in a.large && a.taken[z] == zonePages
    ensures Pieces(s.(zones := s.zones - {z}, idle := if gone then s.idle else [z] + s.idle),
                   a.(live := a.live - {z}, taken := if gone then a.taken - {z} else a.taken), zonePages)
  {
    hide Distinct;
    if !gone { FirstDistinct(z, s.idle); }
  }

  /** A zone without live chunks retires. */
  lemma RetireKeepsInv(s: State, a: Abs, z: nat, from: nat, total: nat, zonePages: nat)
    requires Inv(s, a, from, total, zonePages) && z in s.zones && s.zones[z].index < |s.arrays|
    ensures var r := Retire(s, z, s.zones[z].index, zonePages);
            var b := a.(live := a.live - {z}, taken := if |s.idle| + 1 > ZONE_RELEASE_THRESH then a.taken - {z} else a.taken);
            Inv(r, b, from, total, zonePages)
  {
    hide Lists, ZonesOk, PageAlloc.Inv, PageAlloc.Free, Tagged, Distinct, Without, ClearPages, Pieces;
    var gone := |s.idle| + 1 > ZONE_RELEASE_THRESH;
    ListsDrop(s.arrays, s.zones, s.zones[z].index, z);
    ZonesDrop(s.zones, a.live, zonePages, z);
    PiecesRetired(s, a, z, gone, zonePages);
    var r := Retire(s, z, s.zones[z].index, zonePages);
    var b := a.(live := a.live - {z}, taken := if gone then a.taken - {z} else a.taken);
    PiecesSame(s.(zones := s.zones - {z}, idle := if gone then s.idle else [z] + s.idle), r, b, zonePages);
    if gone {
      PiecesApart(PageAlloc.State(s.pages, a.taken), from, total, z);
      ClearPagesElsewhere(s.usage, z, zonePages);
      TagsKept(s, a, ClearPages(s.usage, z, zonePages), z, zonePages, zonePages);
    }
  }

  /** What rt_free of a chunk makes of the live chunks. */
  function FreedAbs(s: State, a: Abs, z: nat, c: nat, zonePages: nat): Abs
    requires z in s.zones && z in a.live
  {
    var r := FreeSmall(s, z, c, zonePages);
    if z in r.zones then a.(live := a.live[z := a.live[z] - {c}])
    else a.(live := a.live - {z}, taken := if |s.idle| + 1 > ZONE_RELEASE_THRESH then a.taken - {z} else a.taken)
  }

  lemma FreeSmallKeepsInv(s: State, a: Abs, z: nat, c: nat, from: nat, total: nat, zonePages: nat)
    requires Inv(s, a, from, total, zonePages) && z in s.zones && z in a.live && c in a.live[z]
    ensures Inv(FreeSmall(s, z, c, zonePages), FreedAbs(s, a, z, c, zonePages), from, total, zonePages)
    ensures z !in FreeSmall(s, z, c, zonePages).zones ==> a.live[z] == {c}
  {
    hide Inv, ZoneOk, Without;
    GiveKeepsInv(s, a, z, c, from, total, zonePages);
    var zone := GiveChunk(s.zones[z], c);
    var zi := zone.index;
    var s1 := s.(zones := s.zones[z := zone], arrays := if zone.nfree == 1 then s.arrays[zi := [z] + s.arrays[zi]] else s.arrays);
    var a1 := a.(live := a.live[z := a.live[z] - {c}]);
    if zone.nfree == zone.nmax && |s1.arrays[zi]| > 1 {
      RetireKeepsInv(s1, a1, z, from, total, zonePages);
      assert s1.zones - {z} == s.zones - {z} && a1.live - {z} == a.live - {z};
    }
  }

  // ---------------------------------------------------------------- whole runs

  datatype Step =
    | DoMalloc(n: nat)
    | DoMallocLarge(pages: nat)
    | DoFree(z: nat, c: nat)
    | DoFreeLarge(p: nat)

  /** A caller frees what it got and has not freed. */
  predicate Enabled(s: State, a: Abs, step: Step, zonePages: nat) {
    match step
    case DoMalloc(n) => 0 < n && ValidZone(n, zonePages)
    case DoMallocLarge(pages) => 0 < pages
    case DoFree(z, c) => z in s.zones && z in a.live && c in a.live[z]
    case DoFreeLarge(p) => p in a.large
  }

  function Apply(s: State, a: Abs, step: Step, zonePages: nat): State
    requires Enabled(s, a, step, zonePages)
  {
    match step
    case DoMalloc(n) => MallocSmall(s, n, zonePages).0
    case DoMallocLarge(pages) => MallocLarge(s, pages).0
    case DoFree(z, c) => FreeSmall(s, z, c, zonePages)
    case DoFreeLarge(p) => FreeLarge(s, p, a.large[p])
  }

  /** A new chunk is live, or a new large allocation made; a freed one is gone; no other changes. */
  function AbsStep(s: State, a: Abs, step: Step, zonePages: nat): Abs
    requires Enabled(s, a, step, zonePages)
  {
    match step
    case DoMalloc(n) =>
      var x := MallocSmall(s, n, zonePages).1;
      if x.None? then a
      else
        var (z, c) := x.value;
        a.(live := a.live[z := (if z in a.live then a.live[z] else {}) + {c}], taken := a.taken[z := zonePages])
    case DoMallocLarge(pages) =>
      var x := MallocLarge(s, pages).1;
      if x.None? then a else a.(large := a.large[x.value := pages], taken := a.taken[x.value := pages])
    case DoFree(z, c) => FreedAbs(s, a, z, c, zonePages)
    case DoFreeLarge(p) => a.(large := a.large - {p}, taken := a.taken - {p})
  }

  lemma MallocKeepsInv(s: State, a: Abs, n: nat, from: nat, total: nat, zonePages: nat)
    requires Inv(s, a, from, total, zonePages) && 0 < n && ValidZone(n, zonePages)
    ensures Inv(MallocSmall(s, n, zonePages).0, AbsStep(s, a, DoMalloc(n), zonePages), from, total, zonePages)
  {
    hide Lists, ZonesOk, PageAlloc.Inv, PageAlloc.Alloc, UsageOk, ZoneIndex, Distinct, ValidZone;
    SizeFitsZone(n, zonePages);
    ListsSize(s.arrays, s.zones);
    LiveOfZones(s.zones, a.live, zonePages);
    var zi := ZoneIndex(n).0;
    if s.arrays[zi] != [] {
      TakeFromList(s, a, n, from, total, zonePages);
      var z := MallocSmall(s, n, zonePages).1.value.0;
      assert a.taken[z := zonePages] == a.taken;
    } else if s.idle != [] {
      TakeIdle(s, a, n, from, total, zonePages);
      var z := s.idle[0];
      assert z in s.idle;
      assert a.taken[z := zonePages] == a.taken && {} + {0} == {0};
    } else {
      TakePages(s, a, n, from, total, zonePages);
      assert forall x: set<nat> :: x == {} ==> x + {0} == {0};
    }
  }

  lemma LiveOfZones(zones: map<nat, Zone>, live: map<nat, set<nat>>, zonePages: nat)
    requires ZonesOk(zones, live, zonePages)
    ensures live.Keys == zones.Keys
  {
  }

  lemma StepKeepsInv(s: State, a: Abs, step: Step, from: nat, total: nat, zonePages: nat)
    requires Inv(s, a, from, total, zonePages) && Enabled(s, a, step, zonePages)
    ensures Inv(Apply(s, a, step, zonePages), AbsStep(s, a, step, zonePages), from, total, zonePages)
  {
    hide Inv, MallocSmall, FreeSmall, FreedAbs;
    match step
    case DoMalloc(n) => MallocKeepsInv(s, a, n, from, total, zonePages);
    case DoMallocLarge(pages) => LargeKeepsInv(s, a, pages, from, total, zonePages);
    case DoFree(z, c) => FreeSmallKeepsInv(s, a, z, c, from, total, zonePages);
    case DoFreeLarge(p) => FreeLargeKeepsInv(s, a, p, from, total, zonePages);
  }

  predicate Run(s: State, a: Abs, steps: seq<Step>, zonePages: nat)
    decreases |steps|
  {
    steps == [] ||
    (Enabled(s, a, steps[0], zonePages)
     && Run(Apply(s, a, steps[0], zonePages), AbsStep(s, a, steps[0], zonePages), steps[1..], zonePages))
  }

  function After(s: State, a: Abs, steps: seq<Step>, zonePages: nat): (State, Abs)
    requires Run(s, a, steps, zonePages)
    decreases |steps|
  {
    if steps == [] then (s, a)
    else After(Apply(s, a, steps[0], zonePages), AbsStep(s, a, steps[0], zonePages), steps[1..], zonePages)
  }

  /** Over all runs: the counts of every zone are right, each chunk is live, free or never used, and only
      one of these; a zone is on its list exactly if it has chunks to give; the page table knows the zone
      of every page; and zones, idle zones, large allocations and free pages are all the pages there are. */
  lemma {:induction false} RunsKeepInv(s: State, a: Abs, steps: seq<Step>, from: nat, total: nat, zonePages: nat)
    requires Inv(s, a, from, total, zonePages) && Run(s, a, steps, zonePages)
    ensures var (r, b) := After(s, a, steps, zonePages); Inv(r, b, from, total, zonePages)
    decreases |steps|
  {
    hide Inv, Enabled, Apply, AbsStep;
    if steps != [] {
      StepKeepsInv(s, a, steps[0], from, total, zonePages);
      RunsKeepInv(Apply(s, a, steps[0], zonePages), AbsStep(s, a, steps[0], zonePages), steps[1..], from, total, zonePages);
    }
  }

  // ---------------------------------------------------------------- what is kept in store

  /** None of its chunks is live. */
  predicate Whole(zones: map<nat, Zone>, z: nat) {
    z in zones && zones[z].nfree == zones[z].nmax
  }

  /** A list keeps at most one zone that is wholly free, and at most two idle zones are kept for any list. */
  ghost predicate Thrifty(s: State) {
    && |s.idle| <= 2
    && forall i: nat, y, z :: i < |s.arrays| && y in s.arrays[i] && z in s.arrays[i] && Whole(s.zones, y) && Whole(s.zones, z) ==>
         y == z
  }

  lemma ListsAre(s: State, a: Abs, from: nat, total: nat, zonePages: nat)
    requires Inv(s, a, from, total, zonePages)
    ensures |s.arrays| == NZONES && (forall i: nat :: i < NZONES ==> Distinct(s.arrays[i]))
    ensures forall i: nat, z :: i < NZONES && z in s.arrays[i] ==> z in s.zones && s.zones[z].index == i && s.zones[z].nfree > 0
    ensures forall z <- s.zones :: s.zones[z].index < NZONES && (s.zones[z].nfree > 0 ==> z in s.arrays[s.zones[z].index])
    ensures forall z <- s.zones :: s.zones[z].nmax > 1
    ensures forall z <- s.idle :: z !in s.zones
  {
    hide PageAlloc.Inv, UsageOk, ZoneOk, Distinct;
  }

  /** A zone leaves its list exactly when its last live chunk is released and the list has another zone. It is kept as an
      idle one if there are fewer than two of these, and its pages go back otherwise. */
  lemma FreeRetires(s: State, a: Abs, z: nat, c: nat, from: nat, total: nat, zonePages: nat)
    requires Inv(s, a, from, total, zonePages) && z in s.zones && z in a.live && c in a.live[z]
    ensures var r, zi := FreeSmall(s, z, c, zonePages), s.zones[z].index;
            && zi < |s.arrays|
            && (z !in r.zones <==> a.live[z] == {c} && exists y <- s.arrays[zi] :: y != z)
            && (r.idle == if z !in r.zones && |s.idle| < 2 then [z] + s.idle else s.idle)
            && (r.pages == if z !in r.zones && |s.idle| >= 2 then PageAlloc.Free(s.pages, z, zonePages) else s.pages)
            && (r.pages != s.pages ==> forall p: nat :: z <= p < z + zonePages ==> p in r.usage && r.usage[p] == FreePage)
  {
    hide Inv, PageAlloc.Free, FreeSmall, Distinct, PageAlloc.Inv;
    LastChunk(s.zones[z], a.live[z], c, s, a, from, total, zonePages);
    ListsAre(s, a, from, total, zonePages);
    OthersInList(s.arrays[s.zones[z].index], z);
    FreeSmallIs(s, z, c, zonePages);
    forall p: nat | z <= p < z + zonePages
      ensures p in ClearPages(s.usage, z, zonePages) && ClearPages(s.usage, z, zonePages)[p] == FreePage
    {
      PageCleared(s.usage, z, zonePages, p);
    }
  }

  lemma {:induction false} PageCleared(usage: map<nat, Usage>, z: nat, n: nat, p: nat)
    requires z <= p < z + n
    ensures var r := ClearPages(usage, z, n); p in r && r[p] == FreePage
  {
    if p < z + n - 1 { PageCleared(usage, z, n - 1, p); }
  }

  lemma FreeSmallIs(s: State, z: nat, c: nat, zonePages: nat)
    requires z in s.zones && s.zones[z].index < |s.arrays|
    ensures var r, zone, q := FreeSmall(s, z, c, zonePages), s.zones[z], s.arrays[s.zones[z].index];
            var gone := zone.nfree + 1 == zone.nmax && |if zone.nfree == 0 then [z] + q else q| > 1;
            && (z !in r.zones <==> gone)
            && (r.idle == if gone && |s.idle| < 2 then [z] + s.idle else s.idle)
            && (r.pages == if gone && |s.idle| >= 2 then PageAlloc.Free(s.pages, z, zonePages) else s.pages)
            && (gone && |s.idle| >= 2 ==> r.usage == ClearPages(s.usage, z, zonePages))
  {
    hide PageAlloc.Free, ClearPages, Without;
  }

  /** Whether a list with z, or with z put in front, has others. */
  lemma OthersInList(q: seq<nat>, z: nat)
    requires Distinct(q)
    ensures z in q ==> (|q| > 1 <==> exists y <- q :: y != z)
    ensures z !in q ==> (|[z] + q| > 1 <==> exists y <- q :: y != z)
  {
    if z in q && |q| > 1 { assert q[0] != z || q[1] != z; assert q[0] in q && q[1] in q; }
    if z !in q && q != [] { assert q[0] in q; }
    if z in q && exists y <- q :: y != z {
      var y :| y in q && y != z;
      var i :| 0 <= i < |q| && q[i] == y;
      var j :| 0 <= j < |q| && q[j] == z;
    }
  }

  /** A zone is wholly free after the release exactly if the chunk was its only live one. */
  lemma LastChunk(zone: Zone, live: set<nat>, c: nat, s: State, a: Abs, from: nat, total: nat, zonePages: nat)
    requires Inv(s, a, from, total, zonePages) && c in live
    requires exists z :: z in s.zones && z in a.live && s.zones[z] == zone && a.live[z] == live
    ensures zone.nfree + 1 == zone.nmax <==> live == {c}
    ensures zone.nfree >= 0
  {
    hide PageAlloc.Inv, UsageOk, Lists, Pieces;
    assert ZoneOk(zone, live);
    GiveKeepsZone(zone, live, c);
    if zone.nfree + 1 == zone.nmax {
      AllFree(GiveChunk(zone, c), live - {c});
    } else if live == {c} {
      CountFree(zone, c);
    }
  }

  lemma CountFree(zone: Zone, c: nat)
    requires ZoneOk(zone, {c})
    ensures |zone.free| == zone.uindex && zone.nfree + 1 == zone.nmax
  {
    var all := UpTo(zone.uindex + 1) - {c};
    FewerThan(zone.free, all);
    Covers(zone.free, all);
  }

  lemma {:induction false} Covers(q: seq<nat>, all: set<nat>)
    requires forall x <- all :: x in q
    ensures |all| <= |q|
  {
    if q != [] {
      assert forall x <- all - {q[0]} :: x in q[1..];
      Covers(q[1..], all - {q[0]});
    } else {
      assert all == {};
    }
  }

  /** A change to one zone, which is not wholly free afterwards. */
  lemma OtherZones(s: State, r: State, z: nat)
    requires Thrifty(s) && |r.idle| <= 2 && !Whole(r.zones, z)
    requires forall y :: y != z && Whole(r.zones, y) ==> Whole(s.zones, y)
    requires forall i: nat, y :: i < |r.arrays| && y in r.arrays[i] && y != z ==> i < |s.arrays| && y in s.arrays[i]
    ensures Thrifty(r)
  {
    hide Whole;
    forall i: nat, y, w | i < |r.arrays| && y in r.arrays[i] && w in r.arrays[i] && Whole(r.zones, y) && Whole(r.zones, w)
      ensures y == w
    {
      assert y in s.arrays[i] && w in s.arrays[i] && Whole(s.zones, y) && Whole(s.zones, w);
    }
  }

  lemma FreeIsThrifty(s: State, a: Abs, z: nat, c: nat, from: nat, total: nat, zonePages: nat)
    requires Inv(s, a, from, total, zonePages) && z in s.zones && z in a.live && c in a.live[z] && Thrifty(s)
    ensures Thrifty(FreeSmall(s, z, c, zonePages))
  {
    hide PageAlloc.Inv, UsageOk, ZoneOk, PageAlloc.Free, ClearPages, Distinct, ZonesOk, Pieces, Lists;
    ListsAre(s, a, from, total, zonePages);
    var r := FreeSmall(s, z, c, zonePages);
    var zi := s.zones[z].index;
    WithoutHas(s.arrays[zi], z);
    WithoutHas([z] + s.arrays[zi], z);
    if !Whole(r.zones, z) {
      OtherZones(s, r, z);
    } else {
      AloneIsThrifty(s, r, z, zi);
    }
  }

  /** A zone that is wholly free and stays is alone in its list. */
  lemma AloneIsThrifty(s: State, r: State, z: nat, zi: nat)
    requires Thrifty(s) && |r.idle| <= 2 && zi < |r.arrays| == |s.arrays| && |r.arrays[zi]| <= 1
    requires forall y :: y != z && Whole(r.zones, y) ==> Whole(s.zones, y)
    requires forall i: nat :: i < |r.arrays| && i != zi ==> r.arrays[i] == s.arrays[i] && z !in s.arrays[i]
    ensures Thrifty(r)
  {
    hide Whole;
    OneMember(r.arrays[zi]);
    forall i: nat, y, w | i < |r.arrays| && y in r.arrays[i] && w in r.arrays[i] && Whole(r.zones, y) && Whole(r.zones, w)
      ensures y == w
    {
      assert i != zi ==> Whole(s.zones, y) && Whole(s.zones, w) && y in s.arrays[i] && w in s.arrays[i];
    }
  }

  lemma OneMember(q: seq<nat>)
    ensures |q| <= 1 ==> forall y, z :: y in q && z in q ==> y == z
  {
  }

  lemma NoMoreThanAll(zone: Zone, live: set<nat>)
    requires ZoneOk(zone, live)
    ensures zone.nfree <= zone.nmax
  {
    FewerThan(zone.free, UpTo(zone.uindex + 1));
  }

  lemma ZonesBound(s: State, a: Abs, from: nat, total: nat, zonePages: nat)
    requires Inv(s, a, from, total, zonePages)
    ensures forall z <- s.zones :: s.zones[z].nfree <= s.zones[z].nmax
  {
    hide PageAlloc.Inv, UsageOk, Lists, Pieces, ZoneOk;
    forall z | z in s.zones
      ensures s.zones[z].nfree <= s.zones[z].nmax
    {
      NoMoreThanAll(s.zones[z], a.live[z]);
    }
  }

  lemma MallocIsThrifty(s: State, a: Abs, n: nat, from: nat, total: nat, zonePages: nat)
    requires Inv(s, a, from, total, zonePages) && 0 < n && ValidZone(n, zonePages) && Thrifty(s)
    ensures Thrifty(MallocSmall(s, n, zonePages).0)
  {
    hide PageAlloc.Inv, PageAlloc.Alloc, UsageOk, ZoneOk, Distinct, ZonesOk, Pieces, Lists, ZoneIndex, ValidZone, MarkPages, Chunks, Thrifty;
    ListsAre(s, a, from, total, zonePages);
    SizeFitsZone(n, zonePages);
    ZonesBound(s, a, from, total, zonePages);
    ThriftyIdle(s);
    var (r, x) := MallocSmall(s, n, zonePages);
    var zi := ZoneIndex(n).0;
    if s.arrays[zi] == [] && s.idle == [] { TakePages(s, a, n, from, total, zonePages); }
    assert s.arrays[zi] != [] ==> s.arrays[zi][0] in s.arrays[zi];
    assert s.idle != [] ==> s.idle[0] in s.idle;
    if x.Some? { OtherZones(s, r, x.value.0); }
  }

  lemma ThriftyIdle(s: State)
    requires Thrifty(s)
    ensures |s.idle| <= 2
  {
  }

  lemma StepIsThrifty(s: State, a: Abs, step: Step, from: nat, total: nat, zonePages: nat)
    requires Inv(s, a, from, total, zonePages) && Enabled(s, a, step, zonePages) && Thrifty(s)
    ensures Thrifty(Apply(s, a, step, zonePages))
  {
    hide Inv, MallocSmall, FreeSmall, PageAlloc.Alloc, PageAlloc.Free;
    match step
    case DoMalloc(n) => MallocIsThrifty(s, a, n, from, total, zonePages);
    case DoMallocLarge(pages) =>
    case DoFree(z, c) => FreeIsThrifty(s, a, z, c, from, total, zonePages);
    case DoFreeLarge(p) =>
  }

  /** Chunks that were never used are given first, in order; after them the one released last. */
  lemma LastReleasedFirst(z: Zone, c: nat)
    ensures z.uindex + 1 < z.nmax ==> TakeChunk(z).1 == z.uindex + 1
    ensures z.uindex + 1 == z.nmax ==> TakeChunk(GiveChunk(z, c)) == (z, c)
  {
    assert ([c] + z.free)[1..] == z.free;
  }

  /** A chunk comes from the first zone of its list; without one, from the idle zone that was retired last; and only then
      from new pages. */
  lemma MallocChooses(s: State, a: Abs, n: nat, from: nat, total: nat, zonePages: nat)
    requires Inv(s, a, from, total, zonePages) && 0 < n && ValidZone(n, zonePages)
    ensures var (r, x), zi := MallocSmall(s, n, zonePages), ZoneIndex(n).0;
            && 0 <= zi < |s.arrays|
            && (s.arrays[zi] != [] ==> x.Some? && x.value.0 == s.arrays[zi][0])
            && (s.arrays[zi] == [] && s.idle != [] ==> x == Some((s.idle[0], 0)) && r.idle == s.idle[1..])
            && (s.arrays[zi] != [] || s.idle != [] ==> r.pages == s.pages)
            && (s.arrays[zi] == [] && s.idle == [] ==> r.pages == PageAlloc.Alloc(s.pages, zonePages).1)
  {
    hide PageAlloc.Inv, PageAlloc.Alloc, UsageOk, ZoneOk, Distinct, ZonesOk, Pieces, Lists, ZoneIndex, ValidZone, MarkPages, Chunks, TakeChunk;
    ListsAre(s, a, from, total, zonePages);
    SizeFitsZone(n, zonePages);
    PageAlloc.AllocRefuses(s.pages, zonePages);
    var zi := ZoneIndex(n).0;
    assert s.arrays[zi] != [] ==> s.arrays[zi][0] in s.arrays[zi];
  }

  /** A large allocation gives back as many pages as the page table says, and leaves a count of 0 there. */
  lemma LargeGivesBack(s: State, a: Abs, p: nat, from: nat, total: nat, zonePages: nat)
    requires Inv(s, a, from, total, zonePages) && p in a.large
    ensures p in s.usage && s.usage[p] == LargePage(a.large[p])
    ensures var r := Apply(s, a, DoFreeLarge(p), zonePages);
            && r.pages == PageAlloc.Free(s.pages, p, s.usage[p].pages)
            && r.usage == s.usage[p := LargePage(0)] && r.zones == s.zones && r.arrays == s.arrays && r.idle == s.idle
  {
    hide PageAlloc.Inv, PageAlloc.Free, Lists, ZonesOk, Pieces, Tagged;
  }

  /** Over all runs no more than one wholly free zone stays in a list, and no more than two are idle: all others have gone
      back to the page allocator. */
  lemma {:induction false} RunsAreThrifty(s: State, a: Abs, steps: seq<Step>, from: nat, total: nat, zonePages: nat)
    requires Inv(s, a, from, total, zonePages) && Run(s, a, steps, zonePages) && Thrifty(s)
    ensures Thrifty(After(s, a, steps, zonePages).0)
    decreases |steps|
  {
    hide Inv, Enabled, Apply, AbsStep, Thrifty;
    if steps != [] {
      StepKeepsInv(s, a, steps[0], from, total, zonePages);
      StepIsThrifty(s, a, steps[0], from, total, zonePages);
      RunsAreThrifty(Apply(s, a, steps[0], zonePages), AbsStep(s, a, steps[0], zonePages), steps[1..], from, total, zonePages);
    }
  }

  function EmptyArrays(n: nat): (arrays: seq<seq<nat>>)
    ensures |arrays| == n && forall i :: 0 <= i < n ==> arrays[i] == []
  {
    if n == 0 then [] else EmptyArrays(n - 1) + [[]]
  }

  /** How many pages the memusage array takes: 4 bytes for each page. */
  function UsagePages(total: nat): nat { (total * 4 + PAGE - 1) / PAGE }

  /** rt_system_heap_init: the pages of the memusage array are taken from the first run. */
  function Initial(from: nat, total: nat): State {
    State(PageAlloc.Alloc(PageAlloc.Free([], from, total), UsagePages(total)).1, map[], EmptyArrays(NZONES), [], map[])
  }

  lemma InitPages(from: nat, total: nat)
    requires total > 0
    ensures var m := UsagePages(total);
            && 0 < m <= total && PageAlloc.Alloc(PageAlloc.Free([], from, total), m).0 == Some(from)
            && PageAlloc.Inv(PageAlloc.State(Initial(from, total).pages, map[]), from + m, total - m)
  {
    var m := UsagePages(total);
    var pages := Initial(from, total).pages;
    if m < total {
      PageAlloc.InitHolds(from + m, total - m);
      assert pages == [PageAlloc.Span(from + m, total - m)];
    } else {
      assert pages == [];
    }
  }

  /** The allocator manages the pages behind the memusage array. */
  lemma InitHolds(from: nat, total: nat, zonePages: nat)
    requires total > 0
    ensures var m := UsagePages(total);
            && 0 < m <= total && PageAlloc.Alloc(PageAlloc.Free([], from, total), m).0 == Some(from)
            && Inv(Initial(from, total), Abs(map[], map[], map[]), from + m, total - m, zonePages)
            && Thrifty(Initial(from, total))
  {
    hide PageAlloc.Inv, PageAlloc.Alloc, PageAlloc.Free;
    InitPages(from, total);
    var m := UsagePages(total);
    var pages := Initial(from, total).pages;
    assert Inv(Initial(from, total), Abs(map[], map[], map[]), from + m, total - m, zonePages);
  }

  // ---------------------------------------------------------------- addresses

  /** Live chunks do not overlap, in whatever zones they are. */
  lemma LiveChunksApart(s: State, a: Abs, from: nat, total: nat, zonePages: nat, z: nat, c: nat, y: nat, d: nat)
    requires Inv(s, a, from, total, zonePages) && z in s.zones && y in s.zones && z in a.live && y in a.live
    requires c in a.live[z] && d in a.live[y] && (z != y || c != d) && s.zones[z].chunk > 0 && s.zones[y].chunk > 0
    ensures var p, q := ChunkAddress(z, s.zones[z].chunk, c), ChunkAddress(y, s.zones[y].chunk, d);
            p + s.zones[z].chunk <= q || q + s.zones[y].chunk <= p
  {
    hide Lists, ZonesOk, Pieces, UsageOk, PageAlloc.Inv, ZoneOk, Chunks, ChunkAddress;
    ZoneFacts(s.zones, a.live, zonePages, z);
    ZoneFacts(s.zones, a.live, zonePages, y);
    LiveChunk(s.zones[z], a.live[z], c);
    LiveChunk(s.zones[y], a.live[y], d);
    ZoneIsTagged(s, a, zonePages, z);
    ZoneIsTagged(s, a, zonePages, y);
    PiecesApart(PageAlloc.State(s.pages, a.taken), from, total, z);
    var size, other := s.zones[z].chunk, s.zones[y].chunk;
    ChunkInZone(z, zonePages * PAGE, size, c, c);
    ChunkInZone(y, zonePages * PAGE, other, d, d);
    if z == y {
      ChunkInZone(z, zonePages * PAGE, size, c, d);
      ChunkInZone(z, zonePages * PAGE, size, d, c);
    }
  }

  lemma ChunkNumber(z: nat, size: nat, c: nat)
    requires size > 0
    ensures (ChunkAddress(z, size, c) - z * PAGE - BaseOffset(size)) / size == c
  {
    hide BaseOffset, Times;
    var n := Times(c, size);
    DivBounds(n, size);
    var q := n / size;
    if q < c { TimesGrows(q, c, size); }
    if c < q { TimesGrows(c, q, size); }
  }

  lemma LargeIsMarked(s: State, a: Abs, from: nat, total: nat, zonePages: nat, p: nat)
    requires Inv(s, a, from, total, zonePages) && p in a.large
    ensures p in s.usage && s.usage[p] == LargePage(a.large[p])
  {
  }

  // ---------------------------------------------------------------- the object

  const NULL := -1

  function ZoneLimit(zonePages: nat): nat { if zonePages < 16 then 8192 else 16384 }

  /** The address that rt_malloc gave for what is freed. */
  function AddressOf(s: State, step: Step): nat
    requires step.DoFree? ==> step.z in s.zones && s.zones[step.z].chunk > 0
  {
    match step
    case DoFree(z, c) => ChunkAddress(z, s.zones[z].chunk, c)
    case DoFreeLarge(p) => p * PAGE
    case _ => 0
  }

  /** There are no n free pages in a row. */
  predicate NoRun(pages: seq<PageAlloc.Span>, n: nat) {
    forall i :: 0 <= i < |pages| ==> pages[i].pages < n
  }

  class SlabAllocator {
    const from: nat
    const total: nat
    const zonePages: nat
    var pages: seq<PageAlloc.Span>
    var zones: map<nat, Zone>
    var arrays: seq<seq<nat>>
    var idle: seq<nat>
    var usage: map<nat, Usage>
    ghost var shadow: Abs

    ghost function Value(): State
      reads this
    {
      State(pages, zones, arrays, idle, usage)
    }

    ghost predicate Valid()
      reads this
    {
      zonePages >= 8 && Inv(Value(), shadow, from, total, zonePages)
    }

    /** rt_system_heap_init, on the pages from `from` on. */
    constructor (from: nat, total: nat, zonePages: nat)
      requires total > 0 && zonePages >= 8
      ensures Valid() && shadow == Abs(map[], map[], map[]) && Value() == Initial(from, total)
      ensures var m := UsagePages(total);
              m <= total && this.from == from + m && this.total == total - m && this.zonePages == zonePages
    {
      hide Inv, PageAlloc.Alloc, PageAlloc.Free;
      InitHolds(from, total, zonePages);
      var m := UsagePages(total);
      this.from, this.total, this.zonePages := from + m, total - m, zonePages;
      var (first, rest) := PageAlloc.Alloc(PageAlloc.Free([], from, total), m);
      pages, zones, arrays, idle, usage := rest, map[], EmptyArrays(NZONES), [], map[];
      shadow := Abs(map[], map[], map[]);
      new;
      assert Value() == Initial(from, total);
    }

    /** The step is the one that this request is. */
    static function Request(size: nat, zonePages: nat): Step {
      if size >= ZoneLimit(zonePages) then DoMallocLarge((size + PAGE - 1) / PAGE) else DoMalloc(size)
    }

    method Malloc(size: nat) returns (ptr: int)
      requires Valid()
      modifies this
      ensures Valid()
      ensures size == 0 ==> ptr == NULL && Value() == old(Value()) && shadow == old(shadow)
      ensures size > 0 ==>
              var step := Request(size, zonePages);
              && Enabled(old(Value()), old(shadow), step, zonePages)
              && Value() == Apply(old(Value()), old(shadow), step, zonePages)
              && shadow == AbsStep(old(Value()), old(shadow), step, zonePages)
      ensures size >= ZoneLimit(zonePages) && ptr != NULL ==>
                && ptr >= 0 && ptr % PAGE == 0 && ptr / PAGE in shadow.large && ptr / PAGE !in old(shadow).large
                && shadow.large[ptr / PAGE] * PAGE >= size
      ensures 0 < size && size >= ZoneLimit(zonePages) ==>
                (ptr == NULL <==> NoRun(old(pages), (size + PAGE - 1) / PAGE))
      ensures 0 < size < ZoneLimit(zonePages) ==>
                0 <= ZoneIndex(size).0 < |old(arrays)|
                && (ptr == NULL <==> old(arrays)[ZoneIndex(size).0] == [] && old(idle) == [] && NoRun(old(pages), zonePages))
      ensures size < ZoneLimit(zonePages) && ptr != NULL ==>
                exists z, c :: && z in zones && z in shadow.live && c in shadow.live[z]
                               && (z in old(shadow).live ==> c !in old(shadow).live[z])
                               && zones[z].chunk >= size && ptr == ChunkAddress(z, zones[z].chunk, c)
    {
      hide Inv, AbsStep, ZoneIndex, PageAlloc.Alloc;
      if size == 0 { return NULL; }
      ghost var s, a := Value(), shadow;
      ghost var step := Request(size, zonePages);
      StepKeepsInv(s, a, step, from, total, zonePages);
      if size >= ZoneLimit(zonePages) {
        ptr := MallocPages((size + PAGE - 1) / PAGE);
      } else {
        ghost var z, c;
        ptr, z, c := MallocChunk(size);
      }
    }

    method MallocPages(n: nat) returns (ptr: int)
      requires Valid() && n > 0
      modifies this
      ensures Valid() && Value() == MallocLarge(old(Value()), n).0
      ensures shadow == AbsStep(old(Value()), old(shadow), DoMallocLarge(n), zonePages)
      ensures ptr == NULL <==> NoRun(old(pages), n)
      ensures ptr != NULL ==> ptr >= 0 && ptr % PAGE == 0 && ptr / PAGE in shadow.large && ptr / PAGE !in old(shadow).large && shadow.large[ptr / PAGE] == n
    {
      hide Inv, PageAlloc.Alloc;
      ghost var s, a := Value(), shadow;
      LargeKeepsInv(s, a, n, from, total, zonePages);
      LargeIsTaken(s, a, from, total, zonePages);
      PageAlloc.AllocRefuses(pages, n);
      shadow := AbsStep(s, a, DoMallocLarge(n), zonePages);
      var (r, list) := PageAlloc.Alloc(pages, n);
      if r.None? { return NULL; }
      pages := list;
      usage := usage[r.value := LargePage(n)];
      ptr := r.value * PAGE;
    }

    /** The chunk is the one of number `chunkNr` in the zone `ofZone`. */
    method MallocChunk(size: nat) returns (ptr: int, ghost ofZone: nat, ghost chunkNr: nat)
      requires Valid() && 0 < size < ZoneLimit(zonePages)
      modifies this
      ensures Valid() && Value() == MallocSmall(old(Value()), size, zonePages).0
      ensures shadow == AbsStep(old(Value()), old(shadow), DoMalloc(size), zonePages)
      ensures 0 <= ZoneIndex(size).0 < |old(arrays)|
      ensures ptr == NULL <==> old(arrays)[ZoneIndex(size).0] == [] && old(idle) == [] && NoRun(old(pages), zonePages)
      ensures ptr != NULL ==>
                && ofZone in zones && ofZone in shadow.live && chunkNr in shadow.live[ofZone]
                && (ofZone in old(shadow).live ==> chunkNr !in old(shadow).live[ofZone])
                && zones[ofZone].chunk >= size && ptr == ChunkAddress(ofZone, zones[ofZone].chunk, chunkNr)
    {
      hide Inv, PageAlloc.Alloc, ZoneIndex, SizeOf, Chunks, ChunkAddress, MarkPages, BaseOffset;
      ghost var s, a := Value(), shadow;
      SizeFitsZone(size, zonePages);
      ZoneFitsBest(size);
      MallocKeepsInv(s, a, size, from, total, zonePages);
      var (zi, chunk) := ZoneIndex(size);
      HeadOfList(s, a, from, total, zonePages, zi, size);
      PageAlloc.AllocRefuses(pages, zonePages);
      shadow := AbsStep(s, a, DoMalloc(size), zonePages);
      if arrays[zi] != [] {
        var z := arrays[zi][0];
        var (zone, c) := TakeChunk(zones[z]);
        zones := zones[z := zone];
        if zone.nfree == 0 { arrays := arrays[zi := arrays[zi][1..]]; }
        return ChunkAddress(z, chunk, c), z, c;
      }
      var z: nat;
      if idle != [] {
        z := idle[0];
        idle := idle[1..];
      } else {
        var (r, list) := PageAlloc.Alloc(pages, zonePages);
        if r.None? { return NULL, 0, 0; }
        z := r.value;
        pages := list;
        usage := MarkPages(usage, z, zonePages);
      }
      zones := zones[z := NewZone(zi, chunk, zonePages * PAGE)];
      arrays := arrays[zi := [z] + arrays[zi]];
      ptr, ofZone, chunkNr := ChunkAddress(z, chunk, 0), z, 0;
    }

    /** rt_free of a pointer that the allocator gave. `what` is what is freed; the method finds it from the
        pointer and the page table. */
    method Free(ptr: nat, ghost what: Step)
      requires Valid() && (what.DoFree? || what.DoFreeLarge?) && Enabled(Value(), shadow, what, zonePages)
      requires (what.DoFree? ==> zones[what.z].chunk > 0) && ptr == AddressOf(Value(), what)
      modifies this
      ensures Valid()
      ensures Value() == Apply(old(Value()), old(shadow), what, zonePages)
      ensures shadow == AbsStep(old(Value()), old(shadow), what, zonePages)
    {
      hide Inv, AbsStep, PageAlloc.Free, ChunkAddress, BaseOffset, Without, ClearPages, Chunks, SizeOf;
      ghost var s, a := Value(), shadow;
      StepKeepsInv(s, a, what, from, total, zonePages);
      var page := ptr / PAGE;
      if what.DoFree? {
        PointersAreFound(s, a, from, total, zonePages, what.z, what.c);
        ChunkNumber(what.z, zones[what.z].chunk, what.c);
        IndexInRange(s, a, from, total, zonePages, what.z);
      } else {
        LargeIsMarked(s, a, from, total, zonePages, what.p);
      }
      shadow := AbsStep(s, a, what, zonePages);
      if usage[page].LargePage? {
        var n := usage[page].pages;
        usage := usage[page := LargePage(0)];
        pages := PageAlloc.Free(pages, page, n);
        return;
      }
      var z := page - usage[page].offset;
      var c := (ptr - z * PAGE - BaseOffset(zones[z].chunk)) / zones[z].chunk;
      var zone := GiveChunk(zones[z], c);
      zones := zones[z := zone];
      var zi := zone.index;
      if zone.nfree == 1 { arrays := arrays[zi := [z] + arrays[zi]]; }
      if zone.nfree == zone.nmax && |arrays[zi]| > 1 {
        arrays := arrays[zi := Without<nat>(arrays[zi], z)];
        zones := zones - {z};
        idle := [z] + idle;
        if |idle| > ZONE_RELEASE_THRESH {
          idle := idle[1..];
          usage := ClearPages(usage, z, zonePages);
          pages := PageAlloc.Free(pages, z, zonePages);
        }
      }
    }
  }

  lemma LargeIsTaken(s: State, a: Abs, from: nat, total: nat, zonePages: nat)
    requires Inv(s, a, from, total, zonePages)
    ensures forall p <- a.large :: p in a.taken
  {
  }

  lemma IndexInRange(s: State, a: Abs, from: nat, total: nat, zonePages: nat, z: nat)
    requires Inv(s, a, from, total, zonePages) && z in s.zones
    ensures s.zones[z].index < |s.arrays|
  {
  }

  /** What rt_malloc finds for its size. */
  lemma HeadOfList(s: State, a: Abs, from: nat, total: nat, zonePages: nat, zi: nat, n: nat)
    requires Inv(s, a, from, total, zonePages) && 0 < n && ValidZone(n, zonePages) && zi == ZoneIndex(n).0 && zi < NZONES
    ensures |s.arrays| == NZONES && a.live.Keys == s.zones.Keys
    ensures s.arrays[zi] != [] ==>
              var z := s.arrays[zi][0];
              z in s.zones && s.zones[z].chunk == ZoneIndex(n).1 && TakeChunk(s.zones[z]).1 !in a.live[z]
              && TakeChunk(s.zones[z]).0.chunk == s.zones[z].chunk
    ensures s.arrays[zi] == [] && s.idle != [] ==> s.idle[0] !in s.zones
    ensures s.arrays[zi] == [] && s.idle == [] && PageAlloc.Alloc(s.pages, zonePages).0.Some? ==>
              PageAlloc.Alloc(s.pages, zonePages).0.value !in s.zones
  {
    hide Lists, ZonesOk, UsageOk, PageAlloc.Inv, PageAlloc.Alloc, ZoneOk, Distinct, ZoneIndex;
    ListsSize(s.arrays, s.zones);
    LiveOfZones(s.zones, a.live, zonePages);
    if s.arrays[zi] != [] { TakeFromList(s, a, n, from, total, zonePages); OnList(s.arrays, s.zones, zi); }
    else if s.idle != [] { TakeIdle(s, a, n, from, total, zonePages); }
    else { TakePages(s, a, n, from, total, zonePages); }
  }
}

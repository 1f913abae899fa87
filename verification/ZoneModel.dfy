/** Boot-time carving of physical memory: where the page descriptor array goes, and which zones the page
    frame allocator is given. */
module ZoneModel {

  const WORD: nat := 0x1_0000_0000_0000_0000
  const PAGE: nat := 4096
  /** Pages in a zone of 4 GiB. */
  const MAX_ZONE: nat := 0x10_0000

  datatype Kind = Usable | Reclaimable | Reserved
  datatype Entry = Entry(base: nat, length: nat, kind: Kind)

  /** `count` pages from page `first` on. */
  datatype Zone = Zone(first: nat, count: nat)

  /** The memory map the boot protocol promises: usable and reclaimable entries are page-aligned, inside the
      address space, and do not overlap. */
  predicate Aligned(e: Entry) { e.kind != Reserved ==> e.base % PAGE == 0 && e.length % PAGE == 0 && e.base + e.length < WORD }

  predicate Contains(e: Entry, p: nat) { e.kind == Usable && e.base / PAGE <= p < (e.base + e.length) / PAGE }

  ghost predicate MapOk(es: seq<Entry>) {
    && (forall i :: 0 <= i < |es| ==> Aligned(es[i]))
    && (forall i, j, p :: 0 <= i < j < |es| && Contains(es[i], p) ==> !Contains(es[j], p))
  }

  function Bit(b: bool): nat { if b then 1 else 0 }

  /** How many usable entries contain a page; one or none in a map without overlaps. */
  function Usables(es: seq<Entry>, p: nat): nat {
    if es == [] then 0 else Usables(es[..|es| - 1], p) + Bit(Contains(es[|es| - 1], p))
  }

  predicate InZone(z: Zone, p: nat) { z.first <= p < z.first + z.count }

  /** How many zones contain a page. */
  function Covers(zs: seq<Zone>, p: nat): nat {
    if zs == [] then 0 else Covers(zs[..|zs| - 1], p) + Bit(InZone(zs[|zs| - 1], p))
  }

  lemma {:induction false} CoversAppend(a: seq<Zone>, b: seq<Zone>, p: nat)
    ensures Covers(a + b, p) == Covers(a, p) + Covers(b, p)
  {
    if b == [] {
      assert a + b == a;
    } else {
      assert (a + b)[..|a + b| - 1] == a + b[..|b| - 1];
      CoversAppend(a, b[..|b| - 1], p);
    }
  }

  /** A zone that contains a page counts. */
  lemma {:induction false} CoversOne(zs: seq<Zone>, i: nat, p: nat)
    requires i < |zs| && InZone(zs[i], p)
    ensures Covers(zs, p) >= 1
  {
    if i < |zs| - 1 { CoversOne(zs[..|zs| - 1], i, p); }
  }

  lemma {:induction false} CoversTwo(zs: seq<Zone>, i: nat, j: nat, p: nat)
    requires i < j < |zs| && InZone(zs[i], p) && InZone(zs[j], p)
    ensures Covers(zs, p) >= 2
  {
    if j == |zs| - 1 { CoversOne(zs[..|zs| - 1], i, p); } else { CoversTwo(zs[..|zs| - 1], i, j, p); }
  }

  lemma {:induction false} CoveredBySome(zs: seq<Zone>, p: nat) returns (i: nat)
    requires Covers(zs, p) >= 1
    ensures i < |zs| && InZone(zs[i], p)
  {
    if InZone(zs[|zs| - 1], p) {
      i := |zs| - 1;
    } else {
      i := CoveredBySome(zs[..|zs| - 1], p);
    }
  }

  lemma {:induction false} UsablesAtMostOne(es: seq<Entry>, p: nat)
    requires MapOk(es)
    ensures Usables(es, p) <= 1
    ensures Usables(es, p) == 1 ==> exists i :: 0 <= i < |es| && Contains(es[i], p)
  {
    if es != [] {
      var front := es[..|es| - 1];
      assert MapOk(front) by {
        forall i, j, q | 0 <= i < j < |front| && Contains(front[i], q) ensures !Contains(front[j], q) {
          assert Contains(es[i], q);
        }
      }
      UsablesAtMostOne(front, p);
      if Usables(front, p) == 1 {
        var i :| 0 <= i < |front| && Contains(front[i], p);
        assert Contains(es[i], p);
      }
    }
  }

  lemma {:induction false} UsablesSome(es: seq<Entry>, i: nat, p: nat)
    requires i < |es| && Contains(es[i], p)
    ensures Usables(es, p) >= 1
  {
    if i < |es| - 1 { UsablesSome(es[..|es| - 1], i, p); }
  }

  /** Some usable entry contains the page. */
  ghost predicate UsablePage(es: seq<Entry>, p: nat) { exists i: nat :: i < |es| && Contains(es[i], p) }

  /** In a map without overlaps the count says whether a page is usable. */
  lemma UsablesCount(es: seq<Entry>, p: nat)
    requires MapOk(es)
    ensures Usables(es, p) == Bit(UsablePage(es, p))
  {
    UsablesAtMostOne(es, p);
    if i: nat :| i < |es| && Contains(es[i], p) { UsablesSome(es, i, p); }
  }

  // ---- The zones -----------------------------------------------------------------------------------

  /** A run of pages cut into zones of at most 4 GiB. */
  function Chunks(first: nat, count: nat): seq<Zone>
    decreases count
  {
    if count == 0 then []
    else
      var n := if count > MAX_ZONE then MAX_ZONE else count;
      [Zone(first, n)] + Chunks(first + n, count - n)
  }

  lemma {:induction false} ChunksCover(first: nat, count: nat, p: nat)
    ensures Covers(Chunks(first, count), p) == Bit(first <= p < first + count)
    ensures forall z :: z in Chunks(first, count) ==> 0 < z.count <= MAX_ZONE
    decreases count
  {
    if count > 0 {
      var n := if count > MAX_ZONE then MAX_ZONE else count;
      ChunksCover(first + n, count - n, p);
      CoversAppend([Zone(first, n)], Chunks(first + n, count - n), p);
      assert Covers([Zone(first, n)], p) == Bit(InZone(Zone(first, n), p)) by { assert [Zone(first, n)][..0] == []; }
    }
  }

  /** The chunks follow one another, and all but the last are exactly 4 GiB. */
  lemma {:induction false} ChunksAreFull(first: nat, count: nat, i: nat)
    requires i < |Chunks(first, count)|
    ensures var cs := Chunks(first, count);
      && cs[i].first == first + i * 0x10_0000
      && cs[i].count == if i < |cs| - 1 then 0x10_0000 else count - i * 0x10_0000
    decreases count
  {
    var n := if count > MAX_ZONE then MAX_ZONE else count;
    var rest := Chunks(first + n, count - n);
    if i > 0 { ChunksAreFull(first + n, count - n, i - 1); }
  }

  /** The zones of one entry, of which the descriptor array takes the first `used` bytes. */
  function EntryZones(e: Entry, used: nat): seq<Zone> {
    if e.kind != Usable || e.length <= used then []
    else Chunks((e.base + used) / PAGE, (e.length - used) / PAGE)
  }

  /** The zones of the first entries; entry `best` holds the descriptor array. */
  function Zones(es: seq<Entry>, best: nat, used: nat): seq<Zone> {
    if es == [] then []
    else Zones(es[..|es| - 1], best, used) + EntryZones(es[|es| - 1], if |es| - 1 == best then used else 0)
  }

  /** The pages of the descriptor array. */
  predicate Footprint(es: seq<Entry>, best: nat, used: nat, p: nat) {
    best < |es| && es[best].base / PAGE <= p < (es[best].base + used) / PAGE
  }

  lemma EntryZonesCover(e: Entry, used: nat, p: nat)
    requires Aligned(e) && used % PAGE == 0 && (e.kind == Usable ==> used <= e.length)
    ensures Covers(EntryZones(e, used), p) == Bit(Contains(e, p) && (e.base + used) / PAGE <= p)
    ensures forall z :: z in EntryZones(e, used) ==> 0 < z.count <= MAX_ZONE
  {
    if e.kind == Usable && e.length > used {
      ChunksCover((e.base + used) / PAGE, (e.length - used) / PAGE, p);
      assert (e.base + used) / PAGE + (e.length - used) / PAGE == (e.base + e.length) / PAGE;
    }
  }

  /** Page by page: the zones and the descriptor array together are exactly the usable memory. */
  lemma {:induction false} ZonesPartition(es: seq<Entry>, best: nat, used: nat, p: nat)
    requires (forall i :: 0 <= i < |es| ==> Aligned(es[i])) && used % PAGE == 0
    requires best < |es| ==> es[best].kind == Usable && used <= es[best].length
    ensures Covers(Zones(es, best, used), p) + Bit(Footprint(es, best, used, p)) == Usables(es, p)
    ensures forall z :: z in Zones(es, best, used) ==> 0 < z.count <= MAX_ZONE
  {
    if es != [] {
      var front, last := es[..|es| - 1], es[|es| - 1];
      var here := if |es| - 1 == best then used else 0;
      ZonesPartition(front, best, used, p);
      EntryZonesCover(last, here, p);
      CoversAppend(Zones(front, best, used), EntryZones(last, here), p);
    }
  }

  function MaxEnd(es: seq<Entry>): nat {
    if es == [] then 0
    else
      var m, e := MaxEnd(es[..|es| - 1]), es[|es| - 1];
      if e.kind != Reserved && (e.base + e.length) % WORD > m then (e.base + e.length) % WORD else m
  }

  function TotalPages(es: seq<Entry>): nat { (MaxEnd(es) + PAGE - 1) % WORD / PAGE }

  lemma {:induction false} MaxEndBounds(es: seq<Entry>)
    requires forall i :: 0 <= i < |es| ==> Aligned(es[i])
    ensures MaxEnd(es) % PAGE == 0 && MaxEnd(es) < WORD
    ensures forall i :: 0 <= i < |es| && es[i].kind != Reserved ==> es[i].base + es[i].length <= MaxEnd(es)
    ensures MaxEnd(es) == 0 || exists i :: 0 <= i < |es| && es[i].kind != Reserved && MaxEnd(es) == es[i].base + es[i].length
  {
    if es != [] {
      MaxEndBounds(es[..|es| - 1]);
      var e := es[|es| - 1];
      if e.kind != Reserved { assert (e.base + e.length) % PAGE == 0; }
      forall i | 0 <= i < |es| && es[i].kind != Reserved ensures es[i].base + es[i].length <= MaxEnd(es) {
        if i < |es| - 1 { assert es[..|es| - 1][i] == es[i]; }
      }
      var front := es[..|es| - 1];
      if MaxEnd(es) != MaxEnd(front) {
        assert MaxEnd(es) == e.base + e.length;
      } else if i :| 0 <= i < |front| && front[i].kind != Reserved && MaxEnd(front) == front[i].base + front[i].length {
        assert es[i] == front[i];
      }
    }
  }

  /** The page total is the end, in pages, of the highest usable or reclaimable entry, or zero without one. */
  lemma TotalIsHighest(es: seq<Entry>)
    requires forall i :: 0 <= i < |es| ==> Aligned(es[i])
    ensures forall i :: 0 <= i < |es| && es[i].kind != Reserved ==> es[i].base + es[i].length <= TotalPages(es) * 4096
    ensures TotalPages(es) == 0 || exists i :: 0 <= i < |es| && es[i].kind != Reserved && TotalPages(es) * 4096 == es[i].base + es[i].length
  {
    MaxEndBounds(es);
    RoundedUp(MaxEnd(es));
  }

  /** Usable pages have descriptors. */
  lemma UsableBelowTotal(es: seq<Entry>, p: nat)
    requires MapOk(es) && Usables(es, p) == 1
    ensures p < TotalPages(es)
  {
    UsablesAtMostOne(es, p);
    var i :| 0 <= i < |es| && Contains(es[i], p);
    MaxEndBounds(es);
    PageMono(es[i].base + es[i].length, MaxEnd(es));
    RoundedUp(MaxEnd(es));
  }

  lemma PageMono(a: nat, b: nat)
    requires a <= b
    ensures a / PAGE <= b / PAGE
  {}

  lemma RoundedUp(m: nat)
    requires m % PAGE == 0 && m < WORD
    ensures (m + PAGE - 1) % WORD / PAGE == m / PAGE
  {}

  /** What the allocator can rely on: zones of at most 4 GiB below `total`, disjoint, and together exactly
      the pages that are `free`. */
  ghost predicate Carved(zs: seq<Zone>, free: nat -> bool, total: nat) {
    && (forall i :: 0 <= i < |zs| ==> 0 < zs[i].count <= MAX_ZONE && zs[i].first + zs[i].count <= total)
    && (forall i, j, p :: 0 <= i < j < |zs| && InZone(zs[i], p) ==> !InZone(zs[j], p))
    && (forall p: nat :: free(p) <==> exists i :: 0 <= i < |zs| && InZone(zs[i], p))
  }

  lemma CountsCarve(zs: seq<Zone>, free: nat -> bool, total: nat)
    requires forall p: nat :: Covers(zs, p) == Bit(free(p)) && (free(p) ==> p < total)
    requires forall z :: z in zs ==> 0 < z.count <= MAX_ZONE
    ensures Carved(zs, free, total)
  {
    forall i | 0 <= i < |zs| ensures 0 < zs[i].count <= MAX_ZONE && zs[i].first + zs[i].count <= total {
      assert zs[i] in zs;
      CoversOne(zs, i, zs[i].first + zs[i].count - 1);
    }
    forall i, j, p: nat | 0 <= i < j < |zs| && InZone(zs[i], p) ensures !InZone(zs[j], p) {
      if InZone(zs[j], p) { CoversTwo(zs, i, j, p); }
    }
    forall p: nat ensures free(p) <==> exists i :: 0 <= i < |zs| && InZone(zs[i], p) {
      if free(p) {
        var i := CoveredBySome(zs, p);
      } else if i :| 0 <= i < |zs| && InZone(zs[i], p) {
        CoversOne(zs, i, p);
      }
    }
  }

  /** Usable and not taken by the descriptor array. */
  ghost function FreePages(es: seq<Entry>, best: nat, used: nat): nat -> bool {
    (p: nat) => UsablePage(es, p) && !Footprint(es, best, used, p)
  }

  /** The zones are disjoint, at most 4 GiB, below the page total, clear of the descriptor array, and
      together exactly the usable pages that the array leaves. */
  lemma ZonesCarve(es: seq<Entry>, best: nat, used: nat)
    requires MapOk(es) && used % PAGE == 0 && best < |es| && es[best].kind == Usable && used <= es[best].length
    ensures Carved(Zones(es, best, used), FreePages(es, best, used), TotalPages(es))
  {
    var zs, free := Zones(es, best, used), FreePages(es, best, used);
    forall p: nat ensures Covers(zs, p) == Bit(free(p)) && (free(p) ==> p < TotalPages(es)) {
      ZonesPartition(es, best, used, p);
      UsablesCount(es, p);
      if free(p) { UsableBelowTotal(es, p); }
    }
    ZonesPartition(es, best, used, 0);
    CountsCarve(zs, free, TotalPages(es));
  }
}

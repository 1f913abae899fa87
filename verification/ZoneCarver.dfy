/** The memory-map loops of the memory manager's initialisation. */
module ZoneCarver {
  import opened ZoneModel

  datatype Option<T> = None | Some(value: T)

  /** The first scan: how many pages need descriptors. */
  method CountPages(es: seq<Entry>) returns (pages: nat)
    ensures pages == TotalPages(es)
  {
    var max := 0;
    for i := 0 to |es|
      invariant max == MaxEnd(es[..i])
    {
      assert es[..i + 1][..i] == es[..i];
      var e := es[i];
      if e.kind == Usable || e.kind == Reclaimable {
        if (e.base + e.length) % WORD > max { max := (e.base + e.length) % WORD; }
      }
    }
    assert es[..|es|] == es;
    pages := (max + PAGE - 1) % WORD / PAGE;
  }

  predicate Fits(e: Entry, size: nat) { e.kind == Usable && e.length >= size }

  /** The second scan: the largest usable entry with room for the descriptor array, the first of equals. */
  method FindBest(es: seq<Entry>, size: nat) returns (best: Option<nat>)
    ensures best.None? <==> forall i :: 0 <= i < |es| ==> !Fits(es[i], size)
    ensures best.Some? ==>
      && best.value < |es| && Fits(es[best.value], size)
      && (forall i :: 0 <= i < |es| && Fits(es[i], size) ==> es[i].length <= es[best.value].length)
      && (forall i :: 0 <= i < best.value && Fits(es[i], size) ==> es[i].length < es[best.value].length)
  {
    best := None;
    for i := 0 to |es|
      invariant best.None? <==> forall k :: 0 <= k < i ==> !Fits(es[k], size)
      invariant best.Some? ==>
        && best.value < i && Fits(es[best.value], size)
        && (forall k :: 0 <= k < i && Fits(es[k], size) ==> es[k].length <= es[best.value].length)
        && (forall k :: 0 <= k < best.value && Fits(es[k], size) ==> es[k].length < es[best.value].length)
    {
      if es[i].kind == Usable && es[i].length >= size {
        if best.None? || es[i].length > es[best.value].length { best := Some(i); }
      }
    }
  }

  /** Cut a run of bytes into zones. */
  method Split(base: nat, length: nat) returns (zs: seq<Zone>)
    requires base % PAGE == 0 && length % PAGE == 0
    ensures zs == Chunks(base / PAGE, length / PAGE)
  {
    zs := [];
    var from: nat, left: nat := base, length;
    ghost var first: nat, count: nat := base / PAGE, length / PAGE;
    while left >= PAGE
      invariant from % PAGE == 0 && left % PAGE == 0 && from / PAGE == first && left / PAGE == count
      invariant zs + Chunks(first, count) == Chunks(base / PAGE, length / PAGE)
      decreases left
    {
      var chunk: nat := left;
      if chunk > MAX_ZONE * PAGE { chunk := MAX_ZONE * PAGE; }
      ChunkPages(from, left, chunk);
      var n := chunk / PAGE;
      ChunksAre(first, count, n);
      zs := zs + [Zone(from / PAGE, n)];
      from, left := from + chunk, left - chunk;
      first, count := first + n, count - n;
    }
  }

  lemma ChunkPages(from: nat, left: nat, chunk: nat)
    requires from % PAGE == 0 && left % PAGE == 0 && left >= PAGE && chunk == if left > MAX_ZONE * PAGE then MAX_ZONE * PAGE else left
    ensures chunk % PAGE == 0 && (from + chunk) % PAGE == 0 && (left - chunk) % PAGE == 0 && 0 < chunk <= left
    ensures (from + chunk) / PAGE == from / PAGE + chunk / PAGE && (left - chunk) / PAGE == left / PAGE - chunk / PAGE
    ensures 0 < left / PAGE && chunk / PAGE == if left / PAGE > MAX_ZONE then MAX_ZONE else left / PAGE
  {}

  lemma ChunksAre(first: nat, count: nat, n: nat)
    requires count > 0 && n == if count > MAX_ZONE then MAX_ZONE else count
    ensures Chunks(first, count) == [Zone(first, n)] + Chunks(first + n, count - n)
  {}

  /** The whole of it.  `storage` gives the size of a descriptor array for a number of pages; without a
      usable entry that can hold the array the kernel stops. */
  method Carve(es: seq<Entry>, storage: nat -> nat) returns (zs: seq<Zone>, best: Option<nat>, used: nat)
    requires MapOk(es)
    ensures best.None? <==> forall i :: 0 <= i < |es| ==> !Fits(es[i], storage(TotalPages(es)))
    ensures best.Some? ==> best.value < |es| && es[best.value].kind == Usable
    ensures best.Some? ==> used % PAGE == 0 && storage(TotalPages(es)) <= used < storage(TotalPages(es)) + PAGE && used <= es[best.value].length
    ensures best.Some? ==> Carved(zs, FreePages(es, best.value, used), TotalPages(es))
  {
    zs, used := [], 0;
    var pages := CountPages(es);
    var size := storage(pages);
    best := FindBest(es, size);
    if best.None? { return; }
    var b := best.value;
    RoomFor(es[b].length, size);
    used := (size + PAGE - 1) / PAGE * PAGE;
    zs := Register(es, b, used);
    ZonesCarve(es, b, used);
  }

  /** A page-aligned run with room for `size` bytes has room for `size` rounded up. */
  lemma RoomFor(length: nat, size: nat)
    requires length % PAGE == 0 && size <= length
    ensures (size + PAGE - 1) / PAGE * PAGE <= length
    ensures (size + PAGE - 1) / PAGE * PAGE % PAGE == 0 && size <= (size + PAGE - 1) / PAGE * PAGE < size + PAGE
  {}

  /** The third loop: register the zones of every usable entry. */
  method Register(es: seq<Entry>, best: nat, used: nat) returns (zs: seq<Zone>)
    requires (forall i :: 0 <= i < |es| ==> Aligned(es[i])) && used % PAGE == 0
    ensures zs == Zones(es, best, used)
  {
    zs := [];
    for i := 0 to |es|
      invariant zs == Zones(es[..i], best, used)
    {
      assert es[..i + 1][..i] == es[..i];
      var more := RegisterEntry(es[i], if i == best then used else 0);
      zs := zs + more;
    }
    assert es[..|es|] == es;
  }

  method RegisterEntry(e: Entry, used: nat) returns (zs: seq<Zone>)
    requires Aligned(e) && used % PAGE == 0
    ensures zs == EntryZones(e, used)
  {
    zs := [];
    if e.kind == Usable {
      if e.length <= used { return; }
      assert (e.base + used) % PAGE == 0 && (e.length - used) % PAGE == 0;
      zs := Split(e.base + used, e.length - used);
    }
  }
}

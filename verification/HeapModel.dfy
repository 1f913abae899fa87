/** The pages of a program: what the ELF loader maps, and the heap that brk grows and shrinks above it. */
module HeapModel {

  const WORD: nat := 0x1_0000_0000_0000_0000
  const PAGE: nat := 4096
  /** The end of user space; no mapping reaches beyond it. */
  const USER_TOP: nat := 0xFF_FFFF_FFFF_F000

  type u64 = x: int | 0 <= x < 0x1_0000_0000_0000_0000

  datatype Option<T> = None | Some(value: T)

  /** `pages` are the page numbers mapped for segments and heap; `twice` is set once a page is mapped that
      is mapped already. */
  datatype Space = Space(start: nat, end: nat, pages: set<nat>, twice: bool)

  function Range(lo: nat, hi: nat): (r: set<nat>)
    ensures forall p :: p in r <==> lo <= p < hi
    decreases hi
  {
    if lo >= hi then {} else Range(lo, hi - 1) + {hi - 1}
  }

  /** Rounding up to a page in 64 bits, and the number of the page it gives. */
  function Up64(a: nat): nat { (a + 0xFFF) % WORD / PAGE * PAGE }
  function UpPage(a: nat): nat { (a + 0xFFF) / PAGE }

  lemma Up64Is(a: nat)
    requires a < WORD
    ensures a + 0xFFF < WORD ==> Up64(a) == UpPage(a) * PAGE && Up64(a) / PAGE == UpPage(a)
    ensures a + 0xFFF >= WORD ==> Up64(a) == 0 && UpPage(a) == WORD / PAGE
  {}

  lemma UpPageMono(a: nat, b: nat)
    requires a <= b
    ensures UpPage(a) <= UpPage(b)
  {}

  // ---- The address space's operations ---------------------------------------------------------------

  function Map(s: Space, at: nat, len: nat): Space {
    var r := Range(at / PAGE, (at + len) / PAGE);
    s.(pages := s.pages + r, twice := s.twice || s.pages * r != {})
  }

  function Unmap(s: Space, at: nat, len: nat): Space {
    s.(pages := s.pages - Range(at / PAGE, (at + len) / PAGE))
  }

  // ---- brk ------------------------------------------------------------------------------------------

  /** A request to move the end of the heap; `mapped` is whether a mapping it needs succeeds. */
  datatype Request = Request(brk: u64, mapped: bool)

  function Brk(s: Space, r: Request): Space {
    if r.brk == 0 || r.brk < s.start then s
    else if r.brk > s.end && Up64(r.brk) > Up64(s.end) then
      if r.mapped then Map(s, Up64(s.end), Up64(r.brk) - Up64(s.end)).(end := r.brk) else s
    else if r.brk < s.end && Up64(r.brk) < Up64(s.end) then
      Unmap(s, Up64(r.brk), Up64(s.end) - Up64(r.brk)).(end := r.brk)
    else s.(end := r.brk)
  }

  /** The heap is exactly its pages: they are mapped once each, from the page after the loaded segments to
      the end of the heap rounded up. */
  ghost predicate HeapOk(s: Space, loaded: set<nat>) {
    && s.start % PAGE == 0 && s.start <= s.end && s.end + 0xFFF < WORD && !s.twice
    && (forall p :: p in loaded ==> p < s.start / PAGE)
    && s.pages == loaded + Range(s.start / PAGE, UpPage(s.end))
  }

  lemma PageOf(s: Space, loaded: set<nat>)
    requires HeapOk(s, loaded)
    ensures s.start / PAGE <= UpPage(s.end)
  {}

  lemma GrowKeeps(s: Space, loaded: set<nat>, brk: nat)
    requires HeapOk(s, loaded) && s.end < brk && brk + 0xFFF < WORD && UpPage(s.end) < UpPage(brk)
    ensures HeapOk(Map(s, Up64(s.end), Up64(brk) - Up64(s.end)).(end := brk), loaded)
  {
    Up64Is(s.end);
    Up64Is(brk);
    PageOf(s, loaded);
    var a, b, c := s.start / PAGE, UpPage(s.end), UpPage(brk);
    assert Range(a, c) == Range(a, b) + Range(b, c);
    assert s.pages * Range(b, c) == {};
  }

  lemma ShrinkKeeps(s: Space, loaded: set<nat>, brk: nat)
    requires HeapOk(s, loaded) && s.start <= brk < s.end && UpPage(brk) < UpPage(s.end)
    ensures HeapOk(Unmap(s, Up64(brk), Up64(s.end) - Up64(brk)).(end := brk), loaded)
  {
    Up64Is(s.end);
    Up64Is(brk);
    var a, b, c := s.start / PAGE, UpPage(brk), UpPage(s.end);
    assert a <= b;
    assert Range(a, c) - Range(b, c) == Range(a, b);
    assert loaded - Range(b, c) == loaded;
  }

  /** After a request the mapped pages are exactly the loaded ones and those of the heap, and the heap is in
      order for the next request, if and only if the request rounds up without wrapping: one that wraps
      moves the end of the heap without mapping anything. */
  lemma BrkKeepsIff(s: Space, loaded: set<nat>, r: Request)
    requires HeapOk(s, loaded)
    ensures HeapOk(Brk(s, r), loaded) <==> r.brk + 0xFFF < WORD
    ensures Brk(s, r).pages == loaded + Range(s.start / PAGE, UpPage(Brk(s, r).end)) <==> r.brk + 0xFFF < WORD
    ensures Brk(s, r).start == s.start
  {
    Up64Is(s.end);
    Up64Is(r.brk);
    if r.brk + 0xFFF < WORD && r.brk >= s.start && r.brk != 0 {
      if r.brk > s.end {
        UpPageMono(s.end, r.brk);
        if UpPage(r.brk) > UpPage(s.end) { GrowKeeps(s, loaded, r.brk); }
      } else if r.brk < s.end {
        UpPageMono(r.brk, s.end);
        if UpPage(r.brk) < UpPage(s.end) { ShrinkKeeps(s, loaded, r.brk); }
      }
    } else if r.brk + 0xFFF >= WORD {
      WrapUnmapped(s, loaded, r.brk);
    }
  }

  /** When the end wraps, the last page of the address space counts as heap and is not mapped. */
  lemma WrapUnmapped(s: Space, loaded: set<nat>, brk: u64)
    requires HeapOk(s, loaded) && brk + 0xFFF >= WORD
    ensures s.start <= brk && s.pages != loaded + Range(s.start / PAGE, UpPage(brk))
  {
    var last := WORD / PAGE - 1;
    assert last in Range(s.start / PAGE, UpPage(brk));
    assert last !in s.pages;
  }

  /** What a request answers: the new end, or the old one when it is zero, below the heap or cannot be mapped,
      and then nothing changes. */
  lemma BrkAnswers(s: Space, loaded: set<nat>, r: Request)
    requires HeapOk(s, loaded) && r.brk + 0xFFF < WORD
    ensures Brk(s, r) == s || Brk(s, r).end == r.brk
    ensures Brk(s, r) == s <== r.brk == 0 || r.brk < s.start || (UpPage(r.brk) > UpPage(s.end) && !r.mapped)
    ensures r.brk >= s.start && r.brk != 0 && (r.mapped || UpPage(r.brk) <= UpPage(s.end)) ==> Brk(s, r).end == r.brk
  {
    Up64Is(s.end);
    Up64Is(r.brk);
    if r.brk <= s.end { UpPageMono(r.brk, s.end); } else { UpPageMono(s.end, r.brk); }
  }

  function BrkAll(s: Space, rs: seq<Request>): Space
    decreases |rs|
  {
    if rs == [] then s else BrkAll(Brk(s, rs[0]), rs[1..])
  }

  /** Every sequence of requests that round up without wrapping keeps the heap exact. */
  lemma {:induction false} BrkRunKeeps(s: Space, loaded: set<nat>, rs: seq<Request>)
    requires HeapOk(s, loaded) && forall i :: 0 <= i < |rs| ==> rs[i].brk + 0xFFF < WORD
    ensures HeapOk(BrkAll(s, rs), loaded) && BrkAll(s, rs).start == s.start
    decreases |rs|
  {
    if rs != [] {
      BrkKeepsIff(s, loaded, rs[0]);
      BrkRunKeeps(Brk(s, rs[0]), loaded, rs[1..]);
    }
  }

  // ---- Loading --------------------------------------------------------------------------------------

  /** A PT_LOAD header, and whether its mapping and faults succeed. */
  datatype Segment = Segment(vaddr: u64, memsz: u64, mapped: bool, faulted: bool)

  datatype Loaded = Done(heapBase: nat) | ENOEXEC | ENOMEM

  function Address(g: Segment, bias: nat): nat { (g.vaddr + bias) % WORD }
  function Padding(g: Segment, bias: nat): nat { Address(g, bias) % PAGE }
  function Base(g: Segment, bias: nat): nat { Address(g, bias) - Padding(g, bias) }

  /** Length of the mapping and end of the segment, both in 64 bits. */
  function MapSize(g: Segment, bias: nat): nat { Up64(g.memsz + Padding(g, bias)) }
  function End(g: Segment, bias: nat): nat { (Address(g, bias) + g.memsz) % WORD }

  /** The pages a segment covers, and those the loader maps for it. */
  function SegmentPages(g: Segment, bias: nat): set<nat> { Range(Address(g, bias) / PAGE, UpPage(Address(g, bias) + g.memsz)) }
  function MappedPages(g: Segment, bias: nat): set<nat> { Range(Base(g, bias) / PAGE, (Base(g, bias) + MapSize(g, bias)) / PAGE) }

  /** The size rounds up without wrapping. */
  predicate Honest(g: Segment, bias: nat) { g.memsz + Padding(g, bias) + 0xFFF < WORD }

  /** Can the segment be loaded: not in the null page, inside user space, and with memory for it? */
  predicate Loadable(g: Segment, bias: nat) {
    Base(g, bias) != 0 && g.mapped && Base(g, bias) + MapSize(g, bias) <= USER_TOP && g.faulted
  }

  /** In terms of the header: the biased address is not in the null page, the rounded size does not reach beyond
      user space, and there is memory. */
  lemma LoadableIff(g: Segment, bias: nat)
    ensures var v := (g.vaddr + bias) % 0x1_0000_0000_0000_0000;
      var size := (g.memsz + v % 4096 + 0xFFF) % 0x1_0000_0000_0000_0000;
      Loadable(g, bias) <==> v >= 4096 && v - v % 4096 + (size - size % 4096) <= 0xFF_FFFF_FFFF_F000 && g.mapped && g.faulted
  {}

  lemma Shift(k: nat, n: nat)
    ensures UpPage(k * PAGE + n) == k + UpPage(n)
  {}

  lemma Parts(g: Segment, bias: nat)
    ensures var k := Address(g, bias) / PAGE;
      && Base(g, bias) == k * PAGE && Address(g, bias) == k * PAGE + Padding(g, bias)
      && UpPage(Address(g, bias) + g.memsz) == k + UpPage(Padding(g, bias) + g.memsz)
  {
    Shift(Address(g, bias) / PAGE, Padding(g, bias) + g.memsz);
  }

  lemma HonestSize(g: Segment, bias: nat)
    ensures Honest(g, bias) ==> MapSize(g, bias) == UpPage(g.memsz + Padding(g, bias)) * PAGE
    ensures !Honest(g, bias) ==> MapSize(g, bias) == 0 || MapSize(g, bias) == PAGE
  {
    var n := g.memsz + Padding(g, bias) + 0xFFF;
    if n >= WORD { assert n % WORD == n - WORD; }
  }

  /** What the loader maps for a segment is exactly the pages it covers if and only if its size rounds up
      without wrapping. */
  lemma SegmentMapsIff(g: Segment, bias: nat)
    ensures MappedPages(g, bias) == SegmentPages(g, bias) <==> Honest(g, bias)
  {
    Parts(g, bias);
    HonestSize(g, bias);
    var k := Address(g, bias) / PAGE;
    if !Honest(g, bias) {
      assert k + 1 in SegmentPages(g, bias);
      assert k + 1 !in MappedPages(g, bias);
    }
  }

  function PagesOf(gs: seq<Segment>, bias: nat): set<nat> {
    if gs == [] then {} else PagesOf(gs[..|gs| - 1], bias) + MappedPages(gs[|gs| - 1], bias)
  }

  function MaxEnd(gs: seq<Segment>, bias: nat): nat {
    if gs == [] then 0
    else
      var m, e := MaxEnd(gs[..|gs| - 1], bias), End(gs[|gs| - 1], bias);
      if e > m then e else m
  }

  ghost predicate AllLoadable(gs: seq<Segment>, bias: nat) { forall i :: 0 <= i < |gs| ==> Loadable(gs[i], bias) }

  lemma {:induction false} PageOfSome(gs: seq<Segment>, bias: nat, p: nat) returns (i: nat)
    requires p in PagesOf(gs, bias)
    ensures i < |gs| && p in MappedPages(gs[i], bias)
  {
    if p in MappedPages(gs[|gs| - 1], bias) { i := |gs| - 1; } else { i := PageOfSome(gs[..|gs| - 1], bias, p); }
  }

  lemma {:induction false} PagesInclude(gs: seq<Segment>, bias: nat, i: nat, p: nat)
    requires i < |gs| && p in MappedPages(gs[i], bias)
    ensures p in PagesOf(gs, bias)
  {
    if i < |gs| - 1 { PagesInclude(gs[..|gs| - 1], bias, i, p); }
  }

  /** The end of a segment that can be loaded: an honest one ends where it should, the other kind before
      its own start. */
  lemma LoadableEnd(g: Segment, bias: nat)
    requires Loadable(g, bias)
    ensures End(g, bias) < USER_TOP + PAGE
    ensures Honest(g, bias) ==> End(g, bias) == Address(g, bias) + g.memsz && (Base(g, bias) + MapSize(g, bias)) / PAGE == UpPage(End(g, bias))
  {
    Parts(g, bias);
    HonestSize(g, bias);
  }

  lemma {:induction false} MaxEndBounds(gs: seq<Segment>, bias: nat)
    requires AllLoadable(gs, bias)
    ensures MaxEnd(gs, bias) < USER_TOP + PAGE
    ensures forall i :: 0 <= i < |gs| ==> End(gs[i], bias) <= MaxEnd(gs, bias)
    ensures MaxEnd(gs, bias) == 0 || exists i :: 0 <= i < |gs| && MaxEnd(gs, bias) == End(gs[i], bias)
  {
    if gs != [] {
      var front := gs[..|gs| - 1];
      assert AllLoadable(front, bias);
      MaxEndBounds(front, bias);
      LoadableEnd(gs[|gs| - 1], bias);
      forall i | 0 <= i < |gs| ensures End(gs[i], bias) <= MaxEnd(gs, bias) {
        if i < |gs| - 1 { assert front[i] == gs[i]; }
      }
      if MaxEnd(gs, bias) == End(gs[|gs| - 1], bias) {
        assert MaxEnd(gs, bias) == End(gs[|gs| - 1], bias);
      } else if i :| 0 <= i < |front| && MaxEnd(front, bias) == End(front[i], bias) {
        assert front[i] == gs[i];
      }
    }
  }

  /** Does what is mapped for the segment stay below the heap? */
  predicate BelowHeap(g: Segment, bias: nat, base: nat) {
    Honest(g, bias) || MapSize(g, bias) == 0 || Address(g, bias) / PAGE < base / PAGE
  }

  lemma BelowHeapIff(gs: seq<Segment>, bias: nat, i: nat, p: nat)
    requires AllLoadable(gs, bias) && i < |gs| && p in MappedPages(gs[i], bias) && BelowHeap(gs[i], bias, Up64(MaxEnd(gs, bias)))
    ensures p < Up64(MaxEnd(gs, bias)) / PAGE
  {
    var g := gs[i];
    MaxEndBounds(gs, bias);
    Up64Is(MaxEnd(gs, bias));
    Parts(g, bias);
    HonestSize(g, bias);
    LoadableEnd(g, bias);
    UpPageMono(End(g, bias), MaxEnd(gs, bias));
  }

  /** After loading, the heap starts out empty, just above everything that was mapped, if and only if every
      segment whose size wraps maps nothing or lies below the highest end. */
  lemma LoadedHeapIff(gs: seq<Segment>, bias: nat)
    requires AllLoadable(gs, bias)
    ensures var base := Up64(MaxEnd(gs, bias));
      HeapOk(Space(base, base, PagesOf(gs, bias), false), PagesOf(gs, bias)) <==>
      forall i :: 0 <= i < |gs| ==> BelowHeap(gs[i], bias, base)
  {
    MaxEndBounds(gs, bias);
    var base := Up64(MaxEnd(gs, bias));
    Up64Is(MaxEnd(gs, bias));
    Aligned(UpPage(MaxEnd(gs, bias)), base);
    var s := Space(base, base, PagesOf(gs, bias), false);
    assert Range(base / PAGE, UpPage(base)) == {};
    if forall i :: 0 <= i < |gs| ==> BelowHeap(gs[i], bias, base) {
      forall p | p in PagesOf(gs, bias) ensures p < base / PAGE {
        var i := PageOfSome(gs, bias, p);
        BelowHeapIff(gs, bias, i, p);
      }
    }
    if HeapOk(s, PagesOf(gs, bias)) {
      forall i: nat | i < |gs| ensures BelowHeap(gs[i], bias, base) {
        Parts(gs[i], bias);
        HonestSize(gs[i], bias);
        if !Honest(gs[i], bias) && MapSize(gs[i], bias) != 0 { PagesInclude(gs, bias, i, Address(gs[i], bias) / PAGE); }
      }
    }
  }

  /** The heap begins at the first page boundary at or above every segment's end, and no higher. */
  lemma HeapBaseIs(gs: seq<Segment>, bias: nat)
    requires AllLoadable(gs, bias)
    ensures var base := Up64(MaxEnd(gs, bias));
      && base % 4096 == 0
      && (forall i :: 0 <= i < |gs| && Honest(gs[i], bias) ==> (gs[i].vaddr + bias) % 0x1_0000_0000_0000_0000 + gs[i].memsz <= base)
      && (base == 0 || exists i :: 0 <= i < |gs| && base < ((gs[i].vaddr + bias) % 0x1_0000_0000_0000_0000 + gs[i].memsz) % 0x1_0000_0000_0000_0000 + 4096)
  {
    MaxEndBounds(gs, bias);
    Up64Is(MaxEnd(gs, bias));
    forall i | 0 <= i < |gs| && Honest(gs[i], bias) ensures Address(gs[i], bias) + gs[i].memsz <= Up64(MaxEnd(gs, bias)) {
      LoadableEnd(gs[i], bias);
    }
    if i :| 0 <= i < |gs| && MaxEnd(gs, bias) == End(gs[i], bias) {
      assert Up64(MaxEnd(gs, bias)) < End(gs[i], bias) + 4096;
    }
  }

  lemma Aligned(k: nat, base: nat)
    requires base == k * PAGE
    ensures base % PAGE == 0 && base / PAGE == k && UpPage(base) == k
  {}
}

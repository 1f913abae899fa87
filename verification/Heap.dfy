/** The loader's loop over program headers and the brk system call. */
module Heap {
  import M = HeapModel
  import opened HeapModel

  class Program {
    var start: nat
    var end: nat
    var pages: set<nat>
    var twice: bool

    ghost function Model(): Space
      reads this
    {
      Space(start, end, pages, twice)
    }

    constructor ()
      ensures Model() == Space(0, 0, {}, false)
    {
      start, end, pages, twice := 0, 0, {}, false;
    }

    method MapPages(at: nat, len: nat)
      modifies this`pages, this`twice
      ensures Model() == Map(old(Model()), at, len)
    {
      var r := Range(at / PAGE, (at + len) / PAGE);
      twice := twice || pages * r != {};
      pages := pages + r;
    }

    method UnmapPages(at: nat, len: nat)
      modifies this`pages
      ensures Model() == Unmap(old(Model()), at, len)
    {
      pages := pages - Range(at / PAGE, (at + len) / PAGE);
    }

    method Brk(r: Request) returns (answer: nat)
      modifies this
      ensures Model() == M.Brk(old(Model()), r) && answer == end
    {
      if r.brk == 0 || r.brk < start { return end; }
      if r.brk > end {
        var from, to := Up64(end), Up64(r.brk);
        if to > from {
          if !r.mapped { return end; }
          MapPages(from, to - from);
        }
      } else if r.brk < end {
        var from, to := Up64(end), Up64(r.brk);
        if to < from { UnmapPages(to, from - to); }
      }
      end := r.brk;
      return r.brk;
    }

    /** Map one segment; `top` is the highest end so far. */
    method LoadSegment(g: Segment, bias: nat, max: nat) returns (r: Loaded, top: nat)
      modifies this`pages, this`twice
      ensures r.Done? <==> Loadable(g, bias)
      ensures r.ENOEXEC? <==> Base(g, bias) == 0
      ensures r.Done? ==> pages == old(pages) + MappedPages(g, bias) && top == if End(g, bias) > max then End(g, bias) else max
    {
      top := max;
      var v := Address(g, bias);
      var aligned := v - Padding(g, bias);
      var size := MapSize(g, bias);
      if aligned == 0 { return ENOEXEC, top; }
      if !g.mapped || aligned + size > USER_TOP { return ENOMEM, top; }
      MapPages(aligned, size);
      if !g.faulted { return ENOMEM, top; }
      var e := (v + g.memsz) % WORD;
      if e > max { top := e; }
      r := Done(0);
    }

    /** Map the segments in order; on success the heap base is the highest end, rounded up. */
    method Load(gs: seq<Segment>, bias: nat) returns (r: Loaded)
      requires pages == {}
      modifies this`pages, this`twice
      ensures r.Done? ==> pages == PagesOf(gs, bias) && r.heapBase == Up64(MaxEnd(gs, bias))
      ensures r.Done? <==> AllLoadable(gs, bias)
      ensures r.ENOEXEC? <==> exists i :: 0 <= i < |gs| && Base(gs[i], bias) == 0 && AllLoadable(gs[..i], bias)
    {
      var max := 0;
      for i := 0 to |gs|
        invariant pages == PagesOf(gs[..i], bias) && max == MaxEnd(gs[..i], bias)
        invariant forall k :: 0 <= k < i ==> Loadable(gs[k], bias)
      {
        assert gs[..i + 1][..i] == gs[..i];
        r, max := LoadSegment(gs[i], bias, max);
        if !r.Done? { return; }
      }
      assert gs[..|gs|] == gs;
      r := Done(Up64(max));
    }
  }

  /** Load a program and run brk requests.  The program loads if and only if every segment can be loaded;
      its heap is then exact, above everything loaded and mapped once only, whenever segments stay below
      the heap and requests round up without wrapping. */
  method RunProgram(gs: seq<Segment>, bias: nat, rs: seq<Request>) returns (p: Program, loaded: bool)
    ensures loaded <==> AllLoadable(gs, bias)
    ensures loaded ==> p.start == Up64(MaxEnd(gs, bias)) && p.Model() == BrkAll(Space(p.start, p.start, PagesOf(gs, bias), false), rs)
    ensures loaded && (forall i :: 0 <= i < |gs| ==> BelowHeap(gs[i], bias, p.start)) && (forall i :: 0 <= i < |rs| ==> rs[i].brk + 0xFFF < WORD)
      ==> HeapOk(p.Model(), PagesOf(gs, bias))
  {
    p := new Program();
    var r := p.Load(gs, bias);
    loaded := r.Done?;
    if loaded {
      p.start, p.end, p.twice := r.heapBase, r.heapBase, false; // from here on `twice` is about heap pages
      ghost var first := p.Model();
      for i := 0 to |rs|
        invariant p.start == first.start && fresh(p) && BrkAll(p.Model(), rs[i..]) == BrkAll(first, rs)
      {
        assert rs[i..][1..] == rs[i + 1..];
        BrkKeepsStart(p.Model(), rs[i]);
        var _ := p.Brk(rs[i]);
      }
      assert rs[|rs|..] == [];
      LoadedHeapIff(gs, bias);
      if HeapOk(first, PagesOf(gs, bias)) && forall i :: 0 <= i < |rs| ==> rs[i].brk + 0xFFF < WORD {
        BrkRunKeeps(first, PagesOf(gs, bias), rs);
      }
    }
  }

  lemma BrkKeepsStart(s: Space, r: Request)
    ensures M.Brk(s, r).start == s.start
  {}
}

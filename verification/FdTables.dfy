/** The descriptor tables of all processes, the shared open file descriptions and the pipes' reader and
    writer counts, as the system calls change them.  A description is reference-counted: it opens its
    pipe end when it is made and closes it when the last reference goes. */
module FdTables {
  import opened DescriptorCounts

  datatype Errno = EBADF | ENOMEM | EMFILE
  datatype FdResult = Fd(fd: nat) | Failed(error: Errno)

  /** No description changed what it refers to or its flags; some may be gone. */
  ghost predicate Shrinks(a: map<Desc, Description>, b: map<Desc, Description>) {
    forall d :: d in b ==> d in a && b[d].pipe == a[d].pipe && b[d].flags == a[d].flags
  }

  /** Can a descriptor be placed at `i`: below the maximum, and the table reaches it or can grow to it. */
  predicate Fits(t: Table, i: nat, grows: nat -> bool) { i < MAX_FDS && (i < |t| || grows(i + 1)) }

  /** Where, or why not, a descriptor goes at the lowest free place. */
  function AtLowest(t: Table, grows: nat -> bool): FdResult {
    var i := LowestFree(t, 0);
    if Fits(t, i, grows) then Fd(i) else Failed(if i < MAX_FDS then ENOMEM else EMFILE)
  }

  /** Every descriptor below `i` is open, and `i` is not. */
  ghost predicate FirstGap(t: Table, i: nat) { i !in OpenFds(t) && forall j: nat :: j < i ==> j in OpenFds(t) }

  /** It is the first gap if that is below 1024 and the table reaches it or can grow to it; otherwise the
      error says which of the two was missing. */
  lemma AtLowestIs(t: Table, grows: nat -> bool, i: nat)
    requires FirstGap(t, i)
    ensures AtLowest(t, grows) == if i >= 1024 then Failed(EMFILE) else if i < |t| || grows(i + 1) then Fd(i) else Failed(ENOMEM)
  {
    FreeIsNotOpen(t, i);
    forall j: nat | j < i ensures !Free(t, j) { FreeIsNotOpen(t, j); }
    LowestIs(t, 0, i);
  }

  lemma GapExists(t: Table)
    ensures FirstGap(t, LowestFree(t, 0))
  {
    forall j: nat ensures Free(t, j) <==> j !in OpenFds(t) { FreeIsNotOpen(t, j); }
  }

  predicate Usable(t: Table, i: nat, grows: nat -> bool) { Free(t, i) && Fits(t, i, grows) }

  /** One call of some process, with what the memory allocator answers: the addresses of new objects,
      and `grows(n)` when a table can be resized to `n` slots. */
  datatype Call =
    | Pipe(p: Pid, q: PipeId, rd: Desc, wr: Desc, grows: nat -> bool, again: nat -> bool)
    | Open(p: Pid, d: Desc, flags: nat, grows: nat -> bool)
    | Close(p: Pid, fd: nat)
    | Dup(p: Pid, fd: nat, grows: nat -> bool)
    | Dup2(p: Pid, fd: nat, to: nat, grows: nat -> bool)
    | DupFd(p: Pid, fd: nat, min: nat, grows: nat -> bool)
    | SetFl(p: Pid, fd: nat, arg: nat)
    | Fork(p: Pid, child: Pid, resized: bool, threaded: bool)
    | Exit(p: Pid)
    | Reap(p: Pid)
    | Sleep(p: Pid, fd: nat)
    | Return(d: Desc)

  const U32: nat := 0x1_0000_0000

  /** The call as the system call entry hands it on: descriptors are the low 32 bits of their registers. */
  function Cut(c: Call): Call {
    match c
    case Close(p, fd) => Close(p, fd % U32)
    case Dup(p, fd, grows) => Dup(p, fd % U32, grows)
    case Dup2(p, fd, to, grows) => Dup2(p, fd % U32, to % U32, grows)
    case DupFd(p, fd, min, grows) => DupFd(p, fd % U32, min % U32, grows)
    case SetFl(p, fd, arg) => SetFl(p, fd % U32, arg)
    case Sleep(p, fd) => Sleep(p, fd % U32)
    case _ => c
  }

  /** Only the low 32 bits of a register count: whatever is above them a call stays the same, and a call whose
      descriptors fit in 32 bits is not changed at all. */
  lemma OnlyLowBits(p: Pid, fd: nat, to: nat, high: nat, high': nat, grows: nat -> bool)
    requires fd < 0x1_0000_0000 && to < 0x1_0000_0000
    ensures Cut(Close(p, fd + high * 0x1_0000_0000)) == Close(p, fd)
    ensures Cut(Dup(p, fd + high * 0x1_0000_0000, grows)) == Dup(p, fd, grows)
    ensures Cut(Dup2(p, fd + high * 0x1_0000_0000, to + high' * 0x1_0000_0000, grows)) == Dup2(p, fd, to, grows)
    ensures Cut(DupFd(p, fd + high * 0x1_0000_0000, to + high' * 0x1_0000_0000, grows)) == DupFd(p, fd, to, grows)
    ensures Cut(SetFl(p, fd + high * 0x1_0000_0000, to)) == SetFl(p, fd, to)
    ensures Cut(Sleep(p, fd + high * 0x1_0000_0000)) == Sleep(p, fd)
  {
    LowBits(fd, high);
    LowBits(to, high');
  }

  lemma LowBits(n: nat, high: nat)
    requires n < 0x1_0000_0000
    ensures (n + high * 0x1_0000_0000) % 0x1_0000_0000 == n
  {}

  /** With the two descriptions of a new pipe, flags 0x1 and 0x2. */
  function WithEnds(descs: map<Desc, Description>, q: PipeId, rd: Desc, wr: Desc): map<Desc, Description> {
    descs[rd := Description(Some(q), 1, 1)][wr := Description(Some(q), 2, 1)]
  }

  /** What two attempts, at the lowest free descriptor each, make of the table `t`. */
  ghost predicate Tried(t: Table, n: Table, rd: Desc, wr: Desc, grows: nat -> bool, again: nat -> bool, a: FdResult, b: FdResult) {
    var i := LowestFree(t, 0);
    var u := if a.Fd? then Put(t, i, rd) else t;
    var j := LowestFree(u, 0);
    && (if Fits(t, i, grows) then a == Fd(i) else a.Failed?)
    && (if Fits(u, j, again) then b == Fd(j) && n == Put(u, j, wr) else b.Failed? && n == u)
  }

  /** The table `t` becomes `n`: with both ends at the lowest free descriptors, or, when one of them
      could not be placed, as it was up to slots that were used in between. */
  ghost predicate Placed(t: Table, n: Table, rd: Desc, wr: Desc, grows: nat -> bool, again: nat -> bool, r: Option<(nat, nat)>) {
    var i := LowestFree(t, 0);
    var u := Put(t, i, rd);
    var j := LowestFree(u, 0);
    if Fits(t, i, grows) && Fits(u, j, again) then
      r == Some((i, j)) && n == Put(u, j, wr)
    else
      r == None && (n == t || n == Cleared(u, i) || n == Cleared(Put(t, i, wr), i))
  }

  function Undone(n: Table, a: FdResult, b: FdResult): Table {
    match (a, b)
    case (Fd(_), Fd(_)) => n
    case (Fd(i), Failed(_)) => Cleared(n, i)
    case (Failed(_), Fd(j)) => Cleared(n, j)
    case (Failed(_), Failed(_)) => n
  }

  lemma TriedUndone(t: Table, n: Table, rd: Desc, wr: Desc, grows: nat -> bool, again: nat -> bool, a: FdResult, b: FdResult)
    requires Tried(t, n, rd, wr, grows, again, a, b)
    ensures Placed(t, Undone(n, a, b), rd, wr, grows, again, if a.Fd? && b.Fd? then Some((a.fd, b.fd)) else None)
  {}

  /** In terms of open descriptors: two more, or exactly the same. */
  lemma PlacedOpens(t: Table, n: Table, rd: Desc, wr: Desc, grows: nat -> bool, again: nat -> bool, r: Option<(nat, nat)>)
    requires Placed(t, n, rd, wr, grows, again, r)
    ensures r.Some? ==>
      && r.value.0 < r.value.1 && r.value.0 !in OpenFds(t) && r.value.1 !in OpenFds(t)
      && (forall k: nat :: k < r.value.1 && k != r.value.0 ==> k in OpenFds(t))
      && OpenFds(n) == OpenFds(t)[r.value.0 := rd][r.value.1 := wr]
    ensures r.None? ==> OpenFds(n) == OpenFds(t)
  {
    var i := LowestFree(t, 0);
    var u := Put(t, i, rd);
    var j := LowestFree(u, 0);
    FreeIsNotOpen(t, i);
    FreeIsNotOpen(u, j);
    PutOpens(t, i, rd);
    PutOpens(t, i, wr);
    PutOpens(u, j, wr);
    SecondIsHigher(t, rd);
    ClearedOpens(u, i);
    ClearedOpens(Put(t, i, wr), i);
    forall k: nat | k < j && k != i ensures k in OpenFds(t) {
      assert !Free(u, k);
      FreeIsNotOpen(u, k);
    }
  }

  /** The end of a pipe call, seen from the tables before it. */
  lemma NewEnds(was: map<Pid, Table>, tables: map<Pid, Table>, before: map<Desc, Description>, descs: map<Desc, Description>, pipes: map<PipeId, Ends>, held: multiset<Desc>,
                p: Pid, q: PipeId, rd: Desc, wr: Desc, placed: bool)
    requires Counted(tables, descs, pipes, held) && q in pipes && rd != wr && held[rd] == held[wr] == 0
    requires Slots(was, rd) == {} && Slots(was, wr) == {} && p in was
    requires p in tables && tables == was[p := tables[p]]
    requires Shrinks(WithEnds(before, q, rd, wr), descs) && forall d :: d in before ==> before[d].pipe != Some(q)
    requires placed ==> rd in OpenFds(tables[p]).Values && wr in OpenFds(tables[p]).Values
    requires !placed ==> OpenFds(tables[p]) == OpenFds(was[p])
    ensures pipes[q] == if placed then Ends(1, 1) else Ends(0, 0)
    ensures placed ==> rd in descs && wr in descs
  {
    assert EndsOk(descs, pipes, q);
    TwoEndCounts(descs, pipes, q, rd, wr);
    forall d | d == rd || d == wr ensures d in descs <==> placed {
      assert RefsOk(tables, descs, held, d);
      if placed {
        var i :| i in OpenFds(tables[p]) && OpenFds(tables[p])[i] == d;
        SlotsByOpenFds(tables, d, p, i);
      } else {
        forall o: nat, i: nat ensures (o, i) !in Slots(tables, d) {
          SlotsByOpenFds(tables, d, o, i);
          SlotsByOpenFds(was, d, o, i);
        }
        assert Slots(tables, d) == {};
      }
    }
  }

  function PutAt(a: map<Pid, Table>, p: Pid, r: FdResult, d: Desc): map<Pid, Table>
    requires p in a
  {
    if r.Fd? then a[p := Put(a[p], r.fd, d)] else a
  }

  /** What a call does to the descriptor tables, once its descriptors are cut. */
  ghost predicate Effect(c: Call, a: map<Pid, Table>, b: map<Pid, Table>) {
    match c
    case Pipe(p, q, rd, wr, grows, again) =>
      p in a && p in b && b == a[p := b[p]] && exists r :: Placed(a[p], b[p], rd, wr, grows, again, r)
    case Open(p, d, _, grows) => p in a && b == PutAt(a, p, AtLowest(a[p], grows), d)
    case Close(p, fd) => p in a && b == a[p := Cleared(a[p], fd)]
    case Dup(p, fd, grows) =>
      p in a && b == if fd in OpenFds(a[p]) then PutAt(a, p, AtLowest(a[p], grows), OpenFds(a[p])[fd]) else a
    case Dup2(p, fd, to, grows) =>
      p in a && b == if fd != to && fd in OpenFds(a[p]) && Fits(a[p], to, grows) then a[p := Put(a[p], to, OpenFds(a[p])[fd])] else a
    case DupFd(p, fd, min, grows) =>
      && p in a
      && ((exists i: nat :: Duplicates(a, b, p, fd, i, min, grows)) ||
          (b == a && (fd in OpenFds(a[p]) ==> forall i: nat :: min <= i ==> !Usable(a[p], i, grows))))
    case Fork(p, child, resized, threaded) => p in a && b == if resized && threaded then a[child := a[p]] else a
    case Exit(p) => b == a[p := []]
    case Reap(p) => b == a - {p}
    case SetFl(_, _, _) => b == a
    case Sleep(_, _) => b == a
    case Return(_) => b == a
  }

  ghost predicate Duplicates(a: map<Pid, Table>, b: map<Pid, Table>, p: Pid, fd: nat, i: nat, from: nat, grows: nat -> bool) {
    && p in a && fd in OpenFds(a[p]) && b == a[p := Put(a[p], i, OpenFds(a[p])[fd])]
    && from <= i && Usable(a[p], i, grows) && forall k: nat :: from <= k < i ==> !Usable(a[p], k, grows)
  }

  datatype Snapshot = Snapshot(tables: map<Pid, Table>, descs: map<Desc, Description>, pipes: map<PipeId, Ends>, held: multiset<Desc>)

  /** The process exists, and new objects get addresses not in use. */
  predicate Possible(s: Snapshot, c: Call) {
    match c
    case Pipe(p, q, rd, wr, _, _) => p in s.tables && q !in s.pipes && rd !in s.descs && wr !in s.descs && rd != wr
    case Open(p, d, _, _) => p in s.tables && d !in s.descs
    case Fork(p, child, _, _) => p in s.tables && child !in s.tables
    case Reap(p) => p in s.tables && s.tables[p] == []
    case Return(d) => d in s.held
    case _ => c.p in s.tables
  }

  class Kernel {
    var tables: map<Pid, Table>
    var descs: map<Desc, Description>
    var pipes: map<PipeId, Ends>
    /** The references in local variables of system calls in progress. */
    var held: multiset<Desc>

    ghost predicate Valid()
      reads this
    {
      Counted(tables, descs, pipes, held) && forall p :: p in tables ==> |tables[p]| <= MAX_FDS
    }

    constructor (init: Pid)
      ensures Valid() && tables == map[init := []] && descs == map[] && pipes == map[] && held == multiset{}
    {
      tables, descs, pipes, held := map[init := []], map[], map[], multiset{};
      new;
      forall d ensures RefsOk(tables, descs, held, d) { assert Slots(tables, d) == {}; }
    }

    // ---- References -------------------------------------------------------------------------------

    method Hold(d: Desc)
      requires Valid() && d in descs
      modifies this`descs, this`held
      ensures Valid() && held == old(held) + multiset{d}
      ensures Shrinks(old(descs), descs) && descs.Keys == old(descs).Keys
    {
      HoldCounts(tables, descs, pipes, held, d);
      descs := descs[d := descs[d].(refs := descs[d].refs + 1)];
      held := held + multiset{d};
    }

    /** The last reference closes the ends the flags say are open. */
    method Drop(d: Desc)
      requires Valid() && d in held
      modifies this`descs, this`held, this`pipes
      ensures Valid() && held == old(held) - multiset{d} && pipes.Keys == old(pipes).Keys
      ensures Shrinks(old(descs), descs)
    {
      assert RefsOk(tables, descs, held, d);
      if descs[d].refs > 1 {
        ReleaseCounts(tables, descs, pipes, held, d);
        descs := descs[d := descs[d].(refs := descs[d].refs - 1)];
      } else {
        var v := descs[d];
        ghost var was := pipes;
        if v.pipe.Some? {
          var q := v.pipe.value;
          assert EndsOk(descs, pipes, q);
          OpenEnds(descs, pipes, d, q);
          pipes := pipes[q := Closed(pipes[q], v.flags)];
        }
        DestroyCounts(tables, descs, was, pipes, held, d);
        descs := descs - {d};
      }
      held := held - multiset{d};
    }

    method Describe(d: Desc, pipe: Option<PipeId>, flags: nat)
      requires Valid() && d !in descs && (pipe.Some? ==> pipe.value in pipes)
      modifies this`descs, this`held, this`pipes
      ensures Valid() && held == old(held) + multiset{d} && pipes.Keys == old(pipes).Keys
      ensures descs == old(descs)[d := Description(pipe, flags, 1)]
    {
      var v := Description(pipe, flags, 1);
      CreateCounts(tables, descs, pipes, held, d, v);
      if pipe.Some? {
        pipes := pipes[pipe.value := Opened(pipes[pipe.value], flags)];
      }
      descs := descs[d := v];
      held := held + multiset{d};
    }

    // ---- Slots ------------------------------------------------------------------------------------

    /** Assign a handle to an empty slot. */
    method Store(p: Pid, i: nat, d: Desc)
      requires Valid() && d in descs && p in tables && i < |tables[p]| && tables[p][i] == None
      modifies this`tables, this`descs, this`held
      ensures Valid() && held == old(held) && tables == old(tables)[p := old(tables)[p][i := Some(d)]]
      ensures Shrinks(old(descs), descs) && descs.Keys == old(descs).Keys
    {
      Hold(d);
      StoreCounts(tables, descs, pipes, held, p, i, d);
      tables := tables[p := tables[p][i := Some(d)]];
      held := held - multiset{d};
      assert held == old(held);
    }

    /** Reset a slot. */
    method Clear(p: Pid, i: nat)
      requires Valid() && p in tables && i < |tables[p]|
      modifies this
      ensures Valid() && held == old(held) && tables == old(tables)[p := old(tables)[p][i := None]]
      ensures Shrinks(old(descs), descs) && pipes.Keys == old(pipes).Keys
    {
      if tables[p][i].Some? {
        var d := tables[p][i].value;
        TakeCounts(tables, descs, pipes, held, p, i, d);
        tables := tables[p := tables[p][i := None]];
        held := held + multiset{d};
        Drop(d);
        assert held == old(held);
      } else {
        assert tables[p][i := None] == tables[p];
      }
    }

    method Resize(p: Pid, n: nat)
      requires Valid() && p in tables && |tables[p]| < n <= MAX_FDS
      modifies this`tables
      ensures Valid() && tables == old(tables)[p := Grown(old(tables)[p], n)]
    {
      var bigger := Grown(tables[p], n);
      assert bigger[..|tables[p]|] == tables[p];
      GrowCounts(tables, descs, pipes, held, p, bigger);
      tables := tables[p := bigger];
    }

    // ---- Process members --------------------------------------------------------------------------

    /** Install a handle at the lowest free descriptor. */
    method AllocateFd(p: Pid, d: Desc, grows: nat -> bool) returns (r: FdResult)
      requires Valid() && p in tables && d in descs
      modifies this`tables, this`descs, this`held
      ensures Valid() && held == old(held) && Shrinks(old(descs), descs) && descs.Keys == old(descs).Keys
      ensures r == AtLowest(old(tables)[p], grows)
      ensures tables == if r.Fd? then old(tables)[p := Put(old(tables)[p], r.fd, d)] else old(tables)
    {
      ghost var t := tables[p];
      ghost var i := LowestFree(t, 0);
      var fd := 0;
      while fd < MAX_FDS
        invariant fd <= MAX_FDS && Valid() && tables == old(tables) && descs == old(descs) && held == old(held)
        invariant forall j: nat :: j < fd ==> !Free(t, j)
      {
        if fd >= |tables[p]| {
          if !grows(fd + 1) {
            LowestIs(t, 0, fd);
            return Failed(ENOMEM);
          }
          Resize(p, fd + 1);
        }
        if tables[p][fd].None? {
          assert Free(t, fd);
          LowestIs(t, 0, fd);
          Store(p, fd, d);
          return Fd(fd);
        }
        assert !Free(t, fd);
        fd := fd + 1;
      }
      return Failed(EMFILE);
    }

    /** Install a handle at a given descriptor, closing what was there. */
    method AllocateFdAt(p: Pid, fd: nat, d: Desc, grows: nat -> bool) returns (r: FdResult)
      requires Valid() && p in tables && d in held
      modifies this
      ensures Valid() && held == old(held) && Shrinks(old(descs), descs) && pipes.Keys == old(pipes).Keys
      ensures var t := old(tables)[p];
        if Fits(t, fd, grows) then
          r == Fd(fd) && tables == old(tables)[p := Put(t, fd, d)]
        else
          r == Failed(if fd < MAX_FDS then ENOMEM else EBADF) && tables == old(tables)
    {
      if fd >= MAX_FDS { return Failed(EBADF); }
      if fd >= |tables[p]| {
        if !grows(fd + 1) { return Failed(ENOMEM); }
        Resize(p, fd + 1);
      }
      Clear(p, fd);
      assert RefsOk(tables, descs, held, d);
      Store(p, fd, d);
      assert tables[p] == Put(old(tables)[p], fd, d);
      return Fd(fd);
    }

    /** A new reference to the description behind a descriptor, if it is open. */
    method GetFd(p: Pid, fd: nat) returns (r: Option<Desc>)
      requires Valid() && p in tables
      modifies this`descs, this`held
      ensures Valid() && Shrinks(old(descs), descs) && descs.Keys == old(descs).Keys
      ensures r == if fd in OpenFds(tables[p]) then Some(OpenFds(tables[p])[fd]) else None
      ensures r.Some? ==> held == old(held) + multiset{r.value} && r.value in descs
      ensures r.None? ==> held == old(held)
    {
      if fd >= |tables[p]| || tables[p][fd].None? { return None; }
      var d := tables[p][fd].value;
      assert (p, fd) in Slots(tables, d) && RefsOk(tables, descs, held, d);
      Hold(d);
      return Some(d);
    }

    method FreeFd(p: Pid, fd: nat)
      requires Valid() && p in tables
      modifies this
      ensures Valid() && held == old(held) && Shrinks(old(descs), descs) && pipes.Keys == old(pipes).Keys
      ensures tables == old(tables)[p := Cleared(old(tables)[p], fd)]
    {
      if fd < |tables[p]| {
        Clear(p, fd);
      } else {
        assert tables == tables[p := tables[p]];
      }
    }

    // ---- System calls -----------------------------------------------------------------------------

    /** Try to place both ends. */
    method AllocateTwo(p: Pid, rd: Desc, wr: Desc, grows: nat -> bool, again: nat -> bool) returns (a: FdResult, b: FdResult)
      requires Valid() && p in tables && rd in descs && wr in descs
      modifies this`tables, this`descs, this`held
      ensures Valid() && held == old(held) && Shrinks(old(descs), descs)
      ensures p in tables && tables == old(tables)[p := tables[p]]
      ensures Tried(old(tables)[p], tables[p], rd, wr, grows, again, a, b)
    {
      a := AllocateFd(p, rd, grows);
      assert tables[p] == if a.Fd? then Put(old(tables)[p], a.fd, rd) else old(tables)[p];
      b := AllocateFd(p, wr, again);
    }

    method DropTwo(rd: Desc, wr: Desc)
      requires Valid() && multiset{rd, wr} <= held
      modifies this`descs, this`held, this`pipes
      ensures Valid() && held == old(held) - multiset{rd, wr} && pipes.Keys == old(pipes).Keys && Shrinks(old(descs), descs)
    {
      Drop(rd);
      assert held[wr] > 0 by { assert multiset{rd, wr}[wr] == if rd == wr then 2 else 1; }
      Drop(wr);
    }

    /** Place both ends; on failure free whichever was placed. */
    method PlaceEnds(p: Pid, rd: Desc, wr: Desc, grows: nat -> bool, again: nat -> bool) returns (r: Option<(nat, nat)>)
      requires Valid() && p in tables && rd in descs && wr in descs
      modifies this
      ensures Valid() && held == old(held) && pipes.Keys == old(pipes).Keys && Shrinks(old(descs), descs)
      ensures p in tables && tables == old(tables)[p := tables[p]]
      ensures Placed(old(tables)[p], tables[p], rd, wr, grows, again, r)
    {
      var a, b := AllocateTwo(p, rd, wr, grows, again);
      ghost var n := tables[p];
      if a.Fd? && b.Fd? {
        r := Some((a.fd, b.fd));
      } else {
        r := None;
        if a.Fd? { FreeFd(p, a.fd); }
        if b.Fd? { FreeFd(p, b.fd); }
      }
      assert tables[p] == Undone(n, a, b);
      TriedUndone(old(tables)[p], n, rd, wr, grows, again, a, b);
    }

    method OpenPipe(q: PipeId, rd: Desc, wr: Desc)
      requires Valid() && q !in pipes && rd !in descs && wr !in descs && rd != wr
      modifies this`descs, this`held, this`pipes
      ensures Valid() && held == old(held) + multiset{rd, wr} && pipes.Keys == old(pipes).Keys + {q}
      ensures descs == WithEnds(old(descs), q, rd, wr)
    {
      NewPipeCounts(tables, descs, pipes, held, q);
      pipes := pipes[q := Ends(0, 0)];
      Describe(rd, Some(q), 1);
      Describe(wr, Some(q), 2);
    }

    /** The call itself: make the pipe and its two descriptions, place them, drop the local handles. */
    method MakePipe(p: Pid, q: PipeId, rd: Desc, wr: Desc, grows: nat -> bool, again: nat -> bool) returns (r: Option<(nat, nat)>)
      requires Valid() && p in tables && q !in pipes && rd !in descs && wr !in descs && rd != wr
      modifies this
      ensures Valid() && held == old(held) && pipes.Keys == old(pipes).Keys + {q}
      ensures p in tables && tables == old(tables)[p := tables[p]]
      ensures Shrinks(WithEnds(old(descs), q, rd, wr), descs)
      ensures Placed(old(tables)[p], tables[p], rd, wr, grows, again, r)
    {
      OpenPipe(q, rd, wr);
      r := PlaceEnds(p, rd, wr, grows, again);
      DropTwo(rd, wr);
      assert held == old(held);
    }

    /** Both ends or neither: on success the two lowest free descriptors, the lower one the read end and the
        other the write end; on failure every process has the descriptors it had. */
    method SysPipe(p: Pid, q: PipeId, rd: Desc, wr: Desc, grows: nat -> bool, again: nat -> bool) returns (r: Option<(nat, nat)>)
      requires Valid() && p in tables && q !in pipes && rd !in descs && wr !in descs && rd != wr
      modifies this
      ensures Valid() && held == old(held) && pipes.Keys == old(pipes).Keys + {q}
      ensures p in tables && tables == old(tables)[p := tables[p]]
      ensures Shrinks(WithEnds(old(descs), q, rd, wr), descs)
      ensures Placed(old(tables)[p], tables[p], rd, wr, grows, again, r)
      ensures r.Some? ==>
        && r.value.0 < r.value.1 && r.value.0 !in OpenFds(old(tables)[p]) && r.value.1 !in OpenFds(old(tables)[p])
        && (forall k: nat :: k < r.value.1 && k != r.value.0 ==> k in OpenFds(old(tables)[p]))
        && OpenFds(tables[p]) == OpenFds(old(tables)[p])[r.value.0 := rd][r.value.1 := wr]
        && pipes[q] == Ends(1, 1)
      ensures r.Some? ==>
        && rd in descs && descs[rd].pipe == Some(q) && descs[rd].flags == 1 && Opens(descs[rd], q, ReadEnd) && !Opens(descs[rd], q, WriteEnd)
        && wr in descs && descs[wr].pipe == Some(q) && descs[wr].flags == 2 && Opens(descs[wr], q, WriteEnd) && !Opens(descs[wr], q, ReadEnd)
      ensures r.None? ==> OpenFds(tables[p]) == OpenFds(old(tables)[p]) && pipes[q] == Ends(0, 0)
    {
      assert RefsOk(tables, descs, held, rd) && RefsOk(tables, descs, held, wr) && EndsOk(descs, pipes, q);
      r := MakePipe(p, q, rd, wr, grows, again);
      PlacedOpens(old(tables)[p], tables[p], rd, wr, grows, again, r);
      if r.Some? {
        assert OpenFds(tables[p])[r.value.0] == rd && OpenFds(tables[p])[r.value.1] == wr;
      }
      NewEnds(old(tables), tables, old(descs), descs, pipes, held, p, q, rd, wr, r.Some?);
    }

    /** Open of anything but a pipe, once the path has been resolved. */
    method SysOpen(p: Pid, d: Desc, flags: nat, grows: nat -> bool) returns (r: FdResult)
      requires Valid() && p in tables && d !in descs
      modifies this
      ensures Valid() && held == old(held) && pipes.Keys == old(pipes).Keys
      ensures Shrinks(old(descs)[d := Description(None, flags, 1)], descs)
      ensures r == AtLowest(old(tables)[p], grows)
      ensures tables == if r.Fd? then old(tables)[p := Put(old(tables)[p], r.fd, d)] else old(tables)
    {
      Describe(d, None, flags);
      r := AllocateFd(p, d, grows);
      Drop(d);
      assert held == old(held);
    }

    method SysDup(p: Pid, fd: nat, grows: nat -> bool) returns (r: FdResult)
      requires Valid() && p in tables
      modifies this
      ensures Valid() && held == old(held) && pipes.Keys == old(pipes).Keys && Shrinks(old(descs), descs)
      ensures var t := old(tables)[p];
        r == if fd in OpenFds(t) then AtLowest(t, grows) else Failed(EBADF)
      ensures r.Fd? ==> fd in OpenFds(old(tables)[p]) && tables == old(tables)[p := Put(old(tables)[p], r.fd, OpenFds(old(tables)[p])[fd])]
      ensures r.Failed? ==> tables == old(tables)
    {
      var d := GetFd(p, fd);
      if d.None? { return Failed(EBADF); }
      r := AllocateFd(p, d.value, grows);
      Drop(d.value);
      assert held == old(held);
    }

    /** Equal descriptors are returned unchecked; otherwise the target is closed and replaced. */
    method SysDup2(p: Pid, fd: nat, to: nat, grows: nat -> bool) returns (r: FdResult)
      requires Valid() && p in tables
      modifies this
      ensures Valid() && held == old(held) && pipes.Keys == old(pipes).Keys && Shrinks(old(descs), descs)
      ensures r == (
        if fd == to then Fd(to)
        else if fd !in OpenFds(old(tables)[p]) || to >= MAX_FDS then Failed(EBADF)
        else if Fits(old(tables)[p], to, grows) then Fd(to)
        else Failed(ENOMEM))
      ensures r.Fd? && fd != to ==>
        fd in OpenFds(old(tables)[p]) && tables == old(tables)[p := Put(old(tables)[p], to, OpenFds(old(tables)[p])[fd])]
      ensures r.Failed? || fd == to ==> tables == old(tables)
    {
      if fd == to { return Fd(to); }
      var d := GetFd(p, fd);
      if d.None? { return Failed(EBADF); }
      r := AllocateFdAt(p, to, d.value, grows);
      Drop(d.value);
      assert held == old(held);
    }

    /** F_DUPFD: the lowest free descriptor from `min` on at which the table can hold one. */
    method SysDupFd(p: Pid, fd: nat, min: nat, grows: nat -> bool) returns (r: FdResult)
      requires Valid() && p in tables
      modifies this
      ensures Valid() && held == old(held) && pipes.Keys == old(pipes).Keys && Shrinks(old(descs), descs)
      ensures r.Failed? ==> tables == old(tables)
      ensures r.Fd? ==> fd in OpenFds(old(tables)[p]) && tables == old(tables)[p := Put(old(tables)[p], r.fd, OpenFds(old(tables)[p])[fd])]
      ensures r == Failed(EBADF) <==> fd !in OpenFds(old(tables)[p])
      ensures r.Failed? && r.error != EBADF ==>
        r.error == EMFILE && forall i: nat :: min <= i ==> !Usable(old(tables)[p], i, grows)
      ensures r.Fd? ==>
        && min <= r.fd && Usable(old(tables)[p], r.fd, grows)
        && forall i: nat :: min <= i < r.fd ==> !Usable(old(tables)[p], i, grows)
    {
      var d := GetFd(p, fd);
      if d.None? { return Failed(EBADF); }
      r := PlaceFrom(p, d.value, min, grows);
      Drop(d.value);
      assert held == old(held);
    }

    method PlaceFrom(p: Pid, d: Desc, from: nat, grows: nat -> bool) returns (r: FdResult)
      requires Valid() && p in tables && d in held
      modifies this
      ensures Valid() && held == old(held) && pipes.Keys == old(pipes).Keys && Shrinks(old(descs), descs)
      ensures r.Failed? ==> r.error == EMFILE && tables == old(tables) && forall i: nat :: from <= i ==> !Usable(old(tables)[p], i, grows)
      ensures r.Fd? ==> from <= r.fd && Usable(old(tables)[p], r.fd, grows) && tables == old(tables)[p := Put(old(tables)[p], r.fd, d)]
      ensures r.Fd? ==> forall i: nat :: from <= i < r.fd ==> !Usable(old(tables)[p], i, grows)
    {
      var i := from;
      while i < MAX_FDS
        invariant from <= i && Valid() && held == old(held) && tables == old(tables)
        invariant pipes.Keys == old(pipes).Keys && Shrinks(old(descs), descs)
        invariant forall k: nat :: from <= k < i ==> !Usable(old(tables)[p], k, grows)
      {
        var there := IsOpen(p, i);
        if !there {
          r := AllocateFdAt(p, i, d, grows);
          if r.Fd? { return; }
        }
        i := i + 1;
      }
      return Failed(EMFILE);
    }

    /** A reference taken only to test for null. */
    method IsOpen(p: Pid, i: nat) returns (there: bool)
      requires Valid() && p in tables
      modifies this`descs, this`held, this`pipes
      ensures Valid() && held == old(held) && pipes.Keys == old(pipes).Keys && Shrinks(old(descs), descs)
      ensures there <==> !Free(tables[p], i)
    {
      var o := GetFd(p, i);
      FreeIsNotOpen(tables[p], i);
      if o.Some? {
        Drop(o.value);
        assert held == old(held);
      }
      return o.Some?;
    }

    method SysSetFl(p: Pid, fd: nat, arg: nat) returns (r: FdResult)
      requires Valid() && p in tables
      modifies this`descs, this`held, this`pipes
      ensures Valid() && held == old(held) && pipes == old(pipes)
      ensures r == if fd in OpenFds(tables[p]) then Fd(0) else Failed(EBADF)
      ensures r.Failed? ==> descs == old(descs)
      ensures r.Fd? ==>
        var d := OpenFds(tables[p])[fd];
        d in old(descs) && descs == old(descs)[d := old(descs)[d].(flags := SetFlags(old(descs)[d].flags, arg))]
    {
      if fd >= |tables[p]| || tables[p][fd].None? { return Failed(EBADF); }
      var d := tables[p][fd].value;
      assert (p, fd) in Slots(tables, d) && RefsOk(tables, descs, held, d);
      var v := descs[d].(flags := SetFlags(descs[d].flags, arg));
      forall e ensures Bit(v.flags, e) == Bit(descs[d].flags, e) { SetFlagsKeepsEnds(descs[d].flags, arg, e); }
      EndsCarry(descs, pipes, d, v);
      var n := descs[d := v];
      forall e ensures RefsOk(tables, n, held, e) { assert RefsOk(tables, descs, held, e); }
      descs := n;
      return Fd(0);
    }

    // ---- Whole tables -----------------------------------------------------------------------------

    /** Reset every slot. */
    method CloseAll(p: Pid)
      requires Valid() && p in tables
      modifies this
      ensures Valid() && held == old(held) && pipes.Keys == old(pipes).Keys && Shrinks(old(descs), descs)
      ensures tables == old(tables)[p := Nones(|old(tables)[p]|)]
    {
      var fd := 0;
      ghost var n := |tables[p]|;
      assert tables == tables[p := tables[p]];
      while fd < |tables[p]|
        invariant p in tables && fd <= n == |tables[p]| && tables == old(tables)[p := tables[p]]
        invariant Valid() && held == old(held) && pipes.Keys == old(pipes).Keys && Shrinks(old(descs), descs)
        invariant forall i :: 0 <= i < fd ==> tables[p][i] == None
      {
        Clear(p, fd);
        fd := fd + 1;
      }
      assert tables[p] == Nones(n);
    }

    /** Exit closes every descriptor and empties the table. */
    method SysExit(p: Pid)
      requires Valid() && p in tables
      modifies this
      ensures Valid() && held == old(held) && pipes.Keys == old(pipes).Keys && Shrinks(old(descs), descs)
      ensures tables == old(tables)[p := []]
    {
      CloseAll(p);
      DropTableCounts(tables, descs, pipes, held, p);
      NewTableCounts(tables - {p}, descs, pipes, held, p, []);
      assert (tables - {p})[p := []] == tables[p := []];
      tables := tables[p := []];
    }

    /** Copy the parent's handles into the child's slots. */
    method CopyTable(p: Pid, child: Pid)
      requires Valid() && p in tables && child in tables && child != p && tables[child] == Nones(|tables[p]|)
      modifies this`tables, this`descs, this`held
      ensures Valid() && held == old(held) && Shrinks(old(descs), descs) && descs.Keys == old(descs).Keys
      ensures tables == old(tables)[child := old(tables)[p]]
    {
      var fd := 0;
      ghost var t := tables[p];
      assert tables == tables[child := tables[child]];
      while fd < |tables[p]|
        invariant p in tables && tables[p] == t && child in tables && fd <= |t| == |tables[child]|
        invariant tables == old(tables)[child := tables[child]]
        invariant Valid() && held == old(held) && Shrinks(old(descs), descs) && descs.Keys == old(descs).Keys
        invariant forall i :: 0 <= i < fd ==> tables[child][i] == t[i]
        invariant forall i :: fd <= i < |t| ==> tables[child][i] == None
      {
        if tables[p][fd].Some? {
          var d := tables[p][fd].value;
          assert (p, fd) in Slots(tables, d) && RefsOk(tables, descs, held, d);
          Store(child, fd, d);
        }
        fd := fd + 1;
      }
      assert tables[child] == t;
    }

    /** Fork shares every open description with the child; when the child's table or thread cannot be
        allocated the child goes away again and nothing has changed. */
    method SysFork(p: Pid, child: Pid, resized: bool, threaded: bool) returns (ok: bool)
      requires Valid() && p in tables && child !in tables
      modifies this
      ensures Valid() && held == old(held) && pipes.Keys == old(pipes).Keys && Shrinks(old(descs), descs)
      ensures ok == (resized && threaded)
      ensures tables == if ok then old(tables)[child := old(tables)[p]] else old(tables)
    {
      if !resized { return false; }
      NewTableCounts(tables, descs, pipes, held, child, Nones(|tables[p]|));
      tables := tables[child := Nones(|tables[p]|)];
      CopyTable(p, child);
      if !threaded {
        CloseAll(child);
        DropTableCounts(tables, descs, pipes, held, child);
        tables := tables - {child};
        assert tables == old(tables);
        return false;
      }
      return true;
    }

    method SysReap(p: Pid)
      requires Valid() && p in tables && tables[p] == []
      modifies this`tables
      ensures Valid() && tables == old(tables) - {p}
    {
      DropTableCounts(tables, descs, pipes, held, p);
      tables := tables - {p};
    }

    // ---- Runs -------------------------------------------------------------------------------------

    function Now(): Snapshot
      reads this
    {
      Snapshot(tables, descs, pipes, held)
    }

    method Perform(c: Call)
      requires Valid() && Possible(Now(), c)
      modifies this
      ensures Valid() && Effect(Cut(c), old(tables), tables)
    {
      match Cut(c)
      case Pipe(p, q, rd, wr, grows, again) =>
        var r := SysPipe(p, q, rd, wr, grows, again);
        assert Placed(old(tables)[p], tables[p], rd, wr, grows, again, r);
      case Open(p, d, flags, grows) => var _ := SysOpen(p, d, flags, grows);
      case Close(p, fd) => FreeFd(p, fd);
      case Dup(p, fd, grows) => var _ := SysDup(p, fd, grows);
      case Dup2(p, fd, to, grows) => var _ := SysDup2(p, fd, to, grows);
      case DupFd(p, fd, min, grows) =>
        var r := SysDupFd(p, fd, min, grows);
        assert r.Fd? ==> Duplicates(old(tables), tables, p, fd, r.fd, min, grows);
      case SetFl(p, fd, arg) => var _ := SysSetFl(p, fd, arg);
      case Fork(p, child, resized, threaded) => var _ := SysFork(p, child, resized, threaded);
      case Exit(p) => SysExit(p);
      case Reap(p) => SysReap(p);
      case Sleep(p, fd) => var _ := GetFd(p, fd);
      case Return(d) => Drop(d);
    }
  }

  /** Every call that is possible takes the tables from one snapshot to the next as `Effect` says; the
      others are not made. */
  ghost predicate Traced(calls: seq<Call>, trace: seq<Snapshot>) {
    && |trace| == |calls| + 1
    && forall i :: 0 <= i < |calls| ==>
      if Possible(trace[i], calls[i]) then Effect(Cut(calls[i]), trace[i].tables, trace[i + 1].tables) else trace[i + 1] == trace[i]
  }

  /** The descriptions that exist are those some slot or sleeping call refers to, and each pipe's reader
      and writer counts are the numbers of them with the read and the write bit. */
  ghost predicate CountsReferences(s: Snapshot) {
    && (forall d :: d in s.descs <==> Referenced(s.tables, s.held, d))
    && (forall q :: q in s.pipes ==>
      && s.pipes[q].readers == |set d | d in s.descs && Referenced(s.tables, s.held, d) && Opens(s.descs[d], q, ReadEnd)|
      && s.pipes[q].writers == |set d | d in s.descs && Referenced(s.tables, s.held, d) && Opens(s.descs[d], q, WriteEnd)|)
  }

  lemma CountedReferences(s: Snapshot)
    requires Counted(s.tables, s.descs, s.pipes, s.held)
    ensures CountsReferences(s)
  {
    forall d ensures d in s.descs <==> Referenced(s.tables, s.held, d) { assert RefsOk(s.tables, s.descs, s.held, d); }
    forall q | q in s.pipes
      ensures s.pipes[q].readers == |set d | d in s.descs && Referenced(s.tables, s.held, d) && Opens(s.descs[d], q, ReadEnd)|
      ensures s.pipes[q].writers == |set d | d in s.descs && Referenced(s.tables, s.held, d) && Opens(s.descs[d], q, WriteEnd)|
    {
      CountsAreReferences(s.tables, s.descs, s.pipes, s.held, q);
    }
  }

  /** Counts agree with references after every call of any sequence of calls by any number of
      processes, whatever the allocator answers. */
  method Run(init: Pid, calls: seq<Call>) returns (k: Kernel, ghost trace: seq<Snapshot>)
    ensures Traced(calls, trace) && trace[0] == Snapshot(map[init := []], map[], map[], multiset{}) && trace[|calls|] == k.Now()
    ensures CountsReferences(k.Now()) && forall s :: s in trace ==> CountsReferences(s)
  {
    k := new Kernel(init);
    trace := [k.Now()];
    CountedReferences(k.Now());
    for i := 0 to |calls|
      invariant k.Valid() && fresh(k)
      invariant Traced(calls[..i], trace) && trace[0] == Snapshot(map[init := []], map[], map[], multiset{}) && trace[i] == k.Now()
      invariant forall s :: s in trace ==> CountsReferences(s)
    {
      var possible := Possible(k.Now(), calls[i]);
      if possible { k.Perform(calls[i]); }
      CountedReferences(k.Now());
      trace := trace + [k.Now()];
    }
    assert calls[..|calls|] == calls;
  }
}

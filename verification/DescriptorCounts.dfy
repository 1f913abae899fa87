/** Open file descriptions shared between descriptor tables, and the reader and writer counts of the
    pipes they refer to. */
module DescriptorCounts {

  datatype Option<T> = None | Some(value: T)

  type Pid = nat
  type Desc = nat
  type PipeId = nat
  type Table = seq<Option<Desc>>

  const MAX_FDS: nat := 1024

  /** `refs` is the reference count; `pipe` is the pipe the description is an end of, if any; `flags`
      is an unsigned 32-bit word of which bit 0x1 opens the read end and bit 0x2 the write end. */
  datatype Description = Description(pipe: Option<PipeId>, flags: nat, refs: nat)

  datatype End = ReadEnd | WriteEnd

  predicate Bit(flags: nat, e: End) {
    match e case ReadEnd => flags % 2 == 1 case WriteEnd => flags / 2 % 2 == 1
  }

  predicate Opens(v: Description, q: PipeId, e: End) { v.pipe == Some(q) && Bit(v.flags, e) }

  datatype Ends = Ends(readers: nat, writers: nat)

  /** The descriptor slots that refer to `d`. */
  ghost function Slots(tables: map<Pid, Table>, d: Desc): set<(Pid, nat)> {
    set p, i | p in tables && 0 <= i < |tables[p]| && tables[p][i] == Some(d) :: (p, i)
  }

  /** The live descriptions that hold the given end of a pipe open. */
  ghost function Live(descs: map<Desc, Description>, q: PipeId, e: End): set<Desc> {
    set d | d in descs && Opens(descs[d], q, e)
  }

  /** Counts agree with references: a description's count is the number of slots that refer to it plus
      the handles kernel code holds at the moment, it is never zero, and a pipe's reader and writer
      counts are the numbers of live descriptions with the read and the write bit. */
  ghost predicate RefsOk(tables: map<Pid, Table>, descs: map<Desc, Description>, held: multiset<Desc>, d: Desc) {
    (d in descs ==> descs[d].refs > 0 && descs[d].refs == |Slots(tables, d)| + held[d]) &&
    (d !in descs ==> Slots(tables, d) == {} && held[d] == 0)
  }

  ghost predicate EndsOk(descs: map<Desc, Description>, pipes: map<PipeId, Ends>, q: PipeId) {
    if q in pipes then
      pipes[q].readers == |Live(descs, q, ReadEnd)| && pipes[q].writers == |Live(descs, q, WriteEnd)|
    else
      forall d :: d in descs ==> descs[d].pipe != Some(q)
  }

  ghost predicate Counted(tables: map<Pid, Table>, descs: map<Desc, Description>, pipes: map<PipeId, Ends>, held: multiset<Desc>) {
    && (forall d :: RefsOk(tables, descs, held, d))
    && (forall q :: EndsOk(descs, pipes, q))
  }

  // ---- What one update does to the counted sets ------------------------------------------------

  lemma SlotClear(tables: map<Pid, Table>, p: Pid, i: nat, d: Desc)
    requires p in tables && i < |tables[p]|
    ensures Slots(tables[p := tables[p][i := None]], d) == Slots(tables, d) - {(p, i)}
  {
    var t := tables[p := tables[p][i := None]];
    forall x ensures x in Slots(t, d) <==> x in Slots(tables, d) - {(p, i)} {
      if x.0 == p && x.1 != i && x.1 < |tables[p]| { assert t[p][x.1] == tables[p][x.1]; }
    }
  }

  lemma SlotStore(tables: map<Pid, Table>, p: Pid, i: nat, v: Desc, d: Desc)
    requires p in tables && i < |tables[p]| && tables[p][i] == None
    ensures Slots(tables[p := tables[p][i := Some(v)]], d) == Slots(tables, d) + if v == d then {(p, i)} else {}
    ensures (p, i) !in Slots(tables, d)
  {
    var t := tables[p := tables[p][i := Some(v)]];
    forall x ensures x in Slots(t, d) <==> x in Slots(tables, d) || (v == d && x == (p, i)) {
      if x.0 == p && x.1 != i && x.1 < |tables[p]| { assert t[p][x.1] == tables[p][x.1]; }
    }
  }

  /** Growing a table with empty slots, or adding an empty table, changes no count. */
  lemma SlotGrow(tables: map<Pid, Table>, p: Pid, bigger: Table, d: Desc)
    requires p in tables && |tables[p]| <= |bigger| && bigger[..|tables[p]|] == tables[p]
    requires forall i :: |tables[p]| <= i < |bigger| ==> bigger[i] == None
    ensures Slots(tables[p := bigger], d) == Slots(tables, d)
  {
    var t := tables[p := bigger];
    forall x | x in Slots(t, d) ensures x in Slots(tables, d) {
      assert x.0 == p ==> x.1 < |tables[p]| && bigger[x.1] == bigger[..|tables[p]|][x.1];
    }
    forall x | x in Slots(tables, d) ensures x in Slots(t, d) {
      assert x.0 == p ==> bigger[x.1] == bigger[..|tables[p]|][x.1];
    }
  }

  lemma SlotNewTable(tables: map<Pid, Table>, p: Pid, empty: Table, d: Desc)
    requires p !in tables && forall i :: 0 <= i < |empty| ==> empty[i] == None
    ensures Slots(tables[p := empty], d) == Slots(tables, d)
  {}

  /** A change of count or of other flag bits leaves the live sets alone. */
  lemma LiveSame(descs: map<Desc, Description>, d: Desc, v: Description, q: PipeId, e: End)
    requires d in descs && (Opens(v, q, e) <==> Opens(descs[d], q, e))
    ensures Live(descs[d := v], q, e) == Live(descs, q, e)
  {
    forall x ensures x in Live(descs[d := v], q, e) <==> x in Live(descs, q, e) {}
  }

  lemma LiveAdd(descs: map<Desc, Description>, d: Desc, v: Description, q: PipeId, e: End)
    requires d !in descs
    ensures |Live(descs[d := v], q, e)| == |Live(descs, q, e)| + if Opens(v, q, e) then 1 else 0
  {
    var now := Live(descs[d := v], q, e);
    forall x ensures x in now <==> x in Live(descs, q, e) || (x == d && Opens(v, q, e)) {}
    assert now == if Opens(v, q, e) then Live(descs, q, e) + {d} else Live(descs, q, e);
  }

  lemma LiveRemove(descs: map<Desc, Description>, d: Desc, q: PipeId, e: End)
    requires d in descs
    ensures |Live(descs, q, e)| == |Live(descs - {d}, q, e)| + if Opens(descs[d], q, e) then 1 else 0
  {
    assert descs == (descs - {d})[d := descs[d]];
    LiveAdd(descs - {d}, d, descs[d], q, e);
  }

  /** F_SETFL: the low two bits of the description with the other bits of the argument, which the
      call cuts to 32 bits. */
  function SetFlags(flags: nat, arg: nat): nat { flags % 4 + arg % 0x1_0000_0000 / 4 * 4 }

  /** It keeps the access-mode bits, which are the bits that say which ends are open. */
  lemma SetFlagsKeepsEnds(flags: nat, arg: nat, e: End)
    ensures Bit(SetFlags(flags, arg), e) == Bit(flags, e)
    ensures SetFlags(flags, arg) % 4 == flags % 4 && SetFlags(flags, arg) / 4 == arg % 0x1_0000_0000 / 4
  {}

  // ---- Reference changes --------------------------------------------------------------------------

  /** One more handle on an existing description. */
  lemma HoldCounts(tables: map<Pid, Table>, descs: map<Desc, Description>, pipes: map<PipeId, Ends>, held: multiset<Desc>, d: Desc)
    requires Counted(tables, descs, pipes, held) && d in descs
    ensures Counted(tables, descs[d := descs[d].(refs := descs[d].refs + 1)], pipes, held + multiset{d})
  {
    var n := descs[d := descs[d].(refs := descs[d].refs + 1)];
    forall e ensures RefsOk(tables, n, held + multiset{d}, e) { assert RefsOk(tables, descs, held, e); }
    EndsCarry(descs, pipes, d, n[d]);
  }

  lemma EndsCarry(descs: map<Desc, Description>, pipes: map<PipeId, Ends>, d: Desc, v: Description)
    requires (forall q :: EndsOk(descs, pipes, q)) && d in descs && v.pipe == descs[d].pipe
    requires forall e :: Bit(v.flags, e) == Bit(descs[d].flags, e)
    ensures var n := descs[d := v]; forall q :: EndsOk(n, pipes, q)
  {
    var n := descs[d := v];
    forall q ensures EndsOk(n, pipes, q) {
      assert EndsOk(descs, pipes, q);
      LiveSame(descs, d, v, q, ReadEnd);
      LiveSame(descs, d, v, q, WriteEnd);
    }
  }

  /** One handle fewer on a description that keeps others. */
  lemma ReleaseCounts(tables: map<Pid, Table>, descs: map<Desc, Description>, pipes: map<PipeId, Ends>, held: multiset<Desc>, d: Desc)
    requires Counted(tables, descs, pipes, held) && d in held && d in descs && descs[d].refs > 1
    ensures Counted(tables, descs[d := descs[d].(refs := descs[d].refs - 1)], pipes, held - multiset{d})
  {
    var n := descs[d := descs[d].(refs := descs[d].refs - 1)];
    forall e ensures RefsOk(tables, n, held - multiset{d}, e) { assert RefsOk(tables, descs, held, e); }
    EndsCarry(descs, pipes, d, n[d]);
  }

  function Opened(e: Ends, flags: nat): Ends {
    Ends(e.readers + if Bit(flags, ReadEnd) then 1 else 0, e.writers + if Bit(flags, WriteEnd) then 1 else 0)
  }

  /** A new description opens its ends. */
  lemma CreateCounts(tables: map<Pid, Table>, descs: map<Desc, Description>, pipes: map<PipeId, Ends>, held: multiset<Desc>, d: Desc, v: Description)
    requires Counted(tables, descs, pipes, held) && d !in descs && v.refs == 1 && (v.pipe.Some? ==> v.pipe.value in pipes)
    ensures Counted(tables, descs[d := v],
                    if v.pipe.Some? then pipes[v.pipe.value := Opened(pipes[v.pipe.value], v.flags)] else pipes, held + multiset{d})
  {
    var n := descs[d := v];
    var ps := if v.pipe.Some? then pipes[v.pipe.value := Opened(pipes[v.pipe.value], v.flags)] else pipes;
    forall e ensures RefsOk(tables, n, held + multiset{d}, e) { assert RefsOk(tables, descs, held, e); }
    forall q ensures EndsOk(n, ps, q) {
      assert EndsOk(descs, pipes, q);
      LiveAdd(descs, d, v, q, ReadEnd);
      LiveAdd(descs, d, v, q, WriteEnd);
    }
  }

  /** A description about to be destroyed still counts for the ends it closes, so no count underflows. */
  lemma OpenEnds(descs: map<Desc, Description>, pipes: map<PipeId, Ends>, d: Desc, q: PipeId)
    requires EndsOk(descs, pipes, q) && d in descs && descs[d].pipe == Some(q)
    ensures q in pipes
    ensures Bit(descs[d].flags, ReadEnd) ==> pipes[q].readers > 0
    ensures Bit(descs[d].flags, WriteEnd) ==> pipes[q].writers > 0
  {
    LiveRemove(descs, d, q, ReadEnd);
    LiveRemove(descs, d, q, WriteEnd);
  }

  function Closed(e: Ends, flags: nat): Ends
    requires (Bit(flags, ReadEnd) ==> e.readers > 0) && (Bit(flags, WriteEnd) ==> e.writers > 0)
  {
    Ends(e.readers - if Bit(flags, ReadEnd) then 1 else 0, e.writers - if Bit(flags, WriteEnd) then 1 else 0)
  }

  /** Destroying the last reference closes its ends. */
  lemma DestroyCounts(tables: map<Pid, Table>, descs: map<Desc, Description>, pipes: map<PipeId, Ends>, ps: map<PipeId, Ends>, held: multiset<Desc>, d: Desc)
    requires Counted(tables, descs, pipes, held) && d in held && d in descs && descs[d].refs == 1
    requires descs[d].pipe.Some? ==>
      var q := descs[d].pipe.value;
      && q in pipes
      && (Bit(descs[d].flags, ReadEnd) ==> pipes[q].readers > 0) && (Bit(descs[d].flags, WriteEnd) ==> pipes[q].writers > 0)
      && ps == pipes[q := Closed(pipes[q], descs[d].flags)]
    requires descs[d].pipe.None? ==> ps == pipes
    ensures Counted(tables, descs - {d}, ps, held - multiset{d})
  {
    var n := descs - {d};
    assert RefsOk(tables, descs, held, d);
    forall e ensures RefsOk(tables, n, held - multiset{d}, e) { assert RefsOk(tables, descs, held, e); }
    forall q ensures EndsOk(n, ps, q) {
      assert EndsOk(descs, pipes, q);
      LiveRemove(descs, d, q, ReadEnd);
      LiveRemove(descs, d, q, WriteEnd);
    }
  }

  /** Moving a handle from kernel code into an empty slot. */
  lemma StoreCounts(tables: map<Pid, Table>, descs: map<Desc, Description>, pipes: map<PipeId, Ends>, held: multiset<Desc>, p: Pid, i: nat, d: Desc)
    requires Counted(tables, descs, pipes, held) && d in held && p in tables && i < |tables[p]| && tables[p][i] == None
    ensures Counted(tables[p := tables[p][i := Some(d)]], descs, pipes, held - multiset{d})
  {
    var t := tables[p := tables[p][i := Some(d)]];
    forall e ensures RefsOk(t, descs, held - multiset{d}, e) {
      assert RefsOk(tables, descs, held, e) && RefsOk(tables, descs, held, d);
      SlotStore(tables, p, i, d, e);
    }
  }

  /** Moving the handle of a slot to kernel code. */
  lemma TakeCounts(tables: map<Pid, Table>, descs: map<Desc, Description>, pipes: map<PipeId, Ends>, held: multiset<Desc>, p: Pid, i: nat, d: Desc)
    requires Counted(tables, descs, pipes, held) && p in tables && i < |tables[p]| && tables[p][i] == Some(d)
    ensures Counted(tables[p := tables[p][i := None]], descs, pipes, held + multiset{d}) && d in descs
  {
    var t := tables[p := tables[p][i := None]];
    assert (p, i) in Slots(tables, d);
    forall e ensures RefsOk(t, descs, held + multiset{d}, e) {
      assert RefsOk(tables, descs, held, e) && RefsOk(tables, descs, held, d);
      SlotClear(tables, p, i, e);
    }
  }

  lemma GrowCounts(tables: map<Pid, Table>, descs: map<Desc, Description>, pipes: map<PipeId, Ends>, held: multiset<Desc>, p: Pid, bigger: Table)
    requires Counted(tables, descs, pipes, held) && p in tables && |tables[p]| <= |bigger| && bigger[..|tables[p]|] == tables[p]
    requires forall i :: |tables[p]| <= i < |bigger| ==> bigger[i] == None
    ensures Counted(tables[p := bigger], descs, pipes, held)
  {
    var t := tables[p := bigger];
    forall e ensures RefsOk(t, descs, held, e) {
      assert RefsOk(tables, descs, held, e);
      SlotGrow(tables, p, bigger, e);
    }
  }

  lemma NewTableCounts(tables: map<Pid, Table>, descs: map<Desc, Description>, pipes: map<PipeId, Ends>, held: multiset<Desc>, p: Pid, empty: Table)
    requires Counted(tables, descs, pipes, held) && p !in tables && forall i :: 0 <= i < |empty| ==> empty[i] == None
    ensures Counted(tables[p := empty], descs, pipes, held)
  {
    var t := tables[p := empty];
    forall e ensures RefsOk(t, descs, held, e) {
      assert RefsOk(tables, descs, held, e);
      SlotNewTable(tables, p, empty, e);
    }
  }

  lemma NewPipeCounts(tables: map<Pid, Table>, descs: map<Desc, Description>, pipes: map<PipeId, Ends>, held: multiset<Desc>, q: PipeId)
    requires Counted(tables, descs, pipes, held) && q !in pipes
    ensures Counted(tables, descs, pipes[q := Ends(0, 0)], held)
  {
    var ps := pipes[q := Ends(0, 0)];
    forall r ensures EndsOk(descs, ps, r) {
      assert EndsOk(descs, pipes, r);
      if r == q { assert Live(descs, q, ReadEnd) == {} && Live(descs, q, WriteEnd) == {}; }
    }
  }

  lemma DropTableCounts(tables: map<Pid, Table>, descs: map<Desc, Description>, pipes: map<PipeId, Ends>, held: multiset<Desc>, p: Pid)
    requires Counted(tables, descs, pipes, held) && p in tables && forall i :: 0 <= i < |tables[p]| ==> tables[p][i] == None
    ensures Counted(tables - {p}, descs, pipes, held)
  {
    var t := tables - {p};
    forall e ensures RefsOk(t, descs, held, e) {
      assert RefsOk(tables, descs, held, e);
      assert Slots(t, e) == Slots(tables, e);
    }
  }

  // ---- What the invariant means ---------------------------------------------------------------------

  /** Some descriptor slot, or a system call asleep in the kernel, refers to `d`. */
  ghost predicate Referenced(tables: map<Pid, Table>, held: multiset<Desc>, d: Desc) {
    Slots(tables, d) != {} || d in held
  }

  /** The descriptions that exist are the ones referred to, and a pipe's counts are the numbers of
      distinct descriptions referred to with the read and the write bit. */
  lemma CountsAreReferences(tables: map<Pid, Table>, descs: map<Desc, Description>, pipes: map<PipeId, Ends>, held: multiset<Desc>, q: PipeId)
    requires Counted(tables, descs, pipes, held) && q in pipes
    ensures forall d :: d in descs <==> Referenced(tables, held, d)
    ensures pipes[q].readers == |set d | d in descs && Referenced(tables, held, d) && Opens(descs[d], q, ReadEnd)|
    ensures pipes[q].writers == |set d | d in descs && Referenced(tables, held, d) && Opens(descs[d], q, WriteEnd)|
  {
    forall d ensures d in descs <==> Referenced(tables, held, d) { assert RefsOk(tables, descs, held, d); }
    assert EndsOk(descs, pipes, q);
    assert Live(descs, q, ReadEnd) == set d | d in descs && Referenced(tables, held, d) && Opens(descs[d], q, ReadEnd);
    assert Live(descs, q, WriteEnd) == set d | d in descs && Referenced(tables, held, d) && Opens(descs[d], q, WriteEnd);
  }

  /** A reader sees end of file, and a writer EPIPE, exactly when no open descriptor and no sleeping
      call is left for the other end. */
  lemma EndClosedIff(tables: map<Pid, Table>, descs: map<Desc, Description>, pipes: map<PipeId, Ends>, held: multiset<Desc>, q: PipeId)
    requires Counted(tables, descs, pipes, held) && q in pipes
    ensures pipes[q].writers == 0 <==> forall d :: d in descs && Referenced(tables, held, d) ==> !Opens(descs[d], q, WriteEnd)
    ensures pipes[q].readers == 0 <==> forall d :: d in descs && Referenced(tables, held, d) ==> !Opens(descs[d], q, ReadEnd)
  {
    CountsAreReferences(tables, descs, pipes, held, q);
    assert EndsOk(descs, pipes, q);
    assert pipes[q].writers == 0 <==> Live(descs, q, WriteEnd) == {};
    assert pipes[q].readers == 0 <==> Live(descs, q, ReadEnd) == {};
    assert forall d :: d in descs && Opens(descs[d], q, WriteEnd) ==> d in Live(descs, q, WriteEnd);
    assert forall d :: d in descs && Opens(descs[d], q, ReadEnd) ==> d in Live(descs, q, ReadEnd);
  }

  // ---- Descriptor tables --------------------------------------------------------------------------

  /** The open descriptors of a table. */
  function OpenFds(t: Table): map<nat, Desc> {
    map i: nat | i < |t| && t[i].Some? :: t[i].value
  }

  predicate Free(t: Table, i: nat) { i < |t| ==> t[i].None? }

  /** The lowest free descriptor at or above `from`. */
  function LowestFree(t: Table, from: nat): (i: nat)
    ensures from <= i && Free(t, i) && forall j: nat :: from <= j < i ==> !Free(t, j)
    decreases |t| - from
  {
    if Free(t, from) then from else LowestFree(t, from + 1)
  }

  function Nones(n: nat): (t: Table)
    ensures |t| == n && forall i :: 0 <= i < n ==> t[i] == None
  {
    seq(n, _ => None)
  }

  function Grown(t: Table, n: nat): Table { if n <= |t| then t else t + Nones(n - |t|) }

  function Put(t: Table, i: nat, d: Desc): Table { Grown(t, i + 1)[i := Some(d)] }

  lemma PutOpens(t: Table, i: nat, d: Desc)
    ensures OpenFds(Put(t, i, d)) == OpenFds(t)[i := d] && |Put(t, i, d)| == if i < |t| then |t| else i + 1
  {}

  function Cleared(t: Table, i: nat): Table { if i < |t| then t[i := None] else t }

  lemma ClearedOpens(t: Table, i: nat)
    ensures OpenFds(Cleared(t, i)) == OpenFds(t) - {i}
  {}

  lemma FreeIsNotOpen(t: Table, i: nat)
    ensures Free(t, i) <==> i !in OpenFds(t)
  {}

  lemma LowestIs(t: Table, from: nat, i: nat)
    requires from <= i && Free(t, i) && forall j: nat :: from <= j < i ==> !Free(t, j)
    ensures LowestFree(t, from) == i
  {
    var l := LowestFree(t, from);
    assert Free(t, l) && Free(t, i);
  }

  /** A description is referred to by the slots of the open-descriptor maps. */
  lemma SlotsByOpenFds(tables: map<Pid, Table>, d: Desc, p: Pid, i: nat)
    ensures (p, i) in Slots(tables, d) <==> p in tables && i in OpenFds(tables[p]) && OpenFds(tables[p])[i] == d
  {}

  /** When only `rd`, with the read bit, and `wr`, with the write bit, refer to a pipe, its counts say
      whether each of them exists. */
  lemma TwoEndCounts(descs: map<Desc, Description>, pipes: map<PipeId, Ends>, q: PipeId, rd: Desc, wr: Desc)
    requires EndsOk(descs, pipes, q) && q in pipes
    requires forall d :: d in descs && descs[d].pipe == Some(q) ==> d == rd || d == wr
    requires rd in descs ==> descs[rd].pipe == Some(q) && descs[rd].flags == 1
    requires wr in descs ==> descs[wr].pipe == Some(q) && descs[wr].flags == 2
    ensures pipes[q] == Ends(if rd in descs then 1 else 0, if wr in descs then 1 else 0)
  {
    assert Bit(1, ReadEnd) && !Bit(1, WriteEnd) && !Bit(2, ReadEnd) && Bit(2, WriteEnd);
    forall x ensures x in Live(descs, q, ReadEnd) <==> x == rd && rd in descs {}
    forall x ensures x in Live(descs, q, WriteEnd) <==> x == wr && wr in descs {}
    assert Live(descs, q, ReadEnd) == if rd in descs then {rd} else {};
    assert Live(descs, q, WriteEnd) == if wr in descs then {wr} else {};
  }

  /** With the lowest free descriptor taken, the next lowest is higher. */
  lemma SecondIsHigher(t: Table, d: Desc)
    ensures LowestFree(t, 0) < LowestFree(Put(t, LowestFree(t, 0), d), 0)
  {
    var i := LowestFree(t, 0);
    var j := LowestFree(Put(t, i, d), 0);
    assert !Free(Put(t, i, d), i);
    assert j < i ==> Free(t, j);
  }
}

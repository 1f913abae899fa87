/** The archive loader: a loop over the headers of the archive that adds each entry to the tree. */
module Cpio {
  import opened TreeModel
  import opened CpioModel
  import FileTree

  method ReadHex(s: seq<byte>, at: nat, len: nat) returns (val: nat)
    requires at + len <= |s|
    ensures val == ParseHex(s, at, len)
  {
    val := 0;
    for i := 0 to len
      invariant val == ParseHex(s, at, i)
    {
      val := val * 16;
      var c := s[at + i];
      if 48 <= c <= 57 {
        val := val + (c - 48) as int;
      } else if 97 <= c <= 102 {
        val := val + (c - 97 + 10) as int;
      } else if 65 <= c <= 70 {
        val := val + (c - 65 + 10) as int;
      }
    }
  }

  /** Read the header fields at `rest` and find where the parts of the entry are. */
  method ReadFrame(rest: seq<byte>, addr: nat) returns (f: Frame)
    requires |rest| >= HEADER
    ensures f == FrameAt(rest, addr)
  {
    var filesize := ReadHex(rest, 54, 8);
    var namesize := ReadHex(rest, 94, 8);
    var mode := ReadHex(rest, 14, 8);
    var data := Up4(addr + (HEADER + namesize)) - addr;
    var next := Up4(addr + (data + filesize)) - addr;
    f := Frame(mode, namesize, filesize, data, next - HEADER);
  }

  /** One turn of the loop, up to the point where the entry is made. */
  method Turn(rest: seq<byte>, addr: nat) returns (s: Step)
    requires rest != []
    ensures s == StepAt(rest, addr)
  {
    if |rest| < 6 { return Stop(OverRead); }
    if rest[..6] != MAGIC { return Stop(BadMagic); }
    if |rest| < HEADER + 10 { return Stop(OverRead); }
    var f := ReadFrame(rest, addr);
    if rest[HEADER..HEADER + 10] == TRAILER { return Stop(Trailer); }
    if f.namesize == 0 || HEADER + f.namesize - 1 > |rest| { return Stop(OverRead); }
    if f.filesize > 0 && f.data + f.filesize > |rest| { return Stop(OverRead); }
    var name := rest[HEADER..HEADER + f.namesize - 1];
    s := Go(Entry(name, f.mode, if f.filesize == 0 then [] else rest[f.data..f.data + f.filesize]), f.skip);
  }

  /** The archive lies at address `addr`. */
  method Populate(tree: FileTree.Tree, root: Id, archive: seq<byte>, addr: nat, fits: nat -> bool) returns (end: End, ghost entries: seq<Entry>)
    requires Tree(tree.Model()) && root < |tree.nodes|
    modifies tree
    ensures Decoded(entries, end) == Decode(archive, addr)
    ensures Tree(tree.Model()) && tree.Model() == TreeAfter(old(tree.Model()), root, entries, fits, |entries|)
  {
    end, entries := PopulateBy(tree, root, archive, addr, fits, StepAt);
  }

  ghost predicate Describes(step: (seq<byte>, nat) -> Step) {
    forall r: seq<byte>, a: nat {:trigger StepAt(r, a)} :: step(r, a) == StepAt(r, a)
  }

  method TurnBy(rest: seq<byte>, addr: nat, ghost step: (seq<byte>, nat) -> Step) returns (s: Step)
    requires rest != [] && Describes(step)
    ensures s == step(rest, addr)
  {
    s := Turn(rest, addr);
  }

  lemma Beginning(step: (seq<byte>, nat) -> Step, archive: seq<byte>, addr: nat)
    requires Describes(step)
    ensures DecodeWith(step, archive, addr) == Continued([], Remaining(step, archive, addr, 0))
  {
    assert archive[0..] == archive;
    if archive == [] { assert StepAt(archive, addr) == Stop(EndOfBuffer); }
  }

  /** The loop; its turns are described by `step`. */
  method PopulateBy(tree: FileTree.Tree, root: Id, archive: seq<byte>, addr: nat, fits: nat -> bool, ghost step: (seq<byte>, nat) -> Step)
    returns (end: End, ghost entries: seq<Entry>)
    requires Tree(tree.Model()) && root < |tree.nodes|
    requires Describes(step)
    modifies tree
    ensures Decoded(entries, end) == DecodeWith(step, archive, addr)
    ensures Tree(tree.Model()) && tree.Model() == TreeAfter(old(tree.Model()), root, entries, fits, |entries|)
  {
    var ptr, count := 0, 0;
    entries := [];
    ghost var whole := DecodeWith(step, archive, addr);
    ghost var fs := tree.Model();
    Beginning(step, archive, addr);
    while ptr < |archive|
      invariant count == |entries| && Tree(tree.Model()) && root < |tree.nodes|
      invariant tree.Model() == TreeAfter(fs, root, entries, fits, count)
      invariant whole == Continued(entries, Remaining(step, archive, addr, ptr))
      decreases |archive| - ptr
    {
      var s := TurnBy(archive[ptr..], addr + ptr, step);
      if s.Stop? { return s.end, entries; }
      Add(tree, root, s.entry, fits, count, fs, entries);
      Advance(step, archive, addr, ptr, s);
      Append(entries, s.entry, Remaining(step, archive, addr, ptr + HEADER + s.skip));
      entries := entries + [s.entry];
      ptr, count := ptr + HEADER + s.skip, count + 1;
    }
    return EndOfBuffer, entries;
  }

  /** Add one more entry to the tree. */
  method Add(tree: FileTree.Tree, root: Id, e: Entry, fits: nat -> bool, count: nat, ghost fs: Fs, ghost entries: seq<Entry>)
    requires Tree(fs) && root < |fs.nodes| && count == |entries|
    requires Tree(tree.Model()) && root < |tree.nodes| && tree.Model() == TreeAfter(fs, root, entries, fits, count)
    modifies tree
    ensures Tree(tree.Model()) && root < |tree.nodes| && tree.Model() == TreeAfter(fs, root, entries + [e], fits, count + 1)
  {
    var _ := tree.CreateEntry(root, PathOf(e), e.mode, e.data, fits(count));
    TreeExtends(fs, root, entries, e, fits, count);
    OneMore(fs, root, entries + [e], fits, count);
  }

  /** What the loop still decodes. */
  function Remaining(step: (seq<byte>, nat) -> Step, archive: seq<byte>, addr: nat, ptr: nat): Decoded {
    if ptr < |archive| then DecodeWith(step, archive[ptr..], addr + ptr) else Decoded([], EndOfBuffer)
  }

  function Continued(entries: seq<Entry>, rest: Decoded): Decoded { Decoded(entries + rest.entries, rest.end) }

  lemma Append(entries: seq<Entry>, e: Entry, rest: Decoded)
    ensures Continued(entries, Then(e, rest)) == Continued(entries + [e], rest)
  {}

  lemma Advance(step: (seq<byte>, nat) -> Step, archive: seq<byte>, addr: nat, ptr: nat, s: Step)
    requires ptr < |archive| && s == step(archive[ptr..], addr + ptr) && s.Go?
    ensures Remaining(step, archive, addr, ptr) == Then(s.entry, Remaining(step, archive, addr, ptr + HEADER + s.skip))
  {
    var n := HEADER + s.skip;
    if n < |archive[ptr..]| { assert archive[ptr..][n..] == archive[ptr + n..]; }
  }

  /** Later entries do not matter to the tree so far. */
  lemma {:induction false} TreeExtends(fs: Fs, root: Id, es: seq<Entry>, e: Entry, fits: nat -> bool, k: nat)
    requires Tree(fs) && root < |fs.nodes| && k <= |es|
    ensures TreeAfter(fs, root, es + [e], fits, k) == TreeAfter(fs, root, es, fits, k)
    decreases k
  {
    if k > 0 {
      TreeExtends(fs, root, es, e, fits, k - 1);
      assert (es + [e])[k - 1] == es[k - 1];
    }
  }
}

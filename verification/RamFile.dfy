/** A regular file of the in-memory file system, read and written page by page.  Each method is proved
    to compute the function of the same name in `RamFileModel`. */
module RamFile {
  import M = RamFileModel
  import opened RamFileModel

  class RamNode {
    const regular: bool
    var memory: nat -> byte
    var blocks: map<nat, nat>
    var size: u64

    ghost function Model(): File
      reads this
    {
      File(regular, memory, blocks, size)
    }

    constructor (regular: bool, memory: nat -> byte)
      ensures Model() == File(regular, memory, map[], 0)
    {
      this.regular, this.memory, this.blocks, this.size := regular, memory, map[], 0;
    }

    method Find(o: nat) returns (r: Option<nat>)
      ensures r == M.Lookup(Model(), o)
    {
      r := if o / PAGE in blocks then Some(blocks[o / PAGE] * PAGE + o % PAGE) else None;
    }

    /** Copy out part of one page, or zeros where there is none. */
    method ReadChunk(cur: nat, n: nat) returns (chunk: seq<byte>)
      requires cur % PAGE + n <= PAGE
      ensures |chunk| == n && forall k: nat :: k < n ==> chunk[k] == Content(Model(), cur + k)
    {
      var a := Find(cur);
      var m := memory;
      if a.Some? {
        chunk := seq(n, (k: nat) => m(a.value + k));
      } else {
        chunk := seq(n, (k: nat) => 0);
      }
      forall k: nat | k < n ensures chunk[k] == Content(Model(), cur + k) { InPage(cur, k); }
    }

    method Read(offset: u64, size: u64) returns (r: Outcome, buffer: seq<byte>)
      ensures !regular ==> r == Failed(EISDIR) && buffer == []
      ensures regular ==> buffer == ReadBytes(Model(), offset, size) && r == Done(|buffer|)
    {
      buffer := [];
      if !regular { return Failed(EISDIR), []; }
      if offset >= this.size { return Done(0), []; }
      var count: nat := size;
      if Add64(offset, size) > this.size { count := this.size - offset; }
      while |buffer| < count
        invariant |buffer| <= count
        invariant forall j: nat :: j < |buffer| ==> buffer[j] == Content(Model(), Add64(offset, j))
        decreases count - |buffer|
      {
        var cur := Add64(offset, |buffer|);
        var n := ChunkSize(count - |buffer|, cur);
        ChunkEnd(cur, count - |buffer|);
        var chunk := ReadChunk(cur, n);
        forall k: nat | k < n ensures chunk[k] == Content(Model(), Add64(offset, |buffer| + k)) {
          NoWrapInPage(offset, |buffer|, k);
        }
        ghost var before := |buffer|;
        buffer := buffer + chunk;
        forall j: nat | j < |buffer| ensures buffer[j] == Content(Model(), Add64(offset, j)) {
          if j >= before { assert buffer[j] == chunk[j - before]; }
        }
      }
      r := Done(|buffer|);
    }

    /** Copy in part of one page, adding the page when there is none. */
    method WriteChunk(cur: nat, chunk: seq<byte>, frames: seq<nat>) returns (ok: bool, rest: seq<nat>)
      modifies this`memory, this`blocks
      ensures var p := PutChunk(old(Model()), cur, chunk, frames);
        ok == p.Some? && Model() == (if ok then p.value else old(Model())) && rest == FramesLeft(old(Model()), cur, frames)
    {
      rest := frames;
      var a := Find(cur);
      if a.None? {
        if frames == [] { return false, rest; }
        memory := Zeroed(memory, frames[0]);
        blocks := blocks[cur / PAGE := frames[0]];
        a := Some(frames[0] * PAGE);
        rest := frames[1..];
      }
      memory := CopyIn(memory, a.value + cur % PAGE, chunk);
      ok := true;
    }

    /** One turn of the copy loop. */
    method Turn(data: seq<byte>, offset: u64, copied: nat, frames: seq<nat>) returns (ok: bool, done: nat, rest: seq<nat>)
      requires copied < |data|
      modifies this`memory, this`blocks
      ensures Copy(Model(), done, rest, !ok) == M.Turn(Copy(old(Model()), copied, frames, false), data, offset)
    {
      var cur := Add64(offset, copied);
      var n := ChunkSize(|data| - copied, cur);
      ok, rest := WriteChunk(cur, data[copied..copied + n], frames);
      done := if ok then copied + n else copied;
    }

    method Write(data: seq<byte>, offset: u64, frames: seq<nat>) returns (r: Outcome)
      modifies this`memory, this`blocks, this`size
      ensures (r, Model()) == M.Write(old(Model()), data, offset, frames)
    {
      if !regular { return Failed(EISDIR); }
      var copied, left := 0, frames;
      while copied < |data|
        invariant copied <= |data|
        invariant Loop(Copy(Model(), copied, left, false), data, offset) == Copied(old(Model()), data, offset, frames)
        decreases |data| - copied
      {
        var ok, done, rest := Turn(data, offset, copied, left);
        if !ok { return Failed(ENOMEM); }
        copied, left := done, rest;
      }
      if Add64(offset, |data|) > size { size := Add64(offset, |data|); }
      r := Done(copied);
    }
  }

  /** A step inside a page does not wrap around. */
  lemma NoWrapInPage(offset: u64, done: nat, k: nat)
    requires Add64(offset, done) % PAGE + k < PAGE
    ensures Add64(offset, done + k) == Add64(offset, done) + k
  {
    var cur := Add64(offset, done);
    assert cur + k < 0x1_0000_0000_0000_0000 by {
      PageSplit(cur);
      assert cur / PAGE < 0x10_0000_0000_0000;
    }
  }
}

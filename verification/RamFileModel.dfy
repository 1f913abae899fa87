/** Files of the in-memory file system: pages found through a page index, in physical memory that other
    files share.  The specification is a flat function from offsets to bytes, zero where nothing was
    written. */
module RamFileModel {

  newtype byte = x: int | 0 <= x < 256
  type u64 = x: int | 0 <= x < 0x1_0000_0000_0000_0000

  const PAGE: nat := 4096

  datatype Option<T> = None | Some(value: T)
  datatype Errno = EISDIR | ENOMEM
  datatype Outcome = Done(count: nat) | Failed(error: Errno)

  /** `blocks` maps page numbers to page frames; `memory` is all of physical memory. */
  datatype File = File(regular: bool, memory: nat -> byte, blocks: map<nat, nat>, size: u64)

  function Add64(a: nat, b: nat): (r: u64) { (a + b) % 0x1_0000_0000_0000_0000 }
  function Min(a: nat, b: nat): nat { if a < b then a else b }

  /** The physical address that holds the byte at offset `o`. */
  function Lookup(f: File, o: nat): Option<nat> {
    if o / PAGE in f.blocks then Some(f.blocks[o / PAGE] * PAGE + o % PAGE) else None
  }

  /** The flat byte function. */
  function Content(f: File, o: nat): byte {
    if o / PAGE in f.blocks then f.memory(f.blocks[o / PAGE] * PAGE + o % PAGE) else 0
  }

  // ---- Read ---------------------------------------------------------------------------------------

  /** How many bytes a read copies; the sum wraps at 64 bits. */
  function ReadCount(f: File, offset: u64, size: u64): nat {
    if offset >= f.size then 0
    else if Add64(offset, size) > f.size then f.size - offset
    else size
  }

  function ReadBytes(f: File, offset: u64, size: u64): seq<byte> {
    seq(ReadCount(f, offset, size), (j: nat) => Content(f, Add64(offset, j)))
  }

  /** At or beyond the end nothing is read.  A read inside the file returns the part of the slice that lies
      below the file size if and only if offset and length do not wrap around. */
  lemma ReadClipsIff(f: File, offset: u64, size: u64)
    ensures offset >= f.size ==> ReadBytes(f, offset, size) == []
    ensures offset < f.size ==>
      (|ReadBytes(f, offset, size)| == Min(size, f.size - offset) <==> offset + size < 0x1_0000_0000_0000_0000)
    ensures offset < f.size && offset + size < 0x1_0000_0000_0000_0000 ==>
      ReadBytes(f, offset, size) == seq(Min(size, f.size - offset), (j: nat) => Content(f, offset + j))
  {
    if offset + size >= 0x1_0000_0000_0000_0000 {
      assert Add64(offset, size) == offset + size - 0x1_0000_0000_0000_0000;
    }
  }

  // ---- Write --------------------------------------------------------------------------------------

  function CopyIn(memory: nat -> byte, dst: nat, data: seq<byte>): nat -> byte {
    (p: nat) => if dst <= p < dst + |data| then data[p - dst] else memory(p)
  }

  function Zeroed(memory: nat -> byte, frame: nat): nat -> byte {
    (p: nat) => if p / PAGE == frame then 0 else memory(p)
  }

  /** A new page, zeroed and entered in the index. */
  function Inserted(f: File, page: nat, frame: nat): File {
    f.(memory := Zeroed(f.memory, frame), blocks := f.blocks[page := frame])
  }

  function ChunkSize(left: nat, cur: nat): nat { Min(left, PAGE - cur % PAGE) }

  /** One page's worth.  The destination adds the offset within the page to what `Lookup` returned,
      which for a page already present has that offset in it. */
  function PutChunk(f: File, cur: nat, chunk: seq<byte>, frames: seq<nat>): Option<File> {
    match Lookup(f, cur)
    case Some(a) => Some(f.(memory := CopyIn(f.memory, a + cur % PAGE, chunk)))
    case None =>
      if frames == [] then None
      else
        var g := Inserted(f, cur / PAGE, frames[0]);
        Some(g.(memory := CopyIn(g.memory, frames[0] * PAGE + cur % PAGE, chunk)))
  }

  function FramesLeft(f: File, cur: nat, frames: seq<nat>): seq<nat> {
    if Lookup(f, cur).None? && frames != [] then frames[1..] else frames
  }

  /** The copy loop's variables; `frames` are what the page allocator will hand out before it fails. */
  datatype Copy = Copy(file: File, copied: nat, frames: seq<nat>, failed: bool)

  /** One turn of the copy loop. */
  function Turn(c: Copy, data: seq<byte>, offset: u64): (d: Copy)
    requires c.copied < |data| && !c.failed
    ensures d.copied <= |data| && (d.failed || c.copied < d.copied)
  {
    var cur := Add64(offset, c.copied);
    var n := ChunkSize(|data| - c.copied, cur);
    match PutChunk(c.file, cur, data[c.copied..c.copied + n], c.frames)
    case None => c.(failed := true)
    case Some(g) => Copy(g, c.copied + n, FramesLeft(c.file, cur, c.frames), false)
  }

  function Loop(c: Copy, data: seq<byte>, offset: u64): (d: Copy)
    requires c.copied <= |data|
    ensures d.copied <= |data| && (!d.failed ==> d.copied == |data|)
    decreases |data| - c.copied, !c.failed
  {
    if c.failed || c.copied == |data| then c else Loop(Turn(c, data, offset), data, offset)
  }

  function Write(f: File, data: seq<byte>, offset: u64, frames: seq<nat>): (Outcome, File) {
    if !f.regular then (Failed(EISDIR), f)
    else
      var c := Loop(Copy(f, 0, frames, false), data, offset);
      if c.failed then (Failed(ENOMEM), c.file)
      else (Done(c.copied), c.file.(size := if Add64(offset, |data|) > c.file.size then Add64(offset, |data|) else c.file.size))
  }

  // ---- Separation -----------------------------------------------------------------------------------

  /** No two pages share a frame, and the allocator hands out frames that are not in use, each once. */
  ghost predicate Separate(f: File, frames: seq<nat>) {
    && (forall p, q :: p in f.blocks && q in f.blocks && f.blocks[p] == f.blocks[q] ==> p == q)
    && (forall i, p :: 0 <= i < |frames| && p in f.blocks ==> f.blocks[p] != frames[i])
    && (forall i, j :: 0 <= i < j < |frames| ==> frames[i] != frames[j])
  }

  /** The flat byte function with `data` in place at `at`. */
  function Splice(f: File, at: nat, data: seq<byte>, o: nat): byte {
    if at <= o < at + |data| then data[o - at] else Content(f, o)
  }

  /** The file grew by pages of the given frames only, and memory outside the file's frames and those is
      as it was. */
  ghost predicate Confined(f: File, g: File, frames: seq<nat>) {
    && g.regular == f.regular && g.size == f.size
    && (forall p :: p in f.blocks ==> p in g.blocks && g.blocks[p] == f.blocks[p])
    && (forall p :: p in g.blocks && p !in f.blocks ==> g.blocks[p] in frames)
    && (forall m: nat :: m / PAGE !in f.blocks.Values && m / PAGE !in frames ==> g.memory(m) == f.memory(m))
  }

  /** What `f` can become when exactly `data` is written at `at`. */
  ghost function Written(f: File, frames: seq<nat>, at: nat, data: seq<byte>): iset<File> {
    iset g | Confined(f, g, frames) && forall o: nat :: Content(g, o) == Splice(f, at, data, o)
  }

  /** Where a write starts well: at the beginning of a page, or in a page not yet there. */
  predicate StartsWell(f: File, cur: nat) { cur % PAGE == 0 || cur / PAGE !in f.blocks }

  lemma FrameOf(frame: nat, off: nat)
    requires off < PAGE
    ensures (frame * PAGE + off) / PAGE == frame && (frame * PAGE + off) % PAGE == off
  {}

  lemma PageSplit(m: nat)
    ensures m == m / PAGE * PAGE + m % PAGE && m % PAGE < PAGE
  {}

  /** Offsets in one page. */
  lemma SamePage(cur: nat, o: nat)
    requires cur / PAGE == o / PAGE
    ensures o % PAGE - cur % PAGE == o - cur
  {}

  lemma InPage(cur: nat, k: nat)
    requires cur % PAGE + k < PAGE
    ensures (cur + k) / PAGE == cur / PAGE && (cur + k) % PAGE == cur % PAGE + k
  {}

  /** Bytes of one page change exactly where a copy into its frame lands. */
  lemma CopyAt(f: File, page: nat, at: nat, chunk: seq<byte>, o: nat)
    requires page in f.blocks && at + |chunk| <= PAGE
    requires forall p :: p in f.blocks && f.blocks[p] == f.blocks[page] ==> p == page
    ensures var g := f.(memory := CopyIn(f.memory, f.blocks[page] * PAGE + at, chunk));
      Content(g, o) == if o / PAGE == page && at <= o % PAGE < at + |chunk| then chunk[o % PAGE - at] else Content(f, o)
  {
    if o / PAGE in f.blocks {
      var frame := f.blocks[o / PAGE];
      PageSplit(o);
      if frame != f.blocks[page] { Apart(frame, o % PAGE, f.blocks[page], at, |chunk|); }
    }
  }

  /** Addresses in different frames differ. */
  lemma Apart(a: nat, i: nat, b: nat, at: nat, n: nat)
    requires a != b && i < PAGE && at + n <= PAGE
    ensures !(b * PAGE + at <= a * PAGE + i < b * PAGE + at + n)
  {}

  lemma InsertedContent(f: File, page: nat, frame: nat, o: nat)
    requires page !in f.blocks && frame !in f.blocks.Values
    ensures Content(Inserted(f, page, frame), o) == Content(f, o)
  {
    if o / PAGE in f.blocks { FrameOf(f.blocks[o / PAGE], o % PAGE); } else { FrameOf(frame, o % PAGE); }
  }

  /** A copy inside a frame changes no memory outside it. */
  lemma CopyStays(memory: nat -> byte, frame: nat, at: nat, chunk: seq<byte>, m: nat)
    requires at + |chunk| <= PAGE && m / PAGE != frame
    ensures CopyIn(memory, frame * PAGE + at, chunk)(m) == memory(m)
  {
    PageSplit(m);
    Apart(m / PAGE, m % PAGE, frame, at, |chunk|);
  }

  /** A chunk that lands in the frame of its own page, at its own place. */
  lemma Landed(f: File, page: nat, cur: nat, chunk: seq<byte>, o: nat)
    requires page == cur / PAGE && page in f.blocks && |chunk| <= PAGE - cur % PAGE
    requires forall p :: p in f.blocks && f.blocks[p] == f.blocks[page] ==> p == page
    ensures Content(f.(memory := CopyIn(f.memory, f.blocks[page] * PAGE + cur % PAGE, chunk)), o) == Splice(f, cur, chunk, o)
  {
    CopyAt(f, page, cur % PAGE, chunk, o);
    PageSplit(cur);
    PageSplit(o);
    if cur <= o < cur + |chunk| { InPage(cur, o - cur); }
    if o / PAGE == page { SamePage(cur, o); }
  }

  lemma PresentChunk(f: File, cur: nat, chunk: seq<byte>, frames: seq<nat>)
    requires Separate(f, frames) && cur / PAGE in f.blocks && cur % PAGE == 0 && |chunk| <= PAGE
    ensures PutChunk(f, cur, chunk, frames).Some? && FramesLeft(f, cur, frames) == frames
    ensures var g := PutChunk(f, cur, chunk, frames).value;
      Separate(g, frames) && g in Written(f, frames, cur, chunk)
  {
    var g := PutChunk(f, cur, chunk, frames).value;
    var frame := f.blocks[cur / PAGE];
    forall o: nat ensures Content(g, o) == Splice(f, cur, chunk, o) { Landed(f, cur / PAGE, cur, chunk, o); }
    forall m: nat | m / PAGE !in f.blocks.Values ensures g.memory(m) == f.memory(m) {
      assert frame in f.blocks.Values;
      CopyStays(f.memory, frame, 0, chunk, m);
    }
  }

  lemma AbsentChunk(f: File, cur: nat, chunk: seq<byte>, frames: seq<nat>)
    requires Separate(f, frames) && cur / PAGE !in f.blocks && |chunk| <= PAGE - cur % PAGE && frames != []
    ensures PutChunk(f, cur, chunk, frames).Some? && FramesLeft(f, cur, frames) == frames[1..]
    ensures var g := PutChunk(f, cur, chunk, frames).value;
      Separate(g, frames[1..]) && g in Written(f, frames, cur, chunk)
  {
    var i := Inserted(f, cur / PAGE, frames[0]);
    var g := PutChunk(f, cur, chunk, frames).value;
    assert frames[0] in frames && forall k :: k in frames[1..] ==> k in frames;
    forall o: nat ensures Content(g, o) == Splice(f, cur, chunk, o) {
      InsertedContent(f, cur / PAGE, frames[0], o);
      Landed(i, cur / PAGE, cur, chunk, o);
      assert Content(g, o) == Splice(i, cur, chunk, o);
    }
    forall m: nat | m / PAGE !in f.blocks.Values && m / PAGE !in frames ensures g.memory(m) == f.memory(m) {
      CopyStays(i.memory, frames[0], cur % PAGE, chunk, m);
    }
  }

  // ---- A write that starts well is a splice -----------------------------------------------------------

  lemma ConfinedTrans(f: File, g: File, h: File, frames: seq<nat>, rest: seq<nat>)
    requires Confined(f, g, frames) && Confined(g, h, rest) && forall k :: k in rest ==> k in frames
    ensures Confined(f, h, frames)
  {
    forall m: nat | m / PAGE !in f.blocks.Values && m / PAGE !in frames ensures h.memory(m) == f.memory(m) {
      assert g.memory(m) == f.memory(m);
      assert m / PAGE !in g.blocks.Values;
    }
  }

  lemma SpliceTrans(f: File, g: File, h: File, at: nat, a: seq<byte>, b: seq<byte>, o: nat)
    requires Content(g, o) == Splice(f, at, a, o) && Content(h, o) == Splice(g, at + |a|, b, o)
    ensures Content(h, o) == Splice(f, at, a + b, o)
  {}

  lemma WrittenTrans(f: File, g: File, h: File, frames: seq<nat>, rest: seq<nat>, at: nat, a: seq<byte>, b: seq<byte>)
    requires g in Written(f, frames, at, a) && h in Written(g, rest, at + |a|, b) && forall k :: k in rest ==> k in frames
    ensures h in Written(f, frames, at, a + b)
  {
    ConfinedTrans(f, g, h, frames, rest);
    forall o: nat ensures Content(h, o) == Splice(f, at, a + b, o) { SpliceTrans(f, g, h, at, a, b, o); }
  }

  /** Chunks end at the end of the data or of a page. */
  lemma ChunkEnd(cur: nat, left: nat)
    requires left > 0
    ensures 0 < ChunkSize(left, cur) <= left && ChunkSize(left, cur) <= PAGE - cur % PAGE
    ensures ChunkSize(left, cur) == left || (cur + ChunkSize(left, cur)) % PAGE == 0
  {}

  /** What one turn does when it starts well: its chunk is written, and the next turn starts well. */
  lemma ChunkWrites(f: File, cur: nat, chunk: seq<byte>, frames: seq<nat>, p: Option<File>, rest: seq<nat>)
    requires Separate(f, frames) && StartsWell(f, cur) && |chunk| <= PAGE - cur % PAGE
    requires p == PutChunk(f, cur, chunk, frames) && rest == FramesLeft(f, cur, frames)
    ensures p.Some? ==> Separate(p.value, rest) && p.value in Written(f, frames, cur, chunk) && forall k :: k in rest ==> k in frames
  {
    if cur / PAGE in f.blocks {
      PresentChunk(f, cur, chunk, frames);
    } else if frames != [] {
      AbsentChunk(f, cur, chunk, frames);
    }
  }

  /** What holds before each turn: so far exactly the copied part of the data has been written. */
  ghost predicate CopyOk(c: Copy, f: File, frames: seq<nat>, data: seq<byte>, offset: nat) {
    && c.copied <= |data|
    && c.file in Written(f, frames, offset, data[..c.copied])
    && Separate(c.file, c.frames) && (forall k :: k in c.frames ==> k in frames)
    && (c.copied == |data| || StartsWell(c.file, offset + c.copied))
  }

  lemma Advance(c: Copy, g: File, rest: seq<nat>, n: nat, f: File, frames: seq<nat>, data: seq<byte>, offset: nat)
    requires CopyOk(c, f, frames, data, offset) && c.copied + n <= |data|
    requires Separate(g, rest) && (forall k :: k in rest ==> k in c.frames)
    requires g in Written(c.file, c.frames, offset + c.copied, data[c.copied..c.copied + n])
    requires c.copied + n == |data| || (offset + c.copied + n) % PAGE == 0
    ensures CopyOk(Copy(g, c.copied + n, rest, false), f, frames, data, offset)
  {
    assert data[..c.copied + n] == data[..c.copied] + data[c.copied..c.copied + n];
    WrittenTrans(f, c.file, g, frames, c.frames, offset, data[..c.copied], data[c.copied..c.copied + n]);
  }

  /** A turn that starts well and does not fail writes its part of the data, up to the end of the data
      or of the page. */
  lemma TurnWrites(c: Copy, data: seq<byte>, offset: u64)
    requires c.copied < |data| && !c.failed && offset + |data| < 0x1_0000_0000_0000_0000
    requires Separate(c.file, c.frames) && StartsWell(c.file, offset + c.copied)
    ensures var d := Turn(c, data, offset);
      if d.failed then
        d == c.(failed := true)
      else
        && Separate(d.file, d.frames) && (forall k :: k in d.frames ==> k in c.frames)
        && d.file in Written(c.file, c.frames, offset + c.copied, data[c.copied..d.copied])
        && (d.copied == |data| || (offset + d.copied) % PAGE == 0)
  {
    var cur := offset + c.copied;
    assert Add64(offset, c.copied) == cur;
    var n := ChunkSize(|data| - c.copied, cur);
    ChunkEnd(cur, |data| - c.copied);
    var chunk := data[c.copied..c.copied + n];
    var p := PutChunk(c.file, cur, chunk, c.frames);
    var rest := FramesLeft(c.file, cur, c.frames);
    TurnIs(c, data, offset, cur, n, p, rest);
    ChunkWrites(c.file, cur, chunk, c.frames, p, rest);
  }

  lemma TurnIs(c: Copy, data: seq<byte>, offset: u64, cur: nat, n: nat, p: Option<File>, rest: seq<nat>)
    requires c.copied < |data| && !c.failed && cur == Add64(offset, c.copied) && n == ChunkSize(|data| - c.copied, cur)
    requires p == PutChunk(c.file, cur, data[c.copied..c.copied + n], c.frames) && rest == FramesLeft(c.file, cur, c.frames)
    ensures Turn(c, data, offset) == if p.None? then c.(failed := true) else Copy(p.value, c.copied + n, rest, false)
  {}

  lemma TurnKeeps(c: Copy, f: File, frames: seq<nat>, data: seq<byte>, offset: u64)
    requires CopyOk(c, f, frames, data, offset) && offset + |data| < 0x1_0000_0000_0000_0000
    requires c.copied < |data| && !c.failed
    ensures CopyOk(Turn(c, data, offset), f, frames, data, offset)
  {
    TurnWrites(c, data, offset);
    var d := Turn(c, data, offset);
    if !d.failed { Advance(c, d.file, d.frames, d.copied - c.copied, f, frames, data, offset); }
  }

  lemma {:induction false} LoopKeeps(c: Copy, f: File, frames: seq<nat>, data: seq<byte>, offset: u64)
    requires CopyOk(c, f, frames, data, offset) && offset + |data| < 0x1_0000_0000_0000_0000
    ensures CopyOk(Loop(c, data, offset), f, frames, data, offset)
    decreases |data| - c.copied, !c.failed
  {
    if !c.failed && c.copied < |data| {
      TurnKeeps(c, f, frames, data, offset);
      LoopKeeps(Turn(c, data, offset), f, frames, data, offset);
    }
  }

  /** The copy loop of a write. */
  function Copied(f: File, data: seq<byte>, offset: u64, frames: seq<nat>): Copy {
    Loop(Copy(f, 0, frames, false), data, offset)
  }

  /** A write that starts at the beginning of a page, or in a page not yet there, is exactly a splice of
      the flat file and makes the size the larger of the old size and the end of the data.  When memory
      runs out it has written a prefix, and the size stays; `CopyReach` says how long the prefix is. */
  lemma WriteSplices(f: File, data: seq<byte>, offset: u64, frames: seq<nat>)
    requires f.regular && Separate(f, frames) && offset + |data| < 0x1_0000_0000_0000_0000
    requires |data| == 0 || StartsWell(f, offset)
    ensures var (r, g) := Write(f, data, offset, frames);
      var n := Copied(f, data, offset, frames).copied;
      && r == (if n == |data| then Done(n) else Failed(ENOMEM))
      && (forall o: nat :: Content(g, o) == Splice(f, offset, data[..n], o))
      && (forall m: nat :: m / PAGE !in f.blocks.Values && m / PAGE !in frames ==> g.memory(m) == f.memory(m))
      && g.size == if n == |data| && offset + |data| > f.size then offset + |data| else f.size
  {
    CopySplices(f, data, offset, frames);
    var c := Copied(f, data, offset, frames);
    var g := Write(f, data, offset, frames).1;
    forall o: nat ensures Content(g, o) == Splice(f, offset, data[..c.copied], o) { assert Content(g, o) == Content(c.file, o); }
  }

  lemma CopySplices(f: File, data: seq<byte>, offset: u64, frames: seq<nat>)
    requires Separate(f, frames) && offset + |data| < 0x1_0000_0000_0000_0000 && (|data| == 0 || StartsWell(f, offset))
    ensures var c := Copied(f, data, offset, frames);
      && (c.failed <==> c.copied < |data|)
      && Confined(f, c.file, frames) && forall o: nat :: Content(c.file, o) == Splice(f, offset, data[..c.copied], o)
  {
    CopyStarts(f, data, offset, frames);
    LoopKeeps(Copy(f, 0, frames, false), f, frames, data, offset);
    LoopEnds(Copy(f, 0, frames, false), data, offset);
  }

  lemma CopyStarts(f: File, data: seq<byte>, offset: u64, frames: seq<nat>)
    requires Separate(f, frames) && (|data| == 0 || StartsWell(f, offset))
    ensures CopyOk(Copy(f, 0, frames, false), f, frames, data, offset)
  {
    assert forall o: nat :: Content(f, o) == Splice(f, offset, data[..0], o);
    assert f in Written(f, frames, offset, data[..0]);
  }

  /** The loop never goes back, and when it fails it has not copied everything. */
  lemma {:induction false} LoopEnds(c: Copy, data: seq<byte>, offset: u64)
    requires c.copied <= |data| && (c.failed ==> c.copied < |data|)
    ensures c.copied <= Loop(c, data, offset).copied && (Loop(c, data, offset).failed ==> Loop(c, data, offset).copied < |data|)
    decreases |data| - c.copied, !c.failed
  {
    if !c.failed && c.copied < |data| { LoopEnds(Turn(c, data, offset), data, offset); }
  }

  // ---- A write that starts badly is not ----------------------------------------------------------------

  /** The first chunk of a write in the middle of a page already there lands beyond its place. */
  lemma FirstTurnMisses(f: File, data: seq<byte>, offset: u64, frames: seq<nat>)
    requires |data| > 0 && offset + |data| < 0x1_0000_0000_0000_0000 && Separate(f, frames) && !StartsWell(f, offset)
    ensures var d := Turn(Copy(f, 0, frames, false), data, offset);
      && !d.failed && d.copied > 0 && Separate(d.file, d.frames) && Content(d.file, offset) == Content(f, offset)
      && (d.copied == |data| || (offset + d.copied) % PAGE == 0)
  {
    assert Add64(offset, 0) == offset;
    ChunkEnd(offset, |data|);
  }

  lemma {:induction false} LaterTurnsMiss(c: Copy, data: seq<byte>, offset: u64)
    requires 0 < c.copied <= |data| && offset + |data| < 0x1_0000_0000_0000_0000 && Separate(c.file, c.frames)
    requires c.copied == |data| || (offset + c.copied) % PAGE == 0
    ensures Content(Loop(c, data, offset).file, offset) == Content(c.file, offset)
    decreases |data| - c.copied, !c.failed
  {
    if !c.failed && c.copied < |data| {
      TurnWrites(c, data, offset);
      LaterTurnsMiss(Turn(c, data, offset), data, offset);
    }
  }

  /** The byte at the starting offset of such a write keeps its old value. */
  lemma WriteMisses(f: File, data: seq<byte>, offset: u64, frames: seq<nat>)
    requires |data| > 0 && offset + |data| < 0x1_0000_0000_0000_0000 && Separate(f, frames) && !StartsWell(f, offset)
    ensures var c := Copied(f, data, offset, frames); c.copied > 0 && Content(c.file, offset) == Content(f, offset)
  {
    FirstTurnMisses(f, data, offset, frames);
    var d := Turn(Copy(f, 0, frames, false), data, offset);
    LaterTurnsMiss(d, data, offset);
    LoopEnds(d, data, offset);
  }

  ghost predicate IsSplice(f: File, data: seq<byte>, offset: u64, frames: seq<nat>) {
    var g := Write(f, data, offset, frames).1;
    forall o: nat :: Content(g, o) == Splice(f, offset, data[..Copied(f, data, offset, frames).copied], o)
  }

  /** Writes of `n` bytes at `offset` are splices, whatever the bytes, if and only if there is nothing to
      write, or the write starts at the beginning of a page or in a page not yet there. */
  lemma SpliceIff(f: File, n: nat, offset: u64, frames: seq<nat>)
    requires f.regular && Separate(f, frames) && offset + n < 0x1_0000_0000_0000_0000
    ensures (forall data: seq<byte> :: |data| == n ==> IsSplice(f, data, offset, frames)) <==> n == 0 || StartsWell(f, offset)
  {
    if n == 0 || StartsWell(f, offset) {
      forall data: seq<byte> | |data| == n ensures IsSplice(f, data, offset, frames) { WriteSplices(f, data, offset, frames); }
    } else {
      var other: byte := if Content(f, offset) == 0 then 1 else 0;
      var data := seq(n, (i: nat) => other);
      WriteMisses(f, data, offset, frames);
      var c := Copied(f, data, offset, frames);
      assert Content(Write(f, data, offset, frames).1, offset) == Content(c.file, offset);
      assert Splice(f, offset, data[..c.copied], offset) == data[..c.copied][0] == other;
      assert !IsSplice(f, data, offset, frames);
    }
  }

  /** The inverse of a well-started write is a read of the same place. */
  lemma ReadBack(f: File, data: seq<byte>, offset: u64, frames: seq<nat>)
    requires f.regular && Separate(f, frames) && offset + |data| < 0x1_0000_0000_0000_0000
    requires |data| == 0 || StartsWell(f, offset)
    requires Write(f, data, offset, frames).0.Done?
    ensures ReadBytes(Write(f, data, offset, frames).1, offset, |data|) == data
  {
    WriteSplices(f, data, offset, frames);
    var g := Write(f, data, offset, frames).1;
    if |data| > 0 {
      ReadClipsIff(g, offset, |data|);
      assert data[..|data|] == data;
      forall j | 0 <= j < |data| ensures ReadBytes(g, offset, |data|)[j] == data[j] {
        assert Content(g, offset + j) == Splice(f, offset, data, offset + j);
      }
    }
  }

  // ---- How far a write gets ---------------------------------------------------------------------------

  /** How many pages from `lo` up to `hi` the file does not have. */
  function Absent(f: File, lo: nat, hi: nat): nat
    decreases hi
  {
    if lo >= hi then 0 else Absent(f, lo, hi - 1) + (if hi - 1 in f.blocks then 0 else 1)
  }

  lemma {:induction false} AbsentMono(f: File, lo: nat, mid: nat, hi: nat)
    requires lo <= mid <= hi
    ensures Absent(f, lo, mid) <= Absent(f, lo, hi)
    decreases hi
  {
    if mid < hi { AbsentMono(f, lo, mid, hi - 1); }
  }

  /** The page after the last one that the first `n` bytes from `offset` on touch. */
  function PageAfter(offset: nat, n: nat): nat {
    if n == 0 then offset / PAGE else (offset + n - 1) / PAGE + 1
  }

  /** Each turn takes one frame for a page that is not there and none otherwise. */
  lemma TurnFrames(c: Copy, data: seq<byte>, offset: u64)
    requires c.copied < |data| && !c.failed && offset + |data| < 0x1_0000_0000_0000_0000
    ensures var d := Turn(c, data, offset);
      var page := (offset + c.copied) / PAGE;
      if page in c.file.blocks then
        !d.failed && d.frames == c.frames && d.file.blocks == c.file.blocks && Stepped(c, d, data, offset)
      else if c.frames == [] then
        d == c.(failed := true)
      else
        && !d.failed && d.frames == c.frames[1..] && Stepped(c, d, data, offset)
        && d.file.blocks == c.file.blocks[page := c.frames[0]]
  {
    var cur := offset + c.copied;
    assert Add64(offset, c.copied) == cur;
    var n := ChunkSize(|data| - c.copied, cur);
    ChunkEnd(cur, |data| - c.copied);
    ChunkPage(offset, c.copied, n);
    TurnIs(c, data, offset, cur, n, PutChunk(c.file, cur, data[c.copied..c.copied + n], c.frames), FramesLeft(c.file, cur, c.frames));
  }

  /** A turn ends with the data or with its page. */
  ghost predicate Stepped(c: Copy, d: Copy, data: seq<byte>, offset: nat) {
    && c.copied < d.copied <= |data| && (d.copied == |data| || (offset + d.copied) % PAGE == 0)
    && PageAfter(offset, d.copied) == (offset + c.copied) / PAGE + 1
  }

  lemma ChunkPage(offset: nat, copied: nat, n: nat)
    requires 0 < n <= PAGE - (offset + copied) % PAGE
    ensures PageAfter(offset, copied + n) == (offset + copied) / PAGE + 1
  {
    InPage(offset + copied, n - 1);
  }

  /** Before each turn the frames used are the absent pages passed, and later pages are as they were. */
  ghost predicate Paged(c: Copy, f: File, frames: seq<nat>, data: seq<byte>, offset: nat) {
    var page := PageAfter(offset, c.copied);
    && c.copied <= |data| && (c.copied == 0 || c.copied == |data| || (offset + c.copied) % PAGE == 0)
    && |c.frames| + Absent(f, offset / PAGE, page) == |frames| && offset / PAGE <= page
    && (forall q: nat :: q >= page ==> (q in c.file.blocks <==> q in f.blocks))
    && (c.failed ==> c.copied < |data| && (offset + c.copied) / PAGE !in f.blocks && c.frames == [])
  }

  /** Between turns the next byte is the first of the next page. */
  lemma NextPage(offset: nat, copied: nat)
    requires copied == 0 || (offset + copied) % PAGE == 0
    ensures PageAfter(offset, copied) == (offset + copied) / PAGE
  {}

  lemma TurnPaged(c: Copy, f: File, frames: seq<nat>, data: seq<byte>, offset: u64)
    requires Paged(c, f, frames, data, offset) && offset + |data| < 0x1_0000_0000_0000_0000
    requires c.copied < |data| && !c.failed
    ensures Paged(Turn(c, data, offset), f, frames, data, offset)
  {
    TurnFrames(c, data, offset);
    NextPage(offset, c.copied);
    var page := (offset + c.copied) / PAGE;
    assert Absent(f, offset / PAGE, page + 1) == Absent(f, offset / PAGE, page) + if page in f.blocks then 0 else 1;
  }

  lemma {:induction false} LoopPaged(c: Copy, f: File, frames: seq<nat>, data: seq<byte>, offset: u64)
    requires Paged(c, f, frames, data, offset) && offset + |data| < 0x1_0000_0000_0000_0000
    ensures Paged(Loop(c, data, offset), f, frames, data, offset)
    decreases |data| - c.copied, !c.failed
  {
    if !c.failed && c.copied < |data| {
      TurnPaged(c, f, frames, data, offset);
      LoopPaged(Turn(c, data, offset), f, frames, data, offset);
    }
  }

  /** How far the copy loop gets: to the end if and only if the allocator has a frame for every page touched
      that is not there, otherwise to the start of the first page for which there is none. */
  lemma CopyReach(f: File, data: seq<byte>, offset: u64, frames: seq<nat>)
    requires offset + |data| < 0x1_0000_0000_0000_0000
    ensures var c := Copied(f, data, offset, frames);
      && (!c.failed <==> Absent(f, offset / PAGE, PageAfter(offset, |data|)) <= |frames|)
      && (c.failed ==>
        && c.copied < |data| && (c.copied == 0 || (offset + c.copied) % PAGE == 0)
        && (offset + c.copied) / PAGE !in f.blocks && Absent(f, offset / PAGE, (offset + c.copied) / PAGE) == |frames|)
  {
    var c0 := Copy(f, 0, frames, false);
    assert Paged(c0, f, frames, data, offset);
    LoopPaged(c0, f, frames, data, offset);
    var c := Loop(c0, data, offset);
    if c.failed { FailedPage(c, f, frames, data, offset); }
  }

  lemma FailedPage(c: Copy, f: File, frames: seq<nat>, data: seq<byte>, offset: nat)
    requires Paged(c, f, frames, data, offset) && c.failed
    ensures Absent(f, offset / PAGE, (offset + c.copied) / PAGE) == |frames| < Absent(f, offset / PAGE, PageAfter(offset, |data|))
  {
    NextPage(offset, c.copied);
    var page := (offset + c.copied) / PAGE;
    assert Absent(f, offset / PAGE, page + 1) == Absent(f, offset / PAGE, page) + 1;
    LaterPage(offset, c.copied, |data|);
    AbsentMono(f, offset / PAGE, page + 1, PageAfter(offset, |data|));
  }

  /** So a write succeeds if and only if there are frames for the absent pages it touches. */
  lemma WriteSucceedsIff(f: File, data: seq<byte>, offset: u64, frames: seq<nat>)
    requires f.regular && offset + |data| < 0x1_0000_0000_0000_0000
    ensures var r := Write(f, data, offset, frames).0;
      && (r == Done(|data|) <==> Absent(f, offset / PAGE, PageAfter(offset, |data|)) <= |frames|)
      && (r == Done(|data|) || r == Failed(ENOMEM))
  {
    CopyReach(f, data, offset, frames);
  }

  /** What is not a regular file is not written. */
  lemma WriteRefused(f: File, data: seq<byte>, offset: u64, frames: seq<nat>)
    ensures !f.regular <==> Write(f, data, offset, frames).0 == Failed(EISDIR)
    ensures !f.regular ==> Write(f, data, offset, frames).1 == f
  {}

  lemma LaterPage(offset: nat, n: nat, m: nat)
    requires n < m
    ensures (offset + n) / PAGE + 1 <= PageAfter(offset, m)
  {}
}

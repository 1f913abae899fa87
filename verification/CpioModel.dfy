/** The boot archive in the "New ASCII" cpio format: what the loader decodes, what an archive of given
    entries looks like, and the directory tree that results. */
module CpioModel {
  import opened TreeModel

  const MAGIC: seq<byte> := [48, 55, 48, 55, 48, 49]
  const TRAILER: seq<byte> := [84, 82, 65, 73, 76, 69, 82, 33, 33, 33]
  const HEADER: nat := 110

  datatype Entry = Entry(name: seq<byte>, mode: nat, data: seq<byte>)

  /** How decoding ends; `OverRead` stands for a read beyond the end of the archive. */
  datatype End = EndOfBuffer | BadMagic | Trailer | OverRead
  datatype Decoded = Decoded(entries: seq<Entry>, end: End)

  // ---- Hexadecimal fields -------------------------------------------------------------------------

  /** Any other character counts as zero. */
  function Digit(c: byte): (d: nat)
    ensures d < 16
  {
    if 48 <= c <= 57 then (c - 48) as nat
    else if 97 <= c <= 102 then (c - 87) as nat
    else if 65 <= c <= 70 then (c - 55) as nat
    else 0
  }

  /** The number in the `len` digits from `at` on. */
  function ParseHex(s: seq<byte>, at: nat, len: nat): nat
    requires at + len <= |s|
  {
    if len == 0 then 0 else ParseHex(s, at, len - 1) * 16 + Digit(s[at + len - 1])
  }

  function HexChar(d: nat, upper: bool): (c: byte)
    requires d < 16
    ensures Digit(c) == d
  {
    if d < 10 then (48 + d) as byte else if upper then (55 + d) as byte else (87 + d) as byte
  }

  /** `width` digits, each in the case that `upper` picks for its place. */
  function PrintHex(n: nat, width: nat, upper: nat -> bool): (s: seq<byte>)
    ensures |s| == width
  {
    if width == 0 then [] else PrintHex(n / 16, width - 1, upper) + [HexChar(n % 16, upper(width))]
  }

  function Pow16(k: nat): nat { if k == 0 then 1 else 16 * Pow16(k - 1) }

  /** Parsing inverts printing in either case. */
  lemma {:induction false} ParseInvertsPrint(n: nat, width: nat, upper: nat -> bool, s: seq<byte>, at: nat)
    requires n < Pow16(width) && at + width <= |s| && s[at..at + width] == PrintHex(n, width, upper)
    ensures ParseHex(s, at, width) == n
  {
    if width > 0 {
      var p := PrintHex(n / 16, width - 1, upper);
      assert s[at..at + (width - 1)] == s[at..at + width][..width - 1] == p;
      assert s[at + width - 1] == s[at..at + width][width - 1];
      ParseInvertsPrint(n / 16, width - 1, upper, s, at);
    }
  }

  lemma Eight()
    ensures Pow16(8) == 0x1_0000_0000
  {
    assert Pow16(4) == 0x1_0000;
    assert Pow16(8) == 16 * (16 * (16 * (16 * Pow16(4))));
  }

  // ---- Decoding -----------------------------------------------------------------------------------

  /** Round an address up to a multiple of four. */
  function Up4(a: nat): (r: nat)
    ensures r % 4 == 0 && a <= r < a + 4
  {
    (a + 3) / 4 * 4
  }

  lemma Sum4(a: nat, b: nat)
    requires a % 4 == 0 && b % 4 == 0
    ensures (a + b) % 4 == 0
  {}

  /** At a multiple of four, rounding the address and rounding the distance from it agree. */
  lemma Up4From(a: nat, n: nat)
    requires a % 4 == 0
    ensures Up4(a + n) == a + Up4(n)
  {}

  /** Where the parts of an entry are: `namesize` bytes of name after the header, `filesize` bytes of
      data from `data` on, and the next entry `skip` bytes after the header. */
  datatype Frame = Frame(mode: nat, namesize: nat, filesize: nat, data: nat, skip: nat)

  /** The frame of the entry at address `addr`, from the header fields and the rounding of addresses. */
  function FrameAt(rest: seq<byte>, addr: nat): Frame {
    if |rest| < HEADER then Frame(0, 0, 0, 0, 0)
    else
      var namesize, filesize := ParseHex(rest, 94, 8), ParseHex(rest, 54, 8);
      var data := Up4(addr + (HEADER + namesize)) - addr;
      Frame(ParseHex(rest, 14, 8), namesize, filesize, data, Up4(addr + (data + filesize)) - addr - HEADER)
  }

  /** What stops the loop before an entry is made, if anything. */
  function Stops(f: Frame, rest: seq<byte>): Option<End> {
    if rest == [] then Some(EndOfBuffer)
    else if |rest| < 6 then Some(OverRead)
    else if rest[..6] != MAGIC then Some(BadMagic)
    else if |rest| < HEADER + 10 then Some(OverRead)
    else if rest[HEADER..HEADER + 10] == TRAILER then Some(Trailer)
    else if f.namesize == 0 || HEADER + f.namesize - 1 > |rest| then Some(OverRead)
    else if f.filesize > 0 && f.data + f.filesize > |rest| then Some(OverRead)
    else None
  }

  function EntryAt(f: Frame, rest: seq<byte>): Entry
    requires Stops(f, rest) == None
  {
    Entry(rest[HEADER..HEADER + f.namesize - 1], f.mode, if f.filesize == 0 then [] else rest[f.data..f.data + f.filesize])
  }

  /** What one turn of the loop does: stop, or make an entry and go to the next header, `skip` bytes
      after this one's end. */
  datatype Step = Stop(end: End) | Go(entry: Entry, skip: nat)

  function StepAt(rest: seq<byte>, addr: nat): Step {
    var f := FrameAt(rest, addr);
    var s := Stops(f, rest);
    if s.Some? then Stop(s.value) else Go(EntryAt(f, rest), f.skip)
  }

  /** The loop over what is left of an archive, for any turn. */
  function DecodeWith(step: (seq<byte>, nat) -> Step, rest: seq<byte>, addr: nat): Decoded
    decreases |rest|
  {
    match step(rest, addr)
    case Stop(end) => Decoded([], end)
    case Go(e, skip) =>
      var n := HEADER + skip;
      Then(e, if n >= |rest| then Decoded([], EndOfBuffer) else DecodeWith(step, rest[n..], addr + n))
  }

  /** The archive from address `addr` to its end. */
  function Decode(rest: seq<byte>, addr: nat): Decoded { DecodeWith(StepAt, rest, addr) }

  function Then(e: Entry, rest: Decoded): Decoded { Decoded([e] + rest.entries, rest.end) }

  /** Decoding ends at the end of the archive and at the first header that does not start with the magic
      number; a header that is cut short is read beyond the archive. */
  lemma DecodeEnds(rest: seq<byte>, addr: nat)
    ensures rest == [] ==> Decode(rest, addr) == Decoded([], EndOfBuffer)
    ensures 0 < |rest| < 6 ==> Decode(rest, addr) == Decoded([], OverRead)
    ensures |rest| >= 6 && rest[..6] != [0x30, 0x37, 0x30, 0x37, 0x30, 0x31] ==> Decode(rest, addr) == Decoded([], BadMagic)
    ensures 6 <= |rest| < 120 && rest[..6] == [0x30, 0x37, 0x30, 0x37, 0x30, 0x31] ==> Decode(rest, addr) == Decoded([], OverRead)
  {}

  /** The frame of a whole header: `n` and `size` are its name and file sizes, `data` and `next` where the data
      and the next header are. */
  ghost predicate Framed(rest: seq<byte>, addr: nat, n: nat, size: nat, data: nat, next: nat) {
    && |rest| >= 120 && n == ParseHex(rest, 94, 8) && size == ParseHex(rest, 54, 8)
    && addr + data == Up4(addr + 110 + n) && addr + next == Up4(addr + data + size)
  }

  lemma FrameIs(rest: seq<byte>, addr: nat, n: nat, size: nat, data: nat, next: nat)
    requires Framed(rest, addr, n, size, data, next)
    ensures next >= 110 && FrameAt(rest, addr) == Frame(ParseHex(rest, 14, 8), n, size, data, next - 110)
  {
    assert addr + (HEADER + n) == addr + 110 + n && addr + (data + size) == addr + data + size;
  }

  /** One turn at a whole header: the trailer ends the loop, a part that would lie beyond the archive is read
      beyond it, and otherwise there is an entry. */
  lemma TurnIs(rest: seq<byte>, f: Frame)
    requires |rest| >= 120 && rest[..6] == [0x30, 0x37, 0x30, 0x37, 0x30, 0x31]
    ensures Stops(f, rest) == Some(Trailer) <==> rest[110..120] == TRAILER
    ensures rest[110..120] != TRAILER ==>
      (Stops(f, rest) == None <==> 0 < f.namesize <= |rest| - 109 && (f.filesize == 0 || f.data + f.filesize <= |rest|))
    ensures Stops(f, rest) in {None, Some(Trailer), Some(OverRead)}
    ensures Stops(f, rest) == None ==>
      EntryAt(f, rest) == Entry(rest[110..109 + f.namesize], f.mode, if f.filesize == 0 then [] else rest[f.data..f.data + f.filesize])
  {}

  // ---- Encoding -----------------------------------------------------------------------------------

  /** The fields the loader does not read, and the case of the digits it does. */
  datatype Rest = Rest(ino: seq<byte>, owner: seq<byte>, devices: seq<byte>, check: seq<byte>, upper: nat -> bool)

  predicate RestOk(r: Rest) { |r.ino| == 8 && |r.owner| == 32 && |r.devices| == 32 && |r.check| == 8 }

  predicate EntryOk(e: Entry) { |e.name| + 1 < 0x1_0000_0000 && e.mode < 0x1_0000_0000 && |e.data| < 0x1_0000_0000 }

  function Zeros(n: nat): (z: seq<byte>)
    ensures |z| == n
  {
    seq(n, _ => 0)
  }

  /** NULs up to the next multiple of four. */
  function Pad(n: nat): (z: seq<byte>)
    ensures n + |z| == Up4(n)
  {
    Zeros(Up4(n) - n)
  }

  function Header(e: Entry, r: Rest): (h: seq<byte>)
    requires RestOk(r)
    ensures |h| == HEADER
  {
    MAGIC + r.ino + PrintHex(e.mode, 8, r.upper) + r.owner + PrintHex(|e.data|, 8, r.upper) + r.devices +
    PrintHex(|e.name| + 1, 8, r.upper) + r.check
  }

  function Named(e: Entry, r: Rest): (s: seq<byte>)
    requires RestOk(r)
    ensures |s| == Up4(HEADER + (|e.name| + 1))
  {
    Header(e, r) + e.name + [0] + Pad(HEADER + (|e.name| + 1))
  }

  function EncodedSize(e: Entry): (n: nat)
    ensures n % 4 == 0
  {
    Sum4(Up4(HEADER + (|e.name| + 1)), Up4(|e.data|));
    Up4(HEADER + (|e.name| + 1)) + Up4(|e.data|)
  }

  function Encode(e: Entry, r: Rest): (s: seq<byte>)
    requires RestOk(r)
    ensures |s| == EncodedSize(e)
  {
    Named(e, r) + (e.data + Pad(|e.data|))
  }

  function EncodeAll(es: seq<Entry>, rs: seq<Rest>): (s: seq<byte>)
    requires |rs| == |es| && forall i :: 0 <= i < |rs| ==> RestOk(rs[i])
  {
    if es == [] then [] else Encode(es[0], rs[0]) + EncodeAll(es[1..], rs[1..])
  }

  /** The last entry. */
  function EndEntry(r: Rest): seq<byte>
    requires RestOk(r)
  {
    Encode(Entry(TRAILER, 0, []), r)
  }

  /** Does the name start like the trailer's? */
  predicate LikeTrailer(name: seq<byte>) { |name| >= 10 && name[..10] == TRAILER }

  lemma Spelled()
    ensures |MAGIC| == 6 && forall i :: 0 <= i < 6 ==> MAGIC[i] as int as char == "070701"[i]
    ensures |TRAILER| == 10 && forall i :: 0 <= i < 10 ==> TRAILER[i] as int as char == "TRAILER!!!"[i]
  {}

  // ---- Round trip -----------------------------------------------------------------------------------

  /** `s` starts with an entry framed by `f`, and `more` follows. */
  ghost predicate Starts(s: seq<byte>, e: Entry, f: Frame, more: seq<byte>) {
    && f.mode == e.mode && f.namesize == |e.name| + 1 && f.filesize == |e.data|
    && |s| == HEADER + f.skip + |more| && |e.name| < f.skip && f.data + |e.data| <= HEADER + f.skip
    && s[..6] == MAGIC
    && s[HEADER..HEADER + |e.name|] == e.name && s[HEADER + |e.name|] == 0
    && s[f.data..f.data + |e.data|] == e.data
    && s[HEADER + f.skip..] == more
  }

  /** The frame of an encoded entry at any multiple of four. */
  function FrameOf(e: Entry): Frame {
    var data := Up4(HEADER + (|e.name| + 1));
    Frame(e.mode, |e.name| + 1, |e.data|, data, data + Up4(|e.data|) - HEADER)
  }

  lemma EncodeStarts(e: Entry, r: Rest, more: seq<byte>)
    requires RestOk(r)
    ensures Starts(Encode(e, r) + more, e, FrameOf(e), more)
  {}

  lemma HeaderFields(e: Entry, r: Rest, s: seq<byte>)
    requires RestOk(r) && EntryOk(e) && |s| >= HEADER && s[..HEADER] == Header(e, r)
    ensures ParseHex(s, 14, 8) == e.mode && ParseHex(s, 54, 8) == |e.data| && ParseHex(s, 94, 8) == |e.name| + 1
  {
    var h := s[..HEADER];
    Eight();
    assert s[14..22] == h[14..22] == PrintHex(e.mode, 8, r.upper);
    assert s[54..62] == h[54..62] == PrintHex(|e.data|, 8, r.upper);
    assert s[94..102] == h[94..102] == PrintHex(|e.name| + 1, 8, r.upper);
    ParseInvertsPrint(e.mode, 8, r.upper, s, 14);
    ParseInvertsPrint(|e.data|, 8, r.upper, s, 54);
    ParseInvertsPrint(|e.name| + 1, 8, r.upper, s, 94);
  }

  lemma EncodeFrame(e: Entry, r: Rest, more: seq<byte>, addr: nat)
    requires RestOk(r) && EntryOk(e) && addr % 4 == 0
    ensures FrameAt(Encode(e, r) + more, addr) == FrameOf(e)
  {
    HeaderFields(e, r, Encode(e, r) + more);
    Places(addr, HEADER + (|e.name| + 1), |e.data|);
  }

  /** The ten bytes after the header spell the trailer's name exactly when the entry's name starts so: a
      shorter name is followed by a NUL, which the trailer's name does not contain. */
  lemma TrailerMatch(name: seq<byte>, s: seq<byte>)
    requires |s| >= HEADER + 10 && |s| > HEADER + |name|
    requires s[HEADER..HEADER + |name|] == name && s[HEADER + |name|] == 0
    ensures s[HEADER..HEADER + 10] == TRAILER <==> LikeTrailer(name)
  {
    var ten := s[HEADER..HEADER + 10];
    if |name| >= 10 {
      assert ten == name[..10];
    } else {
      assert ten[|name|] == 0 && TRAILER[|name|] != 0;
    }
  }

  /** Rounding on the way through an entry that starts at a multiple of four. */
  lemma Places(addr: nat, names: nat, size: nat)
    requires addr % 4 == 0
    ensures Up4(addr + names) - addr == Up4(names)
    ensures Up4(addr + (Up4(names) + size)) - addr == Up4(names) + Up4(size)
  {
    Up4From(addr, names);
    Sum4(addr, Up4(names));
    Up4From(addr + Up4(names), size);
  }

  lemma StepOne(s: seq<byte>, e: Entry, f: Frame, more: seq<byte>, addr: nat)
    requires Starts(s, e, f, more) && FrameAt(s, addr) == f && |s| >= HEADER + 10
    ensures StepAt(s, addr) == if LikeTrailer(e.name) then Stop(Trailer) else Go(e, f.skip)
  {
    TrailerMatch(e.name, s);
    if !LikeTrailer(e.name) {
      assert Stops(f, s) == None;
      assert EntryAt(f, s) == e;
    }
  }

  /** The entries before the first whose name starts like the trailer's. */
  function UntilTrailer(es: seq<Entry>): seq<Entry> {
    if es == [] || LikeTrailer(es[0].name) then [] else [es[0]] + UntilTrailer(es[1..])
  }

  lemma Assoc(a: seq<byte>, b: seq<byte>, c: seq<byte>)
    ensures (a + b) + c == a + (b + c)
  {}

  function Concat(chunks: seq<seq<byte>>): seq<byte> {
    if chunks == [] then [] else chunks[0] + Concat(chunks[1..])
  }

  /** Does `step` take `c`, at any multiple of four and with another header after it, for the entry? */
  ghost predicate IsForm(step: (seq<byte>, nat) -> Step, e: Entry, c: seq<byte>) {
    && |c| >= HEADER && |c| % 4 == 0
    && forall more: seq<byte>, addr: nat :: addr % 4 == 0 && |more| >= HEADER ==>
      step(c + more, addr) == if LikeTrailer(e.name) then Stop(Trailer) else Go(e, |c| - HEADER)
  }

  lemma {:induction false} DecodeChunks(step: (seq<byte>, nat) -> Step, es: seq<Entry>, chunks: seq<seq<byte>>, last: seq<byte>, addr: nat)
    requires |chunks| == |es| && (forall i :: 0 <= i < |es| ==> IsForm(step, es[i], chunks[i])) && addr % 4 == 0
    requires |last| >= HEADER && forall a: nat :: a % 4 == 0 ==> step(last, a) == Stop(Trailer)
    ensures DecodeWith(step, Concat(chunks) + last, addr) == Decoded(UntilTrailer(es), Trailer)
  {
    var s := Concat(chunks) + last;
    if es == [] {
      assert s == last;
    } else {
      var c, more := chunks[0], Concat(chunks[1..]) + last;
      Assoc(c, Concat(chunks[1..]), last);
      assert s == c + more && s[|c|..] == more;
      assert IsForm(step, es[0], c);
      if !LikeTrailer(es[0].name) {
        Sum4(addr, |c|);
        DecodeChunks(step, es[1..], chunks[1..], last, addr + |c|);
      }
    }
  }

  lemma {:induction false} EncodeAllIsConcat(es: seq<Entry>, rs: seq<Rest>, chunks: seq<seq<byte>>)
    requires |chunks| == |rs| == |es| && (forall i :: 0 <= i < |rs| ==> RestOk(rs[i]) && chunks[i] == Encode(es[i], rs[i]))
    ensures EncodeAll(es, rs) == Concat(chunks)
  {
    if es != [] { EncodeAllIsConcat(es[1..], rs[1..], chunks[1..]); }
  }

  /** An archive at an address that is a multiple of four decodes to its entries, in order, up to the
      first whose name starts like the trailer's; the loader stops at the trailer and reads nothing
      beyond the archive. */
  lemma DecodeInvertsEncode(es: seq<Entry>, rs: seq<Rest>, last: Rest, tail: seq<byte>, addr: nat)
    requires |rs| == |es| && (forall i :: 0 <= i < |rs| ==> RestOk(rs[i])) && RestOk(last)
    requires (forall i :: 0 <= i < |es| ==> EntryOk(es[i])) && addr % 4 == 0
    ensures Decode(EncodeAll(es, rs) + (EndEntry(last) + tail), addr) == Decoded(UntilTrailer(es), Trailer)
  {
    var chunks := seq(|es|, i requires 0 <= i < |es| => Encode(es[i], rs[i]));
    EncodeAllIsConcat(es, rs, chunks);
    forall i | 0 <= i < |es| ensures IsForm(StepAt, es[i], chunks[i]) { EncodeForm(es[i], rs[i]); }
    forall a: nat | a % 4 == 0 ensures StepAt(EndEntry(last) + tail, a) == Stop(Trailer) {
      EncodeStep(Entry(TRAILER, 0, []), last, tail, a);
    }
    DecodeChunks(StepAt, es, chunks, EndEntry(last) + tail, addr);
  }

  lemma EncodeStep(e: Entry, r: Rest, more: seq<byte>, addr: nat)
    requires RestOk(r) && EntryOk(e) && addr % 4 == 0 && EncodedSize(e) + |more| >= HEADER + 10
    ensures StepAt(Encode(e, r) + more, addr) == if LikeTrailer(e.name) then Stop(Trailer) else Go(e, |Encode(e, r)| - HEADER)
  {
    EncodeStarts(e, r, more);
    EncodeFrame(e, r, more, addr);
    StepOne(Encode(e, r) + more, e, FrameOf(e), more, addr);
  }

  lemma EncodeForm(e: Entry, r: Rest)
    requires RestOk(r) && EntryOk(e)
    ensures IsForm(StepAt, e, Encode(e, r))
  {
    forall more: seq<byte>, addr: nat | addr % 4 == 0 && |more| >= HEADER
      ensures StepAt(Encode(e, r) + more, addr) == if LikeTrailer(e.name) then Stop(Trailer) else Go(e, |Encode(e, r)| - HEADER)
    {
      EncodeStep(e, r, more, addr);
    }
  }

  /** So all entries come back if and only if no name starts like the trailer's. */
  lemma {:induction false} AllEntriesIff(es: seq<Entry>)
    ensures UntilTrailer(es) == es <==> forall i :: 0 <= i < |es| ==> !LikeTrailer(es[i].name)
    ensures |UntilTrailer(es)| <= |es|
  {
    if es != [] {
      AllEntriesIff(es[1..]);
      assert es == [es[0]] + es[1..];
    }
  }

  // ---- The tree that results ----------------------------------------------------------------------

  /** The name, byte by byte. */
  function PathOf(e: Entry): (path: string)
    ensures |path| == |e.name| && forall i :: 0 <= i < |path| ==> path[i] as int == e.name[i] as int
  {
    seq(|e.name|, i requires 0 <= i < |e.name| => e.name[i] as int as char)
  }

  /** The tree after the first `k` entries; `fits(i)` says whether there is memory for the data of entry `i`. */
  ghost function TreeAfter(fs: Fs, root: Id, es: seq<Entry>, fits: nat -> bool, k: nat): (gs: Fs)
    requires Tree(fs) && root < |fs.nodes| && k <= |es|
    ensures Tree(gs) && root < |gs.nodes|
  {
    if k == 0 then fs
    else
      var before := TreeAfter(fs, root, es, fits, k - 1);
      EntryGrows(before, root, PathOf(es[k - 1]), es[k - 1].mode, es[k - 1].data, fits(k - 1));
      CreateEntry(before, root, PathOf(es[k - 1]), es[k - 1].mode, es[k - 1].data, fits(k - 1)).1
  }

  /** The file that entry `i` makes, if it makes one. */
  ghost function MadeBy(fs: Fs, root: Id, es: seq<Entry>, fits: nat -> bool, i: nat): Option<Id>
    requires Tree(fs) && root < |fs.nodes| && i < |es|
  {
    CreateEntry(TreeAfter(fs, root, es, fits, i), root, PathOf(es[i]), es[i].mode, es[i].data, fits(i)).0
  }

  /** What growth carries along. */
  lemma Carried(a: Fs, b: Fs, root: Id, steps: seq<string>)
    requires Tree(a) && Tree(b) && Grown(a, b) && SameData(a, b) && root < |a.nodes| && Resolve(a, root, steps).Ok?
    ensures Resolve(b, root, steps) == Resolve(a, root, steps)
    ensures var id := Resolve(a, root, steps).id; b.nodes[id].kind == a.nodes[id].kind && b.nodes[id].data == a.nodes[id].data
  {
    ResolveGrows(a, b, root, steps);
    assert Kept(a.nodes[Resolve(a, root, steps).id], b.nodes[Resolve(a, root, steps).id]);
  }

  lemma SameDataTrans(a: Fs, b: Fs, c: Fs)
    requires SameData(a, b) && SameData(b, c)
    ensures SameData(a, c)
  {}

  lemma OneMore(fs: Fs, root: Id, es: seq<Entry>, fits: nat -> bool, k: nat)
    requires Tree(fs) && root < |fs.nodes| && k < |es|
    ensures var a, b := TreeAfter(fs, root, es, fits, k), TreeAfter(fs, root, es, fits, k + 1);
      Grown(a, b) && SameData(a, b) && b == CreateEntry(a, root, PathOf(es[k]), es[k].mode, es[k].data, fits(k)).1
  {
    EntryGrows(TreeAfter(fs, root, es, fits, k), root, PathOf(es[k]), es[k].mode, es[k].data, fits(k));
  }

  /** Loading only adds to the tree. */
  lemma {:induction false} PopulationGrows(fs: Fs, root: Id, es: seq<Entry>, fits: nat -> bool, i: nat, k: nat)
    requires Tree(fs) && root < |fs.nodes| && i <= k <= |es|
    ensures var a, b := TreeAfter(fs, root, es, fits, i), TreeAfter(fs, root, es, fits, k); Grown(a, b) && SameData(a, b)
    decreases k
  {
    var a, c := TreeAfter(fs, root, es, fits, i), TreeAfter(fs, root, es, fits, k);
    if i == k {
      GrownSelf(a);
    } else {
      var b := TreeAfter(fs, root, es, fits, k - 1);
      PopulationGrows(fs, root, es, fits, i, k - 1);
      OneMore(fs, root, es, fits, k - 1);
      GrownTrans(a, b, c);
      SameDataTrans(a, b, c);
    }
  }

  /** Every path that led anywhere before the archive was loaded leads to the same node. */
  lemma PopulationKeepsPaths(fs: Fs, root: Id, es: seq<Entry>, fits: nat -> bool, steps: seq<string>)
    requires Tree(fs) && root < |fs.nodes| && Resolve(fs, root, steps).Ok?
    ensures Resolve(TreeAfter(fs, root, es, fits, |es|), root, steps) == Resolve(fs, root, steps)
  {
    PopulationGrows(fs, root, es, fits, 0, |es|);
    Carried(fs, TreeAfter(fs, root, es, fits, |es|), root, steps);
  }

  /** In the finished tree, every entry of a regular file for which a file could be made is where its path
      leads, with the entry's data, unless the last part of the path is ".". */
  lemma PopulatedPaths(fs: Fs, root: Id, es: seq<Entry>, fits: nat -> bool, i: nat)
    requires Tree(fs) && root < |fs.nodes| && i < |es| && Leaf(PathOf(es[i])) != "."
    requires IsRegularMode(es[i].mode) && CanMake(TreeAfter(fs, root, es, fits, i), root, PathOf(es[i]))
    ensures var gs := TreeAfter(fs, root, es, fits, |es|);
      var made := MadeBy(fs, root, es, fits, i);
      && made.Some? && Resolve(gs, root, Components(PathOf(es[i]))) == Ok(made.value)
      && gs.nodes[made.value].kind == Regular && gs.nodes[made.value].data == if fits(i) then es[i].data else []
  {
    var e := es[i];
    var a, b, c := TreeAfter(fs, root, es, fits, i), TreeAfter(fs, root, es, fits, i + 1), TreeAfter(fs, root, es, fits, |es|);
    MakesFileIff(a, root, PathOf(e), e.mode, e.data, fits(i));
    EntryResolves(a, root, PathOf(e), e.mode, e.data, fits(i));
    OneMore(fs, root, es, fits, i);
    PopulationGrows(fs, root, es, fits, i + 1, |es|);
    Carried(b, c, root, Components(PathOf(e)));
  }
}

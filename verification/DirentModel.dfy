/** Directory listing: records written into the caller's buffer, the walk over them that finds the next
    cookie, and what repeated calls list. */
module DirentModel {

  newtype byte = x: int | 0 <= x < 256

  /** A child as the listing sees it: inode number, DT_* type and name. */
  datatype Child = Child(ino: nat, kind: byte, name: seq<byte>)

  /** The record header with its padding; the name follows it. */
  const HEADER: nat := 24

  // ---- Numbers in memory ----------------------------------------------------------------------------

  function Pow256(k: nat): (p: nat)
    ensures p > 0
  {
    if k == 0 then 1 else 256 * Pow256(k - 1)
  }

  /** Little-endian, `k` bytes; higher bytes are lost. */
  function LE(n: nat, k: nat): (s: seq<byte>)
    ensures |s| == k
  {
    if k == 0 then [] else [(n % 256) as byte] + LE(n / 256, k - 1)
  }

  /** Byte `i` counts 256 to the power of `i`. */
  lemma {:induction false} LEDigit(n: nat, k: nat, i: nat)
    requires i < k
    ensures LE(n, k)[i] as nat == n / Pow256(i) % 256
  {
    if i > 0 {
      LEDigit(n / 256, k - 1, i - 1);
      Quotients(n, Pow256(i - 1));
    }
  }

  lemma Quotients(n: nat, b: nat)
    requires b > 0
    ensures n / 256 / b == n / (256 * b)
  {
    var q := n / 256 / b;
    var r := n / 256 - q * b;
    assert n == 256 * (q * b + r) + n % 256;
    assert n == q * (256 * b) + (256 * r + n % 256);
    assert 256 * r + n % 256 < 256 * b;
    QuotientIs(n, 256 * b, q, 256 * r + n % 256);
  }

  lemma QuotientIs(n: nat, m: nat, q: nat, r: nat)
    requires m > 0 && n == q * m + r && r < m
    ensures n / m == q
  {
    var q' := n / m;
    assert n == m * q' + n % m;
    if q < q' { NextMultiple(q, q', m); }
    if q' < q { NextMultiple(q', q, m); }
  }

  lemma NextMultiple(a: nat, b: nat, m: nat)
    requires a < b
    ensures a * m + m <= b * m
  {
    assert (a + 1) * m <= b * m;
  }

  function FromLE(b: seq<byte>, at: nat, k: nat): nat
    requires at + k <= |b|
    decreases k
  {
    if k == 0 then 0 else b[at] as nat + 256 * FromLE(b, at + 1, k - 1)
  }

  lemma {:induction false} LERoundTrip(b: seq<byte>, at: nat, n: nat, k: nat)
    requires at + k <= |b| && b[at..at + k] == LE(n, k) && n < Pow256(k)
    ensures FromLE(b, at, k) == n
    decreases k
  {
    if k > 0 {
      assert b[at..at + k][0] == b[at];
      assert b[at + 1..at + k] == b[at..at + k][1..] == LE(n / 256, k - 1);
      LERoundTrip(b, at + 1, n / 256, k - 1);
    }
  }

  function Splice(b: seq<byte>, at: nat, s: seq<byte>): (r: seq<byte>)
    requires at + |s| <= |b|
    ensures |r| == |b|
  {
    b[..at] + s + b[at + |s|..]
  }

  // ---- Listing with any record format ---------------------------------------------------------------

  /** What a caller finds in a record. */
  datatype Dirent = Dirent(ino: nat, off: nat, kind: byte, name: seq<byte>)
  datatype Record = Record(dirent: Dirent, reclen: nat)

  /** A record format: the size of a child's record, writing the record of child number `i` at `at`, and
      reading the record at a position. */
  datatype Format = Format(size: Child -> nat, put: (seq<byte>, nat, Child, nat) -> seq<byte>, get: (seq<byte>, nat) -> Record)

  datatype Filled = Filled(buf: seq<byte>, written: nat, next: nat)

  /** Records from child `i` on, as many as fit. */
  function Fill(m: Format, children: seq<Child>, b: seq<byte>, i: nat, written: nat): (f: Filled)
    ensures written <= f.written && i <= f.next && (f.next <= |children| || f.next == i)
    decreases |children| - i
  {
    if i < |children| && written + m.size(children[i]) <= |b| then
      Fill(m, children, m.put(b, written, children[i], i), i + 1, written + m.size(children[i]))
    else
      Filled(b, written, i)
  }

  /** The end of the walk over records: the last cookie and where it stopped, or a record length of zero,
      on which the walk never ends. */
  datatype Walked = Ended(cookie: nat, at: nat) | Hangs

  function Walk(m: Format, b: seq<byte>, p: nat, end: nat, cookie: nat): Walked
    decreases end - p
  {
    if p >= end then Ended(cookie, p)
    else
      var r := m.get(b, p);
      if r.reclen == 0 then Hangs else Walk(m, b, p + r.reclen, end, r.dirent.off)
  }

  function Records(m: Format, b: seq<byte>, p: nat, end: nat): seq<Dirent>
    decreases end - p
  {
    if p >= end then []
    else
      var r := m.get(b, p);
      if r.reclen == 0 then [] else [r.dirent] + Records(m, b, p + r.reclen, end)
  }

  function Entry(children: seq<Child>, i: nat): Dirent
    requires i < |children|
  {
    Dirent(children[i].ino, i + 1, children[i].kind, children[i].name)
  }

  /** The listing of children `i` up to `j`. */
  function Listing(children: seq<Child>, i: nat, j: nat): seq<Dirent>
    requires i < j ==> j <= |children|
    decreases j - i
  {
    if i >= j then [] else [Entry(children, i)] + Listing(children, i + 1, j)
  }

  /** Records have a size, writing one changes nothing before it, and reading it back gives the child, in
      any buffer that agrees up to the end of the record. */
  ghost predicate Faithful(m: Format, children: seq<Child>) {
    && (forall i :: 0 <= i < |children| ==> m.size(children[i]) > 0)
    && (forall b: seq<byte>, p: nat, i: nat :: i < |children| && p + m.size(children[i]) <= |b| ==> PutOk(m, children, b, p, i))
  }

  ghost predicate PutOk(m: Format, children: seq<Child>, b: seq<byte>, p: nat, i: nat)
    requires i < |children| && p + m.size(children[i]) <= |b|
  {
    var x := m.put(b, p, children[i], i);
    var n := p + m.size(children[i]);
    && |x| == |b| && x[..p] == b[..p]
    && forall y: seq<byte> :: |y| == |b| && y[..n] == x[..n] ==> m.get(y, p) == Record(Entry(children, i), m.size(children[i]))
  }

  /** Fill writes nothing before its start. */
  lemma {:induction false} FillPrefix(m: Format, children: seq<Child>, b: seq<byte>, i: nat, written: nat)
    requires Faithful(m, children) && written <= |b|
    ensures var f := Fill(m, children, b, i, written); |f.buf| == |b| && f.buf[..written] == b[..written] && f.written <= |b|
    decreases |children| - i
  {
    if i < |children| && written + m.size(children[i]) <= |b| {
      var n := written + m.size(children[i]);
      var x := m.put(b, written, children[i], i);
      assert PutOk(m, children, b, written, i);
      FillPrefix(m, children, x, i + 1, n);
      Shorter(Fill(m, children, x, i + 1, n).buf, x, n, written);
    }
  }

  lemma Shorter(a: seq<byte>, b: seq<byte>, n: nat, m: nat)
    requires m <= n <= |a| && n <= |b| && a[..n] == b[..n]
    ensures a[..m] == b[..m]
  {
    assert a[..m] == a[..n][..m] && b[..m] == b[..n][..m];
  }

  /** The records listed are the children from the cookie on, in order; the walk over them ends exactly
      at the bytes written, with the cookie of the first child not listed. */
  lemma {:induction false} FillLists(m: Format, children: seq<Child>, b: seq<byte>, i: nat, written: nat, cookie: nat)
    requires Faithful(m, children) && written <= |b|
    ensures var f := Fill(m, children, b, i, written);
      && Records(m, f.buf, written, f.written) == Listing(children, i, f.next)
      && Walk(m, f.buf, written, f.written, cookie) == Ended(if f.next == i then cookie else f.next, f.written)
      && (f.next == i <==> f.written == written)
    decreases |children| - i
  {
    if i < |children| && written + m.size(children[i]) <= |b| {
      var n := written + m.size(children[i]);
      var x := m.put(b, written, children[i], i);
      assert PutOk(m, children, b, written, i);
      FillPrefix(m, children, x, i + 1, n);
      FillLists(m, children, x, i + 1, n, i + 1);
      var f := Fill(m, children, x, i + 1, n);
      assert m.get(f.buf, written) == Record(Entry(children, i), m.size(children[i]));
    }
  }

  /** It stops only at the end of the children or at a record that does not fit. */
  lemma {:induction false} FillStops(m: Format, children: seq<Child>, b: seq<byte>, i: nat, written: nat)
    requires Faithful(m, children) && written <= |b| && i <= |children|
    ensures var f := Fill(m, children, b, i, written);
      f.next <= |children| && (f.next < |children| ==> f.written + m.size(children[f.next]) > |b|)
    decreases |children| - i
  {
    if i < |children| && written + m.size(children[i]) <= |b| {
      assert PutOk(m, children, b, written, i);
      FillStops(m, children, m.put(b, written, children[i], i), i + 1, written + m.size(children[i]));
    }
  }

  // ---- Repeated calls -----------------------------------------------------------------------------

  /** One call: the children there are at the time, and the caller's buffer. */
  datatype Call = Call(children: seq<Child>, buf: seq<byte>)

  /** Every directory listed has records that read back. */
  ghost predicate AllFaithful(m: Format, calls: seq<Call>) {
    forall i :: 0 <= i < |calls| ==> Faithful(m, calls[i].children)
  }

  /** Children are only ever appended. */
  ghost predicate Growing(calls: seq<Call>) {
    forall i, j :: 0 <= i < j < |calls| ==> calls[i].children <= calls[j].children
  }

  function Reply(m: Format, c: Call, cookie: nat): Filled { Fill(m, c.children, c.buf, cookie, 0) }

  /** The cookie the description keeps after a call: where the walk over the records leaves it. */
  function NextCookie(m: Format, c: Call, cookie: nat): Walked {
    var f := Reply(m, c, cookie);
    if f.written > 0 then Walk(m, f.buf, 0, f.written, cookie) else Ended(cookie, 0)
  }

  /** What one call lists, and the cookie it leaves: the old one plus the records emitted. */
  lemma CallLists(m: Format, c: Call, cookie: nat)
    requires Faithful(m, c.children)
    ensures var f := Reply(m, c, cookie);
      NextCookie(m, c, cookie) == Ended(f.next, f.written) && Records(m, f.buf, 0, f.written) == Listing(c.children, cookie, f.next)
  {
    FillLists(m, c.children, c.buf, cookie, 0, cookie);
  }

  /** Zero bytes come back exactly when no child is left or the next record does not fit the buffer;
      otherwise the cookie moves on. */
  lemma ZeroIff(m: Format, c: Call, cookie: nat)
    requires Faithful(m, c.children)
    ensures Reply(m, c, cookie).written == 0 <==> cookie >= |c.children| || m.size(c.children[cookie]) > |c.buf|
    ensures Reply(m, c, cookie).written == 0 <==> Reply(m, c, cookie).next == cookie
    ensures cookie <= |c.children| ==> Reply(m, c, cookie).next <= |c.children|
  {
    FillLists(m, c.children, c.buf, cookie, 0, cookie);
    if cookie <= |c.children| { FillStops(m, c.children, c.buf, cookie, 0); }
  }

  function CookieAfter(m: Format, calls: seq<Call>, k: nat): nat
    requires k <= |calls|
  {
    if k == 0 then 0
    else
      var w := NextCookie(m, calls[k - 1], CookieAfter(m, calls, k - 1));
      if w.Ended? then w.cookie else CookieAfter(m, calls, k - 1)
  }

  /** Everything the first `k` calls listed. */
  function ListedBy(m: Format, calls: seq<Call>, k: nat): seq<Dirent>
    requires k <= |calls|
  {
    if k == 0 then []
    else
      var f := Reply(m, calls[k - 1], CookieAfter(m, calls, k - 1));
      ListedBy(m, calls, k - 1) + Records(m, f.buf, 0, f.written)
  }

  lemma {:induction false} ListingSplits(children: seq<Child>, i: nat, j: nat, k: nat)
    requires i <= j <= k <= |children|
    ensures Listing(children, i, k) == Listing(children, i, j) + Listing(children, j, k)
    decreases j - i
  {
    if i < j { ListingSplits(children, i + 1, j, k); }
  }

  lemma {:induction false} ListingGrows(a: seq<Child>, b: seq<Child>, i: nat, j: nat)
    requires j <= |a| && a <= b
    ensures Listing(a, i, j) == Listing(b, i, j)
    decreases j - i
  {
    if i < j {
      assert a[i] == b[i] && Entry(a, i) == Entry(b, i);
      ListingGrows(a, b, i + 1, j);
      assert Listing(a, i, j) == [Entry(a, i)] + Listing(a, i + 1, j);
    }
  }

  lemma {:induction false} ListingLength(children: seq<Child>, i: nat, j: nat)
    requires i <= j <= |children|
    ensures |Listing(children, i, j)| == j - i
    decreases j - i
  {
    if i < j { ListingLength(children, i + 1, j); }
  }

  /** One call more. */
  lemma CallStep(m: Format, calls: seq<Call>, k: nat, n: nat, cookie: nat, next: nat)
    requires k < n == k + 1 <= |calls| && Faithful(m, calls[k].children)
    requires cookie == CookieAfter(m, calls, k) <= |calls[k].children| && next == CookieAfter(m, calls, n)
    ensures cookie <= next <= |calls[k].children| && next == Reply(m, calls[k], cookie).next
    ensures ListedBy(m, calls, n) == ListedBy(m, calls, k) + Listing(calls[k].children, cookie, next)
  {
    ZeroIff(m, calls[k], cookie);
    CallLists(m, calls[k], cookie);
  }

  lemma Continue(a: seq<Child>, b: seq<Child>, cookie: nat, next: nat, listed: seq<Dirent>, now: seq<Dirent>)
    requires Continues(a, cookie, next, listed, now) && listed == Listing(a, 0, cookie) && a <= b
    ensures now == Listing(b, 0, next)
  {
    ListingSplits(a, 0, cookie, next);
    ListingGrows(a, b, 0, next);
  }

  /** However many calls it takes and whatever is appended in between: the calls so far listed exactly the
      children before the cookie, each once and in order. */
  lemma {:induction false} EachChildOnce(m: Format, calls: seq<Call>, k: nat)
    requires k < |calls| && Growing(calls) && AllFaithful(m, calls)
    ensures CookieAfter(m, calls, k) <= |calls[k].children|
    ensures ListedBy(m, calls, k) == Listing(calls[k].children, 0, CookieAfter(m, calls, k))
  {
    if k > 0 {
      EachChildOnce(m, calls, k - 1);
      CallContinues(m, calls, k - 1, k);
      assert calls[k - 1].children <= calls[k].children;
      Continue(calls[k - 1].children, calls[k].children, CookieAfter(m, calls, k - 1), CookieAfter(m, calls, k),
               ListedBy(m, calls, k - 1), ListedBy(m, calls, k));
    }
  }

  lemma CallContinues(m: Format, calls: seq<Call>, j: nat, n: nat)
    requires j < n == j + 1 <= |calls| && AllFaithful(m, calls) && CookieAfter(m, calls, j) <= |calls[j].children|
    ensures Continues(calls[j].children, CookieAfter(m, calls, j), CookieAfter(m, calls, n), ListedBy(m, calls, j), ListedBy(m, calls, n))
  {
    assert Faithful(m, calls[j].children);
    CallStep(m, calls, j, n, CookieAfter(m, calls, j), CookieAfter(m, calls, n));
  }

  /** One more call lists the children from one cookie to the next. */
  ghost predicate Continues(children: seq<Child>, cookie: nat, next: nat, listed: seq<Dirent>, now: seq<Dirent>) {
    cookie <= next <= |children| && now == listed + Listing(children, cookie, next)
  }

  /** With a buffer that has room for the next record, a call returns zero if and only if the calls before
      it listed every child there is, and otherwise it lists at least one more. */
  lemma ZeroMeansAll(m: Format, calls: seq<Call>, k: nat)
    requires k < |calls| && Growing(calls) && AllFaithful(m, calls)
    requires forall i :: 0 <= i < |calls[k].children| ==> m.size(calls[k].children[i]) <= |calls[k].buf|
    ensures Reply(m, calls[k], CookieAfter(m, calls, k)).written == 0 <==>
      ListedBy(m, calls, k) == Listing(calls[k].children, 0, |calls[k].children|)
    ensures CookieAfter(m, calls, k) < |calls[k].children| ==> CookieAfter(m, calls, k) < CookieAfter(m, calls, k + 1)
  {
    EachChildOnce(m, calls, k);
    var c := calls[k];
    var cookie := CookieAfter(m, calls, k);
    assert Faithful(m, c.children);
    ZeroIff(m, c, cookie);
    CallStep(m, calls, k, k + 1, cookie, CookieAfter(m, calls, k + 1));
    ListingLength(c.children, 0, |c.children|);
    ListingLength(c.children, 0, cookie);
  }

  // ---- The kernel's records -----------------------------------------------------------------------

  /** Header, name and NUL, rounded up to eight bytes. */
  function RecSize(c: Child): (n: nat)
    ensures HEADER + |c.name| + 1 <= n < HEADER + |c.name| + 9 && n % 8 == 0
  {
    (HEADER + |c.name| + 1 + 7) / 8 * 8
  }

  /** The fields: inode, next cookie, record length in sixteen bits, type. */
  function Fields(c: Child, i: nat): (s: seq<byte>)
    ensures |s| == 19
  {
    LE(c.ino, 8) + LE(i + 1, 8) + LE(RecSize(c) % 0x1_0000, 2) + [c.kind]
  }

  /** Write the record of child number `i` at `at`; padding keeps what the buffer held. */
  function PutRecord(b: seq<byte>, at: nat, c: Child, i: nat): seq<byte> {
    if at + RecSize(c) > |b| then b
    else Splice(Splice(b, at, Fields(c, i)), at + HEADER, c.name + [0])
  }

  /** The bytes before the first NUL. */
  function CString(b: seq<byte>, p: nat): (s: seq<byte>)
    decreases |b| - p
  {
    if p >= |b| || b[p] == 0 then [] else [b[p]] + CString(b, p + 1)
  }

  function GetRecord(b: seq<byte>, p: nat): Record {
    if p + HEADER > |b| then Record(Dirent(0, 0, 0, []), 0)
    else Record(Dirent(FromLE(b, p, 8), FromLE(b, p + 8, 8), b[p + 18], CString(b, p + HEADER)), FromLE(b, p + 16, 2))
  }

  const KERNEL: Format := Format(RecSize, PutRecord, GetRecord)

  /** Inode numbers are addresses, names hold no NUL, the record length fits its sixteen bits. */
  predicate Plain(c: Child) { c.ino < 0x1_0000_0000_0000_0000 && 0 !in c.name && RecSize(c) < 0x1_0000 }

  lemma Widths()
    ensures Pow256(2) == 0x1_0000 && Pow256(8) == 0x1_0000_0000_0000_0000
  {
    assert Pow256(4) == 256 * (256 * Pow256(2));
    assert Pow256(8) == 256 * (256 * (256 * (256 * Pow256(4))));
  }

  lemma {:induction false} CStringIs(b: seq<byte>, p: nat, name: seq<byte>)
    requires p + |name| < |b| && b[p..p + |name|] == name && b[p + |name|] == 0 && 0 !in name
    ensures CString(b, p) == name
    decreases |name|
  {
    if name != [] {
      assert b[p] == b[p..p + |name|][0] == name[0];
      assert b[p + 1..p + |name|] == b[p..p + |name|][1..] == name[1..];
      CStringIs(b, p + 1, name[1..]);
      assert name == [name[0]] + name[1..];
    }
  }

  /** A record as written. */
  ghost predicate Holds(b: seq<byte>, p: nat, c: Child, i: nat)
    requires p + RecSize(c) <= |b|
  {
    && b[p..p + 8] == LE(c.ino, 8) && b[p + 8..p + 16] == LE(i + 1, 8)
    && b[p + 16..p + 18] == LE(RecSize(c) % 0x1_0000, 2) && b[p + 18] == c.kind
    && b[p + HEADER..p + HEADER + |c.name|] == c.name && b[p + HEADER + |c.name|] == 0
  }

  lemma PutHolds(b: seq<byte>, p: nat, c: Child, i: nat)
    requires p + RecSize(c) <= |b|
    ensures var y := PutRecord(b, p, c, i); |y| == |b| && Holds(y, p, c, i) && y[..p] == b[..p]
  {
    var f := Fields(c, i);
    var x := Splice(b, p, f);
    var y := PutRecord(b, p, c, i);
    assert y[p..p + 19] == x[p..p + 19] == f;
    assert y[p..p + 8] == y[p..p + 19][..8] == f[..8];
    assert y[p + 8..p + 16] == y[p..p + 19][8..16] == f[8..16];
    assert y[p + 16..p + 18] == y[p..p + 19][16..18] == f[16..18];
    assert y[p + 18] == y[p..p + 19][18];
  }

  lemma HoldsSame(a: seq<byte>, b: seq<byte>, p: nat, c: Child, i: nat)
    requires |a| == |b| && p + RecSize(c) <= |a| && a[..p + RecSize(c)] == b[..p + RecSize(c)] && Holds(a, p, c, i)
    ensures Holds(b, p, c, i)
  {
    var n := p + RecSize(c);
    forall x: nat, y: nat | x <= y <= n ensures a[x..y] == b[x..y] { assert a[x..y] == a[..n][x..y] && b[x..y] == b[..n][x..y]; }
    assert forall x: nat :: x < n ==> a[x] == a[..n][x] && b[x] == b[..n][x];
  }

  /** Reading inverts writing. */
  lemma HoldsReads(b: seq<byte>, p: nat, c: Child, i: nat)
    requires p + RecSize(c) <= |b| && Holds(b, p, c, i) && Plain(c) && i + 1 < 0x1_0000_0000_0000_0000
    ensures GetRecord(b, p) == Record(Dirent(c.ino, i + 1, c.kind, c.name), RecSize(c))
  {
    Widths();
    var n := RecSize(c);
    Small(n);
    LERoundTrip(b, p, c.ino, 8);
    LERoundTrip(b, p + 8, i + 1, 8);
    LERoundTrip(b, p + 16, n, 2);
    CStringIs(b, p + HEADER, c.name);
  }

  lemma KernelPutOk(children: seq<Child>, b: seq<byte>, p: nat, i: nat)
    requires i < |children| && i + 1 < 0x1_0000_0000_0000_0000 && Plain(children[i]) && p + RecSize(children[i]) <= |b|
    ensures PutOk(KERNEL, children, b, p, i)
  {
    var c := children[i];
    var x := PutRecord(b, p, c, i);
    var n := p + RecSize(c);
    PutHolds(b, p, c, i);
    forall y: seq<byte> | |y| == |b| && y[..n] == x[..n] ensures GetRecord(y, p) == Record(Entry(children, i), RecSize(c)) {
      HoldsSame(x, y, p, c, i);
      HoldsReads(y, p, c, i);
    }
  }

  lemma {:induction false} FromLEBound(b: seq<byte>, at: nat, k: nat)
    requires at + k <= |b|
    ensures FromLE(b, at, k) < Pow256(k)
    decreases k
  {
    if k > 0 { FromLEBound(b, at + 1, k - 1); }
  }

  lemma {:induction false} CStringHasNoNul(b: seq<byte>, p: nat)
    ensures 0 !in CString(b, p)
    decreases |b| - p
  {
    if p < |b| && b[p] != 0 { CStringHasNoNul(b, p + 1); }
  }

  /** Only a plain child, at an index below 2^64, can be read back. */
  lemma ReadBackIsPlain(children: seq<Child>, i: nat)
    requires i < |children| && Faithful(KERNEL, children)
    ensures Plain(children[i]) && i + 1 < 0x1_0000_0000_0000_0000
  {
    var c := children[i];
    var n := RecSize(c);
    var b: seq<byte> := seq(n, (j: nat) => 0);
    assert KERNEL.size(c) == n;
    assert PutOk(KERNEL, children, b, 0, i);
    var x := PutRecord(b, 0, c, i);
    assert x[..n] == x[..n] && GetRecord(x, 0) == Record(Entry(children, i), n);
    Widths();
    FromLEBound(x, 0, 8);
    FromLEBound(x, 8, 8);
    FromLEBound(x, 16, 2);
    CStringHasNoNul(x, HEADER);
  }

  /** The kernel's records read back if and only if inode numbers and indices fit 64 bits, names hold no NUL
      and record lengths fit sixteen bits. */
  lemma KernelFaithful(children: seq<Child>)
    ensures Faithful(KERNEL, children) <==>
      |children| < 0x1_0000_0000_0000_0000 && forall i :: 0 <= i < |children| ==> Plain(children[i])
  {
    if |children| < 0x1_0000_0000_0000_0000 && forall i :: 0 <= i < |children| ==> Plain(children[i]) {
      forall b: seq<byte>, p: nat, i: nat | i < |children| && p + KERNEL.size(children[i]) <= |b| ensures PutOk(KERNEL, children, b, p, i) {
        KernelPutOk(children, b, p, i);
      }
    }
    if Faithful(KERNEL, children) {
      forall i: nat | i < |children| ensures Plain(children[i]) { ReadBackIsPlain(children, i); }
      if children != [] { ReadBackIsPlain(children, |children| - 1); }
    }
  }

  /** A directory whose records read back. */
  ghost predicate Listable(children: seq<Child>) {
    |children| < 0x1_0000_0000_0000_0000 && forall i :: 0 <= i < |children| ==> Plain(children[i])
  }

  /** Repeated calls with the kernel's records, with buffers of any size and over a directory that may grow
      in between, list exactly the children before the cookie, once and in order.  A call returns zero if
      and only if all children have been listed or the next record does not fit its buffer. */
  lemma GetdentsEnumerates(calls: seq<Call>, k: nat)
    requires k < |calls| && Growing(calls) && forall i :: 0 <= i < |calls| ==> Listable(calls[i].children)
    ensures var c, cookie := calls[k], CookieAfter(KERNEL, calls, k);
      && cookie <= |c.children| && ListedBy(KERNEL, calls, k) == Listing(c.children, 0, cookie)
      && (Reply(KERNEL, c, cookie).written == 0 <==> cookie == |c.children| || RecSize(c.children[cookie]) > |c.buf|)
      && (Reply(KERNEL, c, cookie).written > 0 <==> cookie < CookieAfter(KERNEL, calls, k + 1))
  {
    forall i | 0 <= i < |calls| ensures Faithful(KERNEL, calls[i].children) {
      assert Listable(calls[i].children);
      KernelFaithful(calls[i].children);
    }
    var cookie := CookieAfter(KERNEL, calls, k);
    EachChildOnce(KERNEL, calls, k);
    ZeroIff(KERNEL, calls[k], cookie);
    CallStep(KERNEL, calls, k, k + 1, cookie, CookieAfter(KERNEL, calls, k + 1));
  }

  // ---- Long names -----------------------------------------------------------------------------------

  /** A number whose top byte is not zero is large. */
  lemma {:induction false} TopByte(b: seq<byte>, at: nat, k: nat)
    requires at + k < |b| && b[at + k] != 0
    ensures FromLE(b, at, k + 1) >= Pow256(k)
    decreases k
  {
    if k > 0 { TopByte(b, at + 1, k - 1); }
  }

  /** In the buffer of one long record, the cookie a misplaced header shows is never 1. */
  lemma WrongCookie(c: Child, x: seq<byte>, p: nat)
    requires |x| == RecSize(c) && Holds(x, 0, c, 0) && 0 !in c.name && p + HEADER <= |x|
    requires p > 8 || (p == 8 && RecSize(c) % 0x1_0000 == 8)
    ensures FromLE(x, p + 8, 8) != 1
  {
    if p > 8 {
      var i := p + 15 - HEADER;
      assert x[p + 15] == x[HEADER..HEADER + |c.name|][i] == c.name[i];
      assert c.name[i] in c.name;
      TopByte(x, p + 8, 7);
      assert Pow256(7) >= Pow256(1) == 256 by { assert Pow256(2) == 256 * Pow256(1) && Pow256(3) == 256 * Pow256(2); }
    } else {
      assert x[16] == x[16..18][0] == LE(8, 2)[0] == 8;
      assert FromLE(x, 16, 8) == x[16] as nat + 256 * FromLE(x, 17, 7);
    }
  }

  /** One record of the walk. */
  lemma WalkOne(m: Format, x: seq<byte>, p: nat, end: nat, cookie: nat, r: Record)
    requires r == m.get(x, p) && p < end
    ensures Walk(m, x, p, end, cookie) == if r.reclen == 0 then Hangs else Walk(m, x, p + r.reclen, end, r.dirent.off)
  {}

  lemma WalkDone(m: Format, x: seq<byte>, p: nat, cookie: nat)
    ensures Walk(m, x, p, p, cookie) == Ended(cookie, p)
  {}

  /** A walk over headers none of which shows the cookie 1 does not come back to it. */
  lemma {:induction false} WalkAstray(m: Format, x: seq<byte>, p: nat, cookie: nat)
    requires cookie != 1 && forall q: nat :: q >= p && q < |x| ==> m.get(x, q).reclen == 0 || m.get(x, q).dirent.off != 1
    ensures Walk(m, x, p, |x|, cookie) != Ended(1, |x|)
    decreases |x| - p
  {
    if p < |x| {
      var r := m.get(x, p);
      WalkOne(m, x, p, |x|, cookie, r);
      if r.reclen != 0 { WalkAstray(m, x, p + r.reclen, r.dirent.off); }
    }
  }

  lemma NoRightCookie(c: Child, x: seq<byte>, p: nat)
    requires |x| == RecSize(c) && Holds(x, 0, c, 0) && 0 !in c.name
    requires p > 8 || (p == 8 && RecSize(c) % 0x1_0000 == 8)
    ensures GetRecord(x, p).reclen == 0 || GetRecord(x, p).dirent.off != 1
  {
    if p + HEADER <= |x| { WrongCookie(c, x, p); }
  }

  /** A record longer than sixteen bits can tell is walked wrongly in a buffer it just fits. */
  lemma LongNameGoesAstray(c: Child, b: seq<byte>)
    requires RecSize(c) >= 0x1_0000 && |b| == RecSize(c) && 0 !in c.name
    ensures NextCookie(KERNEL, Call([c], b), 0) != Ended(1, RecSize(c))
  {
    var n := RecSize(c);
    var x := PutRecord(b, 0, c, 0);
    PutHolds(b, 0, c, 0);
    OneChild(c, b);
    LengthField(c, x);
    var m := n % 0x1_0000;
    forall q: nat | q >= m && m != 0 ensures GetRecord(x, q).reclen == 0 || GetRecord(x, q).dirent.off != 1 {
      Multiple8(n);
      NoRightCookie(c, x, q);
    }
    GoesAstray(KERNEL, Call([c], b), x, m);
  }

  lemma GoesAstray(m: Format, call: Call, x: seq<byte>, first: nat)
    requires Reply(m, call, 0) == Filled(x, |x|, 1) && m.get(x, 0).reclen == first < |x|
    requires first != 0 ==> forall q: nat :: q >= first ==> m.get(x, q).reclen == 0 || m.get(x, q).dirent.off != 1
    ensures NextCookie(m, call, 0) != Ended(1, |x|)
  {
    WalkOne(m, x, 0, |x|, 0, m.get(x, 0));
    if first != 0 {
      var r := m.get(x, first);
      WalkOne(m, x, first, |x|, m.get(x, 0).dirent.off, r);
      if r.reclen != 0 { WalkAstray(m, x, first + r.reclen, r.dirent.off); }
    }
  }

  lemma Multiple8(n: nat)
    requires n % 8 == 0 && n % 0x1_0000 != 0
    ensures n % 0x1_0000 >= 8
  {}

  lemma LengthField(c: Child, x: seq<byte>)
    requires RecSize(c) <= |x| && Holds(x, 0, c, 0)
    ensures GetRecord(x, 0).reclen == RecSize(c) % 0x1_0000 && GetRecord(x, 0).dirent.off == 1
  {
    Widths();
    LERoundTrip(x, 8, 1, 8);
    LERoundTrip(x, 16, RecSize(c) % 0x1_0000, 2);
  }

  lemma OneChild(c: Child, b: seq<byte>)
    requires RecSize(c) <= |b|
    ensures Reply(KERNEL, Call([c], b), 0) == Filled(PutRecord(b, 0, c, 0), RecSize(c), 1)
  {
    var x := PutRecord(b, 0, c, 0);
    assert Fill(KERNEL, [c], b, 0, 0) == Fill(KERNEL, [c], x, 1, RecSize(c)) == Filled(x, RecSize(c), 1);
  }

  /** The walk over one record ends at the bytes written with the right cookie, whatever the buffer, if and
      only if the record length fits its sixteen bits. */
  lemma RecordWalkIff(c: Child)
    requires 0 !in c.name
    ensures (forall b: seq<byte> :: |b| >= RecSize(c) ==> NextCookie(KERNEL, Call([c], b), 0) == Ended(1, RecSize(c))) <==>
      RecSize(c) < 0x1_0000
  {
    if RecSize(c) < 0x1_0000 {
      forall b: seq<byte> | |b| >= RecSize(c) ensures NextCookie(KERNEL, Call([c], b), 0) == Ended(1, RecSize(c)) {
        ShortRecordWalk(c, b);
      }
    } else {
      var b: seq<byte> := seq(RecSize(c), (j: nat) => 0);
      LongNameGoesAstray(c, b);
    }
  }

  lemma ShortRecordWalk(c: Child, b: seq<byte>)
    requires RecSize(c) < 0x1_0000 && RecSize(c) <= |b|
    ensures NextCookie(KERNEL, Call([c], b), 0) == Ended(1, RecSize(c))
  {
    var n := RecSize(c);
    var x := PutRecord(b, 0, c, 0);
    PutHolds(b, 0, c, 0);
    OneChild(c, b);
    LengthField(c, x);
    Small(n);
    WalksRight(KERNEL, Call([c], b), x, n);
  }

  lemma Small(n: nat)
    requires n < 0x1_0000
    ensures n % 0x1_0000 == n
  {}

  lemma WalksRight(m: Format, call: Call, x: seq<byte>, n: nat)
    requires Reply(m, call, 0) == Filled(x, n, 1) && n > 0 && m.get(x, 0).reclen == n && m.get(x, 0).dirent.off == 1
    ensures NextCookie(m, call, 0) == Ended(1, n)
  {
    WalkOne(m, x, 0, n, 0, m.get(x, 0));
    WalkDone(m, x, n, 1);
  }

  /** When the length is a multiple of 65536 the walk never ends at all. */
  lemma LongNameHangs(c: Child, b: seq<byte>)
    requires RecSize(c) % 0x1_0000 == 0 && RecSize(c) <= |b|
    ensures NextCookie(KERNEL, Call([c], b), 0) == Hangs
  {
    var x := PutRecord(b, 0, c, 0);
    PutHolds(b, 0, c, 0);
    OneChild(c, b);
    LengthField(c, x);
    WalkOne(KERNEL, x, 0, RecSize(c), 0, GetRecord(x, 0));
  }
}

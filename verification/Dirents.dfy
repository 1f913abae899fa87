/** getdents64: the directory's children are written as records into the caller's buffer, and the records
    are walked again to find the cookie for the next call. */
module Dirents {
  import opened DirentModel

  method Store(buf: array<byte>, at: nat, s: seq<byte>)
    requires at + |s| <= buf.Length
    modifies buf
    ensures buf[..] == Splice(old(buf[..]), at, s)
  {
    for j := 0 to |s|
      invariant buf[..at] == old(buf[..at]) && buf[at..at + j] == s[..j] && buf[at + j..] == old(buf[at + j..])
    {
      buf[at + j] := s[j];
      assert s[..j + 1] == s[..j] + [s[j]];
      assert buf[at..at + (j + 1)] == buf[at..at + j] + [buf[at + j]];
      assert buf[at + (j + 1)..] == buf[at + j..][1..];
      assert old(buf[at + (j + 1)..]) == old(buf[at + j..])[1..];
    }
    assert s[..|s|] == s;
    assert buf[..] == buf[..at] + buf[at..at + |s|] + buf[at + |s|..];
    assert old(buf[..])[..at] == old(buf[..at]) && old(buf[..])[at + |s|..] == old(buf[at + |s|..]);
  }

  method Record(buf: array<byte>, at: nat, c: Child, i: nat)
    requires at + RecSize(c) <= buf.Length
    modifies buf
    ensures buf[..] == PutRecord(old(buf[..]), at, c, i)
  {
    Store(buf, at, Fields(c, i));
    Store(buf, at + HEADER, c.name + [0]);
  }

  ghost predicate IsKernel(m: Format) {
    && (forall c: Child {:trigger RecSize(c)} :: m.size(c) == RecSize(c))
    && (forall b: seq<byte>, at: nat, c: Child, i: nat {:trigger PutRecord(b, at, c, i)} :: m.put(b, at, c, i) == PutRecord(b, at, c, i))
  }

  /** Add one record if it fits. */
  method Next(c: Child, buf: array<byte>, at: nat, i: nat, ghost m: Format) returns (ok: bool, n: nat)
    requires IsKernel(m)
    modifies buf
    ensures n == at + m.size(c) && ok == (n <= buf.Length)
    ensures buf[..] == if ok then m.put(old(buf[..]), at, c, i) else old(buf[..])
  {
    n := at + RecSize(c);
    ok := n <= buf.Length;
    if ok { Record(buf, at, c, i); }
  }

  /** Fill the buffer with records from child `offset` on; `m` describes the records. */
  method IterateBy(children: seq<Child>, buf: array<byte>, offset: nat, ghost m: Format) returns (written: nat)
    requires IsKernel(m)
    modifies buf
    ensures var f := Fill(m, children, old(buf[..]), offset, 0); buf[..] == f.buf && written == f.written
  {
    written := 0;
    var i := offset;
    ghost var whole := Fill(m, children, buf[..], offset, 0);
    while i < |children|
      invariant Fill(m, children, buf[..], i, written) == whole
      decreases |children| - i
    {
      var ok, n := Next(children[i], buf, written, i, m);
      if !ok { break; }
      written, i := n, i + 1;
    }
  }

  method Iterate(children: seq<Child>, buf: array<byte>, offset: nat) returns (written: nat)
    modifies buf
    ensures var f := Fill(KERNEL, children, old(buf[..]), offset, 0); buf[..] == f.buf && written == f.written
  {
    written := IterateBy(children, buf, offset, KERNEL);
  }

  class Description {
    /** The directory cookie: the number of children already listed. */
    var offset: nat

    constructor ()
      ensures offset == 0
    {
      offset := 0;
    }

    /** One call; `hangs` stands for a walk that never ends. */
    method GetDents(children: seq<Child>, buf: array<byte>) returns (written: nat, hangs: bool)
      modifies this, buf
      ensures var c := Call(children, old(buf[..]));
        var f := Reply(KERNEL, c, old(offset));
        && written == f.written && buf[..] == f.buf
        && (hangs <==> NextCookie(KERNEL, c, old(offset)) == Hangs)
        && (!hangs ==> offset == NextCookie(KERNEL, c, old(offset)).cookie)
    {
      written := Iterate(children, buf, offset);
      ghost var b := buf[..];
      ghost var walk := Walk(KERNEL, b, 0, written, offset);
      var p := 0;
      while p < written
        invariant buf[..] == b && Walk(KERNEL, b, p, written, offset) == walk
        decreases written - p
      {
        var r := GetRecord(buf[..], p);
        if r.reclen == 0 { return written, true; }
        offset := r.dirent.off;
        p := p + r.reclen;
      }
      hangs := false;
    }
  }
}

/** The directory tree of the in-memory file system: path resolution, and the entries an archive adds.
    A node is named by its index; nodes are only ever added. */
module TreeModel {

  newtype byte = x: int | 0 <= x < 256
  type Id = nat

  datatype Kind = Regular | Directory | Special
  datatype Node = Node(kind: Kind, name: string, children: seq<Id>, data: seq<byte>)

  /** `room` is how many more nodes can be allocated. */
  datatype Fs = Fs(nodes: seq<Node>, room: nat)

  datatype Errno = ENOTDIR | ENOENT | EEXIST | ENOMEM
  datatype Found = Ok(id: Id) | Err(error: Errno)

  predicate Inside(fs: Fs, cs: seq<Id>) { forall k :: 0 <= k < |cs| ==> cs[k] < |fs.nodes| }

  predicate WellFormed(fs: Fs) { forall i :: 0 <= i < |fs.nodes| ==> Inside(fs, fs.nodes[i].children) }

  // ---- Paths --------------------------------------------------------------------------------------

  /** The index of the first slash, or the length. */
  function Slash(s: string): (i: nat)
    ensures i <= |s| && '/' !in s[..i] && (i < |s| ==> s[i] == '/')
  {
    if s == [] || s[0] == '/' then 0 else 1 + Slash(s[1..])
  }

  /** The parts between slashes. */
  function Split(path: string): (parts: seq<string>)
    ensures parts != []
    decreases |path|
  {
    var i := Slash(path);
    if i == |path| then [path] else [path[..i]] + Split(path[i + 1..])
  }

  function Join(parts: seq<string>): string {
    if parts == [] then "" else if |parts| == 1 then parts[0] else parts[0] + "/" + Join(parts[1..])
  }

  /** Empty parts and "." name no step. */
  predicate Names(part: string) { part != "" && part != "." }

  function Steps(parts: seq<string>): seq<string> {
    if parts == [] then [] else if Names(parts[0]) then [parts[0]] + Steps(parts[1..]) else Steps(parts[1..])
  }

  function Components(path: string): seq<string> { Steps(Split(path)) }

  /** Splitting is undone by joining, and it is the only way to cut a path into parts without slashes. */
  lemma {:induction false} SplitJoins(path: string)
    ensures Join(Split(path)) == path && forall p :: p in Split(path) ==> '/' !in p
    decreases |path|
  {
    var i := Slash(path);
    if i == |path| {
      assert path[..i] == path;
    } else {
      var rest := path[i + 1..];
      SplitJoins(rest);
      JoinCons(path[..i], Split(rest));
      assert path == path[..i] + "/" + rest;
    }
  }

  lemma JoinCons(part: string, rest: seq<string>)
    requires rest != []
    ensures Join([part] + rest) == part + "/" + Join(rest)
  {
    assert ([part] + rest)[1..] == rest;
  }

  lemma {:induction false} JoinSplits(parts: seq<string>)
    requires parts != [] && forall p :: p in parts ==> '/' !in p
    ensures Split(Join(parts)) == parts
  {
    if |parts| == 1 {
      assert parts[0] in parts && parts[0][..|parts[0]|] == parts[0];
      SlashIs(parts[0], |parts[0]|);
      assert parts == [parts[0]];
    } else {
      JoinSplits(parts[1..]);
      SplitAfter(parts[0], Join(parts[1..]));
      assert parts == [parts[0]] + parts[1..];
    }
  }

  lemma SplitAfter(part: string, rest: string)
    requires '/' !in part
    ensures Split(part + "/" + rest) == [part] + Split(rest)
  {
    var s := part + "/" + rest;
    assert s[..|part|] == part && s[|part| + 1..] == rest;
    SlashIs(s, |part|);
  }

  lemma SlashIs(s: string, i: nat)
    requires i <= |s| && '/' !in s[..i] && (i < |s| ==> s[i] == '/')
    ensures Slash(s) == i
  {
    assert forall k :: 0 <= k < i ==> s[k] in s[..i];
  }

  lemma {:induction false} StepsAppend(a: seq<string>, b: seq<string>)
    ensures Steps(a + b) == Steps(a) + Steps(b)
  {
    if a == [] {
      assert a + b == b;
    } else {
      assert (a + b)[1..] == a[1..] + b;
      StepsAppend(a[1..], b);
    }
  }

  // ---- Directories --------------------------------------------------------------------------------

  /** The first child with a name. */
  function Search(fs: Fs, children: seq<Id>, name: string): Found
    requires Inside(fs, children)
  {
    if children == [] then Err(ENOENT)
    else if fs.nodes[children[0]].name == name then Ok(children[0])
    else Search(fs, children[1..], name)
  }

  function Lookup(fs: Fs, dir: Id, name: string): (r: Found)
    requires WellFormed(fs) && dir < |fs.nodes|
    ensures r.Ok? ==> fs.nodes[dir].kind == Directory && r.id < |fs.nodes|
  {
    if fs.nodes[dir].kind != Directory then Err(ENOTDIR)
    else
      SearchFinds(fs, fs.nodes[dir].children, name);
      Search(fs, fs.nodes[dir].children, name)
  }

  lemma {:induction false} SearchFinds(fs: Fs, children: seq<Id>, name: string)
    requires Inside(fs, children)
    ensures var r := Search(fs, children, name);
      if r.Ok? then r.id in children && fs.nodes[r.id].name == name
      else r == Err(ENOENT) && forall k :: 0 <= k < |children| ==> fs.nodes[children[k]].name != name
  {
    if children != [] { SearchFinds(fs, children[1..], name); }
  }

  /** Path resolution: follow the components, each in the directory reached so far. */
  function Resolve(fs: Fs, node: Id, steps: seq<string>): (r: Found)
    requires WellFormed(fs) && node < |fs.nodes|
    ensures r.Ok? ==> r.id < |fs.nodes|
    decreases |steps|
  {
    if steps == [] then Ok(node)
    else
      var next := Lookup(fs, node, steps[0]);
      if next.Err? then next else Resolve(fs, next.id, steps[1..])
  }

  /** A new last child. */
  function Added(fs: Fs, dir: Id, n: Node): Fs
    requires dir < |fs.nodes|
  {
    var d := fs.nodes[dir];
    Fs(fs.nodes[dir := d.(children := d.children + [|fs.nodes|])] + [n], if fs.room > 0 then fs.room - 1 else 0)
  }

  function Create(fs: Fs, dir: Id, name: string): (p: (Found, Fs))
    requires WellFormed(fs) && dir < |fs.nodes|
    ensures p.0.Ok? ==> p.0.id == |fs.nodes| < |p.1.nodes|
  {
    var there := Lookup(fs, dir, name);
    if there.Ok? then (Err(EEXIST), fs)
    else if there.error != ENOENT then (there, fs)
    else if fs.room == 0 then (Err(ENOMEM), fs)
    else (Ok(|fs.nodes|), Added(fs, dir, Node(Regular, name, [], [])))
  }

  function Mkdir(fs: Fs, dir: Id, name: string): (Found, Fs)
    requires WellFormed(fs) && dir < |fs.nodes|
  {
    var there := Lookup(fs, dir, name);
    if there.Ok? || there.error != ENOENT then (there, fs)
    else if fs.room == 0 then (Err(ENOMEM), fs)
    else (Ok(|fs.nodes|), Added(fs, dir, Node(Directory, name, [], [])))
  }

  // ---- Growth -------------------------------------------------------------------------------------

  /** The same name and kind, and children were only appended. */
  ghost predicate Kept(a: Node, b: Node) {
    b.kind == a.kind && b.name == a.name && |a.children| <= |b.children| && b.children[..|a.children|] == a.children
  }

  ghost predicate Grown(fs: Fs, gs: Fs) {
    |fs.nodes| <= |gs.nodes| && forall i :: 0 <= i < |fs.nodes| ==> Kept(fs.nodes[i], gs.nodes[i])
  }

  ghost predicate SameData(fs: Fs, gs: Fs) {
    |fs.nodes| <= |gs.nodes| && forall i :: 0 <= i < |fs.nodes| ==> gs.nodes[i].data == fs.nodes[i].data
  }

  lemma GrownTrans(a: Fs, b: Fs, c: Fs)
    requires Grown(a, b) && Grown(b, c)
    ensures Grown(a, c)
  {
    forall i | 0 <= i < |a.nodes| ensures Kept(a.nodes[i], c.nodes[i]) {
      var x, y, z := a.nodes[i], b.nodes[i], c.nodes[i];
      assert Kept(x, y) && Kept(y, z);
      assert z.children[..|x.children|] == z.children[..|y.children|][..|x.children|];
    }
  }

  lemma {:induction false} SearchGrows(fs: Fs, gs: Fs, children: seq<Id>, more: seq<Id>, name: string)
    requires Grown(fs, gs) && Inside(fs, children) && Inside(gs, more)
    requires Search(fs, children, name).Ok?
    ensures Search(gs, children + more, name) == Search(fs, children, name)
  {
    assert (children + more)[0] == children[0];
    assert Kept(fs.nodes[children[0]], gs.nodes[children[0]]);
    if fs.nodes[children[0]].name != name {
      assert (children + more)[1..] == children[1..] + more;
      SearchGrows(fs, gs, children[1..], more, name);
    }
  }

  lemma LookupGrows(fs: Fs, gs: Fs, dir: Id, name: string)
    requires WellFormed(fs) && WellFormed(gs) && Grown(fs, gs) && dir < |fs.nodes| && Lookup(fs, dir, name).Ok?
    ensures Lookup(gs, dir, name) == Lookup(fs, dir, name)
  {
    var a, b := fs.nodes[dir], gs.nodes[dir];
    assert Kept(a, b);
    assert b.children == a.children + b.children[|a.children|..];
    SearchGrows(fs, gs, a.children, b.children[|a.children|..], name);
  }

  /** Whatever resolved before the tree grew resolves to the same node after. */
  lemma {:induction false} ResolveGrows(fs: Fs, gs: Fs, node: Id, steps: seq<string>)
    requires WellFormed(fs) && WellFormed(gs) && Grown(fs, gs) && node < |fs.nodes| && Resolve(fs, node, steps).Ok?
    ensures Resolve(gs, node, steps) == Resolve(fs, node, steps)
    decreases |steps|
  {
    if steps != [] {
      LookupGrows(fs, gs, node, steps[0]);
      ResolveGrows(fs, gs, Lookup(fs, node, steps[0]).id, steps[1..]);
    }
  }

  lemma {:induction false} ResolveAppend(fs: Fs, node: Id, a: seq<string>, b: seq<string>)
    requires WellFormed(fs) && node < |fs.nodes| && Resolve(fs, node, a).Ok?
    ensures Resolve(fs, node, a + b) == Resolve(fs, Resolve(fs, node, a).id, b)
    decreases |a|
  {
    if a == [] {
      assert a + b == b;
    } else {
      assert (a + b)[0] == a[0] && (a + b)[1..] == a[1..] + b;
      ResolveAppend(fs, Lookup(fs, node, a[0]).id, a[1..], b);
    }
  }

  // ---- Sibling names ------------------------------------------------------------------------------

  ghost predicate Unique(fs: Fs, dir: Id)
    requires WellFormed(fs) && dir < |fs.nodes|
  {
    var cs := fs.nodes[dir].children;
    forall i, j :: 0 <= i < j < |cs| ==> fs.nodes[cs[i]].name != fs.nodes[cs[j]].name
  }

  /** The tree as Create and Mkdir keep it. */
  ghost predicate Tree(fs: Fs) {
    WellFormed(fs) && forall d :: 0 <= d < |fs.nodes| ==> Unique(fs, d)
  }

  lemma AddedKeeps(fs: Fs, dir: Id, n: Node)
    requires Tree(fs) && dir < |fs.nodes| && Lookup(fs, dir, n.name) == Err(ENOENT) && n.children == []
    ensures Tree(Added(fs, dir, n)) && Grown(fs, Added(fs, dir, n)) && SameData(fs, Added(fs, dir, n))
    ensures Lookup(Added(fs, dir, n), dir, n.name) == Ok(|fs.nodes|) && Added(fs, dir, n).nodes[|fs.nodes|] == n
  {
    var gs := Added(fs, dir, n);
    var cs := fs.nodes[dir].children;
    SearchFinds(fs, cs, n.name);
    AddedWellFormed(fs, dir, n);
    forall d | 0 <= d < |gs.nodes| ensures Unique(gs, d) {
      if d < |fs.nodes| {
        assert Unique(fs, d);
        SameNames(fs, gs, fs.nodes[d].children);
      }
    }
    SearchLast(fs, gs, cs, |fs.nodes|, n.name);
  }

  lemma AddedWellFormed(fs: Fs, dir: Id, n: Node)
    requires WellFormed(fs) && dir < |fs.nodes| && n.children == []
    ensures WellFormed(Added(fs, dir, n)) && Grown(fs, Added(fs, dir, n)) && SameData(fs, Added(fs, dir, n))
    ensures var gs := Added(fs, dir, n);
      && gs.nodes[|fs.nodes|] == n && gs.nodes[dir].children == fs.nodes[dir].children + [|fs.nodes|]
      && forall i :: 0 <= i < |fs.nodes| && i != dir ==> gs.nodes[i] == fs.nodes[i]
  {
    var gs := Added(fs, dir, n);
    forall i | 0 <= i < |gs.nodes| ensures Inside(gs, gs.nodes[i].children) {
      if i < |fs.nodes| { assert Inside(fs, fs.nodes[i].children); }
    }
  }

  lemma SameNames(fs: Fs, gs: Fs, cs: seq<Id>)
    requires |fs.nodes| <= |gs.nodes| && forall i :: 0 <= i < |fs.nodes| ==> gs.nodes[i].name == fs.nodes[i].name
    requires Inside(fs, cs)
    ensures forall i :: 0 <= i < |cs| ==> gs.nodes[cs[i]].name == fs.nodes[cs[i]].name
  {}

  lemma {:induction false} SearchLast(fs: Fs, gs: Fs, cs: seq<Id>, last: Id, name: string)
    requires |fs.nodes| <= |gs.nodes| && forall i :: 0 <= i < |fs.nodes| ==> gs.nodes[i].name == fs.nodes[i].name
    requires Inside(fs, cs) && forall k :: 0 <= k < |cs| ==> fs.nodes[cs[k]].name != name
    requires last < |gs.nodes| && gs.nodes[last].name == name
    ensures Search(gs, cs + [last], name) == Ok(last)
  {
    if cs != [] {
      assert (cs + [last])[0] == cs[0] && (cs + [last])[1..] == cs[1..] + [last];
      SearchLast(fs, gs, cs[1..], last, name);
    }
  }

  lemma MkdirKeeps(fs: Fs, dir: Id, name: string)
    requires Tree(fs) && dir < |fs.nodes|
    ensures var (r, gs) := Mkdir(fs, dir, name);
      && Tree(gs) && Grown(fs, gs) && SameData(fs, gs) && (r.Ok? ==> r.id < |gs.nodes| && Lookup(gs, dir, name) == r)
      && (r.Err? || r.id < |fs.nodes| ==> gs == fs)
      && (r.Ok? && r.id >= |fs.nodes| ==>
        && r.id == |fs.nodes| && gs.nodes[r.id] == Node(Directory, name, [], []) && Lookup(fs, dir, name) == Err(ENOENT)
        && gs.room == fs.room - 1 && |gs.nodes| == |fs.nodes| + 1)
  {
    var there := Lookup(fs, dir, name);
    if there == Err(ENOENT) && fs.room > 0 { AddedKeeps(fs, dir, Node(Directory, name, [], [])); }
  }

  /** Create makes a new node, which the name then leads to, or changes nothing. */
  lemma CreateKeeps(fs: Fs, dir: Id, name: string)
    requires Tree(fs) && dir < |fs.nodes|
    ensures var (r, gs) := Create(fs, dir, name);
      && Tree(gs) && Grown(fs, gs) && SameData(fs, gs)
      && (r.Ok? ==> r.id == |fs.nodes| < |gs.nodes| && Lookup(gs, dir, name) == r && gs.nodes[r.id] == Node(Regular, name, [], []))
      && (r.Err? ==> gs == fs)
      && (r == Err(EEXIST) <==> Lookup(fs, dir, name).Ok?)
  {
    var there := Lookup(fs, dir, name);
    SearchFinds(fs, fs.nodes[dir].children, name);
    if there == Err(ENOENT) && fs.room > 0 { AddedKeeps(fs, dir, Node(Regular, name, [], [])); }
  }

  ghost predicate HasChild(fs: Fs, dir: Id, name: string, c: Id)
    requires WellFormed(fs) && dir < |fs.nodes|
  {
    c < |fs.nodes| && c in fs.nodes[dir].children && fs.nodes[c].name == name
  }

  /** What lookup, create and mkdir answer, for a directory that has a child of the name, one that has none, and
      what is no directory. */
  lemma Answers(fs: Fs, dir: Id, name: string, c: Id)
    requires Tree(fs) && dir < |fs.nodes|
    ensures fs.nodes[dir].kind != Directory ==>
      Lookup(fs, dir, name) == Err(ENOTDIR) && Create(fs, dir, name).0 == Err(ENOTDIR) && Mkdir(fs, dir, name).0 == Err(ENOTDIR)
    ensures fs.nodes[dir].kind == Directory && HasChild(fs, dir, name, c) ==>
      Lookup(fs, dir, name) == Ok(c) && Create(fs, dir, name).0 == Err(EEXIST) && Mkdir(fs, dir, name).0 == Ok(c)
    ensures fs.nodes[dir].kind == Directory && (forall k :: 0 <= k < |fs.nodes[dir].children| ==> fs.nodes[fs.nodes[dir].children[k]].name != name) ==>
      && Lookup(fs, dir, name) == Err(ENOENT)
      && Create(fs, dir, name).0 == (if fs.room == 0 then Err(ENOMEM) else Ok(|fs.nodes|))
      && Mkdir(fs, dir, name).0 == (if fs.room == 0 then Err(ENOMEM) else Ok(|fs.nodes|))
  {
    SearchFinds(fs, fs.nodes[dir].children, name);
    if HasChild(fs, dir, name, c) {
      var cs := fs.nodes[dir].children;
      var r := Search(fs, cs, name);
      var i :| 0 <= i < |cs| && cs[i] == c;
      assert r.Ok?;
      var j :| 0 <= j < |cs| && cs[j] == r.id;
      assert Unique(fs, dir);
    }
  }

  // ---- Entries of an archive ----------------------------------------------------------------------

  datatype Option<T> = None | Some(value: T)
  datatype Walked = Walked(fs: Fs, at: Found)

  /** Follow the steps, making the directories that are missing. */
  ghost function Walk(fs: Fs, node: Id, steps: seq<string>): (w: Walked)
    requires Tree(fs) && node < |fs.nodes|
    ensures Tree(w.fs) && Grown(fs, w.fs) && SameData(fs, w.fs) && (w.at.Ok? ==> w.at.id < |w.fs.nodes| && Resolve(w.fs, node, steps) == w.at)
    decreases |steps|
  {
    if steps == [] then Walked(fs, Ok(node))
    else
      MkdirKeeps(fs, node, steps[0]);
      var (next, gs) := Enter(fs, node, steps[0]);
      if next.Err? then Walked(gs, next)
      else
        var w := Walk(gs, next.id, steps[1..]);
        GrownTrans(fs, gs, w.fs);
        assert w.at.Ok? ==> Resolve(w.fs, node, steps) == w.at by {
          if w.at.Ok? { LookupGrows(gs, w.fs, node, steps[0]); }
        }
        w
  }

  /** The child directory, made if need be. */
  function Enter(fs: Fs, node: Id, name: string): (Found, Fs)
    requires WellFormed(fs) && node < |fs.nodes|
  {
    var there := Lookup(fs, node, name);
    if there.Ok? then (there, fs) else Mkdir(fs, node, name)
  }

  function Dirs(path: string): seq<string> { Split(path)[..|Split(path)| - 1] }
  function Leaf(path: string): string { Split(path)[|Split(path)| - 1] }

  predicate IsDirectoryMode(mode: nat) { mode / 0x1000 % 16 == 4 }
  predicate IsRegularMode(mode: nat) { mode / 0x1000 % 16 == 8 }

  /** The file type is in bits 12 to 15 of the mode: 4 for directories, 8 for regular files. */
  lemma ModeTypes(type': nat, permissions: nat, high: nat)
    requires type' < 16 && permissions < 0x1000
    ensures IsDirectoryMode(permissions + 0x1000 * type' + 0x1_0000 * high) <==> type' == 4
    ensures IsRegularMode(permissions + 0x1000 * type' + 0x1_0000 * high) <==> type' == 8
  {}

  function Filled(fs: Fs, id: Id, data: seq<byte>): Fs
    requires id < |fs.nodes|
  {
    fs.(nodes := fs.nodes[id := fs.nodes[id].(data := data)])
  }

  /** One entry: directories on the way are made as needed; the result names a file newly made.  `fits`
      says whether there is memory for the data; if not the file stays empty. */
  ghost function CreateEntry(fs: Fs, root: Id, path: string, mode: nat, data: seq<byte>, fits: bool): (Option<Id>, Fs)
    requires Tree(fs) && root < |fs.nodes|
  {
    if path == "." then (None, fs)
    else
      var w := Walk(fs, root, Steps(Dirs(path)));
      if w.at.Err? || Leaf(path) == "" then (None, w.fs)
      else Place(w.fs, w.at.id, Leaf(path), mode, if fits then data else [])
  }

  /** The entry itself, by mode; other modes are ignored. */
  function Place(fs: Fs, dir: Id, leaf: string, mode: nat, data: seq<byte>): (Option<Id>, Fs)
    requires WellFormed(fs) && dir < |fs.nodes|
  {
    if IsDirectoryMode(mode) then (None, Mkdir(fs, dir, leaf).1)
    else if IsRegularMode(mode) then
      var (r, gs) := Create(fs, dir, leaf);
      if r.Err? then (None, gs) else (Some(r.id), Filled(gs, r.id, data))
    else (None, fs)
  }

  lemma FilledKeeps(fs: Fs, id: Id, data: seq<byte>)
    requires Tree(fs) && id < |fs.nodes|
    ensures Tree(Filled(fs, id, data)) && Grown(fs, Filled(fs, id, data))
  {
    var gs := Filled(fs, id, data);
    forall d | 0 <= d < |gs.nodes| ensures Inside(gs, gs.nodes[d].children) { assert Inside(fs, fs.nodes[d].children); }
    forall d | 0 <= d < |gs.nodes| ensures Unique(gs, d) {
      assert Unique(fs, d);
      SameNames(fs, gs, fs.nodes[d].children);
    }
  }

  lemma GrownSelf(fs: Fs)
    ensures Grown(fs, fs)
  {
    forall i | 0 <= i < |fs.nodes| ensures Kept(fs.nodes[i], fs.nodes[i]) {}
  }

  lemma PlaceKeeps(fs: Fs, dir: Id, leaf: string, mode: nat, data: seq<byte>)
    requires Tree(fs) && dir < |fs.nodes|
    ensures var (made, gs) := Place(fs, dir, leaf, mode, data);
      && Tree(gs) && Grown(fs, gs) && SameData(fs, gs)
      && (made.Some? ==>
        made.value == |fs.nodes| < |gs.nodes| && gs.nodes[made.value] == Node(Regular, leaf, [], data) && Lookup(gs, dir, leaf) == Ok(made.value))
  {
    GrownSelf(fs);
    MkdirKeeps(fs, dir, leaf);
    CreateKeeps(fs, dir, leaf);
    var (r, gs) := Create(fs, dir, leaf);
    if r.Ok? {
      FilledKeeps(gs, r.id, data);
      GrownTrans(fs, gs, Filled(gs, r.id, data));
      LookupGrows(gs, Filled(gs, r.id, data), dir, leaf);
    }
  }

  lemma EntryGrows(fs: Fs, root: Id, path: string, mode: nat, data: seq<byte>, fits: bool)
    requires Tree(fs) && root < |fs.nodes|
    ensures var (made, gs) := CreateEntry(fs, root, path, mode, data, fits);
      Tree(gs) && Grown(fs, gs) && SameData(fs, gs) && (made.Some? ==> |fs.nodes| <= made.value < |gs.nodes|)
  {
    if path == "." {
      GrownSelf(fs);
    } else {
      var w := Walk(fs, root, Steps(Dirs(path)));
      if w.at.Ok? && Leaf(path) != "" {
        var d := if fits then data else [];
        PlaceKeeps(w.fs, w.at.id, Leaf(path), mode, d);
        GrownTrans(fs, w.fs, Place(w.fs, w.at.id, Leaf(path), mode, d).1);
      }
    }
  }

  /** An entry keeps sibling names unique, and every node there was, with its name, kind, data and
      children; so every path that resolved before resolves to the same node. */
  lemma EntryKeeps(fs: Fs, root: Id, path: string, mode: nat, data: seq<byte>, fits: bool, other: seq<string>)
    requires Tree(fs) && root < |fs.nodes|
    ensures var (made, gs) := CreateEntry(fs, root, path, mode, data, fits);
      && Tree(gs) && Grown(fs, gs) && SameData(fs, gs)
      && (made.Some? ==> |fs.nodes| <= made.value < |gs.nodes|)
      && (Resolve(fs, root, other).Ok? ==> Resolve(gs, root, other) == Resolve(fs, root, other))
  {
    var (made, gs) := CreateEntry(fs, root, path, mode, data, fits);
    EntryGrows(fs, root, path, mode, data, fits);
    if Resolve(fs, root, other).Ok? { ResolveGrows(fs, gs, root, other); }
  }

  /** A path is its directories and its leaf. */
  lemma ComponentsOf(path: string)
    ensures Components(path) == Steps(Dirs(path)) + (if Names(Leaf(path)) then [Leaf(path)] else [])
  {
    assert Split(path) == Dirs(path) + [Leaf(path)];
    StepsAppend(Dirs(path), [Leaf(path)]);
  }

  /** When an entry makes a new file, the file holds the data, and its path resolves to it if and only if
      the last part of the path is not ".". */
  lemma EntryResolves(fs: Fs, root: Id, path: string, mode: nat, data: seq<byte>, fits: bool)
    requires Tree(fs) && root < |fs.nodes| && CreateEntry(fs, root, path, mode, data, fits).0.Some?
    ensures var (made, gs) := CreateEntry(fs, root, path, mode, data, fits);
      && Tree(gs) && |fs.nodes| <= made.value < |gs.nodes|
      && gs.nodes[made.value] == Node(Regular, Leaf(path), [], if fits then data else [])
      && (Resolve(gs, root, Components(path)) == Ok(made.value) <==> Leaf(path) != ".")
  {
    var (made, gs) := CreateEntry(fs, root, path, mode, data, fits);
    var w := Walk(fs, root, Steps(Dirs(path)));
    var leaf := Leaf(path);
    EntryGrows(fs, root, path, mode, data, fits);
    PlaceKeeps(w.fs, w.at.id, leaf, mode, if fits then data else []);
    ResolveGrows(w.fs, gs, root, Steps(Dirs(path)));
    ComponentsOf(path);
    if leaf == "." {
      assert Components(path) == Steps(Dirs(path));
    } else {
      ResolveAppend(gs, root, Steps(Dirs(path)), [leaf]);
      assert [leaf][1..] == [];
    }
  }

  // ---- Which entries make a file ------------------------------------------------------------------

  /** Every node on the way, as far as the steps lead, is a directory. */
  predicate Passable(fs: Fs, node: Id, steps: seq<string>)
    requires WellFormed(fs) && node < |fs.nodes|
    decreases |steps|
  {
    && fs.nodes[node].kind == Directory
    && (steps != [] && Lookup(fs, node, steps[0]).Ok? ==> Passable(fs, Lookup(fs, node, steps[0]).id, steps[1..]))
  }

  /** In terms of paths: whatever a prefix of the steps resolves to is a directory. */
  lemma {:induction false} PassableIff(fs: Fs, node: Id, steps: seq<string>)
    requires WellFormed(fs) && node < |fs.nodes|
    ensures Passable(fs, node, steps) <==>
      forall k :: 0 <= k <= |steps| && Resolve(fs, node, steps[..k]).Ok? ==> fs.nodes[Resolve(fs, node, steps[..k]).id].kind == Directory
    decreases |steps|
  {
    assert steps[..0] == [] && Resolve(fs, node, steps[..0]) == Ok(node);
    if steps != [] {
      var next := Lookup(fs, node, steps[0]);
      if next.Ok? { PassableIff(fs, next.id, steps[1..]); }
      forall k | 1 <= k <= |steps|
        ensures Resolve(fs, node, steps[..k]) == if next.Ok? then Resolve(fs, next.id, steps[1..][..k - 1]) else next
      {
        assert steps[..k][0] == steps[0] && steps[..k][1..] == steps[1..][..k - 1];
      }
      if next.Ok? {
        forall k | 0 <= k <= |steps| - 1 ensures Resolve(fs, next.id, steps[1..][..k]) == Resolve(fs, node, steps[..k + 1]) {
          assert 1 <= k + 1 <= |steps|;
        }
      }
    }
  }

  /** How many directories are missing: the steps after the longest part that resolves. */
  function Missing(fs: Fs, node: Id, steps: seq<string>): nat
    requires WellFormed(fs) && node < |fs.nodes|
    decreases |steps|
  {
    if steps == [] then 0
    else if Lookup(fs, node, steps[0]).Ok? then Missing(fs, Lookup(fs, node, steps[0]).id, steps[1..])
    else |steps|
  }

  /** No step is missing exactly when the steps resolve. */
  lemma {:induction false} MissingNone(fs: Fs, node: Id, steps: seq<string>)
    requires WellFormed(fs) && node < |fs.nodes|
    ensures Missing(fs, node, steps) == 0 <==> Resolve(fs, node, steps).Ok?
    decreases |steps|
  {
    if steps != [] && Lookup(fs, node, steps[0]).Ok? { MissingNone(fs, Lookup(fs, node, steps[0]).id, steps[1..]); }
  }

  /** From a directory without children everything is missing, and nothing is in the way. */
  lemma EmptyDirectory(fs: Fs, node: Id, steps: seq<string>)
    requires WellFormed(fs) && node < |fs.nodes| && fs.nodes[node].kind == Directory && fs.nodes[node].children == []
    ensures Passable(fs, node, steps) && Missing(fs, node, steps) == |steps|
  {}

  /** The walk reaches a directory if and only if no file is in the way and there is room for the
      directories that are missing; it uses exactly that room. */
  lemma {:induction false} WalkIff(fs: Fs, node: Id, steps: seq<string>)
    requires Tree(fs) && node < |fs.nodes|
    ensures var w := Walk(fs, node, steps);
      var ok := w.at.Ok? && w.fs.nodes[w.at.id].kind == Directory;
      && (ok <==> Passable(fs, node, steps) && Missing(fs, node, steps) <= fs.room)
      && (ok ==> w.fs.room == fs.room - Missing(fs, node, steps))
      && (ok && Missing(fs, node, steps) == 0 ==> w.fs == fs && w.at == Resolve(fs, node, steps))
      && (ok && Missing(fs, node, steps) > 0 ==> w.fs.nodes[w.at.id].children == [])
    decreases |steps|
  {
    if steps != [] {
      MkdirKeeps(fs, node, steps[0]);
      var there := Lookup(fs, node, steps[0]);
      if there.Ok? {
        WalkIff(fs, there.id, steps[1..]);
      } else {
        SearchFinds(fs, fs.nodes[node].children, steps[0]);
        var (next, gs) := Mkdir(fs, node, steps[0]);
        if next.Ok? {
          EmptyDirectory(gs, next.id, steps[1..]);
          WalkIff(gs, next.id, steps[1..]);
        }
      }
    }
  }

  /** Can a file be made at the path: its directories are there or can be made, and the name is free? */
  ghost predicate CanMake(fs: Fs, root: Id, path: string)
    requires WellFormed(fs) && root < |fs.nodes|
  {
    var dirs := Steps(Dirs(path));
    && path != "." && Leaf(path) != ""
    && Passable(fs, root, dirs) && Missing(fs, root, dirs) < fs.room
    && !Resolve(fs, root, dirs + [Leaf(path)]).Ok?
  }

  lemma ResolveLeaf(fs: Fs, node: Id, dirs: seq<string>, leaf: string)
    requires WellFormed(fs) && node < |fs.nodes|
    ensures var d := Resolve(fs, node, dirs);
      Resolve(fs, node, dirs + [leaf]) == if d.Ok? then Lookup(fs, d.id, leaf) else d
    decreases |dirs|
  {
    if dirs == [] {
      assert dirs + [leaf] == [leaf] && [leaf][1..] == [];
    } else {
      assert (dirs + [leaf])[0] == dirs[0] && (dirs + [leaf])[1..] == dirs[1..] + [leaf];
      var next := Lookup(fs, node, dirs[0]);
      if next.Ok? { ResolveLeaf(fs, next.id, dirs[1..], leaf); }
    }
  }

  /** An entry makes a file if and only if it is a regular file's and one can be made at its path. */
  lemma MakesFileIff(fs: Fs, root: Id, path: string, mode: nat, data: seq<byte>, fits: bool)
    requires Tree(fs) && root < |fs.nodes|
    ensures CreateEntry(fs, root, path, mode, data, fits).0.Some? <==> IsRegularMode(mode) && CanMake(fs, root, path)
  {
    var dirs, leaf := Steps(Dirs(path)), Leaf(path);
    WalkIff(fs, root, dirs);
    MissingNone(fs, root, dirs);
    ResolveLeaf(fs, root, dirs, leaf);
    if path != "." && leaf != "" {
      var w := Walk(fs, root, dirs);
      if w.at.Ok? { CreateIff(w.fs, w.at.id, leaf); }
    }
  }

  lemma CreateIff(fs: Fs, dir: Id, name: string)
    requires Tree(fs) && dir < |fs.nodes|
    ensures Create(fs, dir, name).0.Ok? <==> fs.nodes[dir].kind == Directory && fs.room > 0 && !Lookup(fs, dir, name).Ok?
  {
    SearchFinds(fs, fs.nodes[dir].children, name);
  }
}

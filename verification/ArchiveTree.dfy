/** Which entries of an archive become files, in terms of the archive and the tree it is loaded into.
    Trees are compared by the paths that lead somewhere in them. */
module ArchiveTree {
  import opened TreeModel
  import opened CpioModel

  type Path = seq<string>

  // ---- Paths and nodes ------------------------------------------------------------------------------

  /** Every node is listed in at most one directory, and the root in none. */
  ghost predicate Forest(fs: Fs, root: Id) {
    && (forall d, e, c :: 0 <= d < |fs.nodes| && 0 <= e < |fs.nodes| && c in fs.nodes[d].children && c in fs.nodes[e].children ==> d == e)
    && (forall d :: 0 <= d < |fs.nodes| ==> root !in fs.nodes[d].children)
  }

  /** The last step of a path that leads somewhere. */
  lemma LastStep(fs: Fs, root: Id, p: Path) returns (dir: Id)
    requires WellFormed(fs) && root < |fs.nodes| && p != [] && Resolve(fs, root, p).Ok?
    ensures Resolve(fs, root, p[..|p| - 1]) == Ok(dir) && Lookup(fs, dir, p[|p| - 1]) == Resolve(fs, root, p)
    ensures dir < |fs.nodes| && Resolve(fs, root, p).id in fs.nodes[dir].children
    ensures fs.nodes[Resolve(fs, root, p).id].name == p[|p| - 1]
  {
    var q, s := p[..|p| - 1], p[|p| - 1];
    assert p == q + [s];
    ResolveLeaf(fs, root, q, s);
    dir := Resolve(fs, root, q).id;
    SearchFinds(fs, fs.nodes[dir].children, s);
  }

  /** Only one path leads to a node. */
  lemma {:induction false} OnePath(fs: Fs, root: Id, p: Path, q: Path)
    requires WellFormed(fs) && Forest(fs, root) && root < |fs.nodes|
    requires Resolve(fs, root, p).Ok? && Resolve(fs, root, p) == Resolve(fs, root, q)
    ensures p == q
    decreases |p|
  {
    if p != [] { var d := LastStep(fs, root, p); }
    if q != [] { var d := LastStep(fs, root, q); }
    if p != [] && q != [] {
      OnePath(fs, root, p[..|p| - 1], q[..|q| - 1]);
      assert p == p[..|p| - 1] + [p[|p| - 1]] && q == q[..|q| - 1] + [q[|q| - 1]];
    }
  }

  /** Every part of a path that leads somewhere leads somewhere. */
  lemma PartResolves(fs: Fs, root: Id, p: Path, k: nat)
    requires WellFormed(fs) && root < |fs.nodes| && k <= |p| && Resolve(fs, root, p).Ok?
    ensures Resolve(fs, root, p[..k]).Ok?
    decreases |p|
  {
    if k == |p| {
      assert p[..k] == p;
    } else {
      var d := LastStep(fs, root, p);
      PartResolves(fs, root, p[..|p| - 1], k);
      assert p[..|p| - 1][..k] == p[..k];
    }
  }

  // ---- One more node --------------------------------------------------------------------------------

  lemma {:induction false} SearchSame(fs: Fs, gs: Fs, cs: seq<Id>, name: string)
    requires |fs.nodes| <= |gs.nodes| && (forall i :: 0 <= i < |fs.nodes| ==> gs.nodes[i].name == fs.nodes[i].name) && Inside(fs, cs)
    ensures Search(gs, cs, name) == Search(fs, cs, name)
  {
    if cs != [] { SearchSame(fs, gs, cs[1..], name); }
  }

  /** A new last child is found under its own name only. */
  lemma {:induction false} SearchOther(gs: Fs, cs: seq<Id>, last: Id, name: string)
    requires Inside(gs, cs) && last < |gs.nodes| && gs.nodes[last].name != name
    ensures Search(gs, cs + [last], name) == Search(gs, cs, name)
  {
    if cs != [] {
      assert (cs + [last])[1..] == cs[1..] + [last];
      SearchOther(gs, cs[1..], last, name);
    } else {
      assert [] + [last] == [last] && [last][1..] == [];
    }
  }

  lemma LookupAdded(fs: Fs, dir: Id, n: Node, at: Id, name: string)
    requires Tree(fs) && dir < |fs.nodes| && Lookup(fs, dir, n.name) == Err(ENOENT) && n.children == []
    requires at <= |fs.nodes|
    ensures WellFormed(Added(fs, dir, n)) && |Added(fs, dir, n).nodes| == |fs.nodes| + 1
    ensures Lookup(Added(fs, dir, n), at, name).Ok? <==>
      at < |fs.nodes| && (Lookup(fs, at, name).Ok? || (at == dir && name == n.name))
  {
    var gs := Added(fs, dir, n);
    AddedKeeps(fs, dir, n);
    AddedWellFormed(fs, dir, n);
    if at < |fs.nodes| {
      SearchSame(fs, gs, fs.nodes[at].children, name);
      if at == dir && name != n.name { SearchOther(gs, fs.nodes[dir].children, |fs.nodes|, name); }
    }
  }

  lemma AddedForest(fs: Fs, root: Id, dir: Id, n: Node)
    requires WellFormed(fs) && Forest(fs, root) && root < |fs.nodes| && dir < |fs.nodes| && n.children == []
    ensures Forest(Added(fs, dir, n), root)
  {
    var gs := Added(fs, dir, n);
    AddedWellFormed(fs, dir, n);
    forall d | 0 <= d < |gs.nodes|
      ensures forall c :: c in gs.nodes[d].children <==> d < |fs.nodes| && (c in fs.nodes[d].children || (d == dir && c == |fs.nodes|))
    {}
    forall d | 0 <= d < |fs.nodes| ensures |fs.nodes| !in fs.nodes[d].children { assert Inside(fs, fs.nodes[d].children); }
  }

  /** A root alone is such a tree, and the two calls that make nodes keep it one. */
  lemma ForestKept(fs: Fs, root: Id, dir: Id, name: string)
    requires Tree(fs) && Forest(fs, root) && root < |fs.nodes| && dir < |fs.nodes|
    ensures Forest(Create(fs, dir, name).1, root) && Forest(Mkdir(fs, dir, name).1, root)
    ensures forall n: Node, room: nat :: n.children == [] ==> Forest(Fs([n], room), 0)
  {
    AddedForest(fs, root, dir, Node(Regular, name, [], []));
    AddedForest(fs, root, dir, Node(Directory, name, [], []));
  }

  /** With a new node, exactly one more path leads somewhere. */
  lemma {:induction false} AddedResolves(fs: Fs, root: Id, p: Path, n: Node, q: Path)
    requires Tree(fs) && Forest(fs, root) && root < |fs.nodes| && Resolve(fs, root, p).Ok?
    requires Lookup(fs, Resolve(fs, root, p).id, n.name) == Err(ENOENT) && n.children == []
    ensures var gs := Added(fs, Resolve(fs, root, p).id, n);
      && Tree(gs) && (Resolve(gs, root, q).Ok? <==> Resolve(fs, root, q).Ok? || q == p + [n.name])
      && Resolve(gs, root, p + [n.name]) == Ok(|fs.nodes|)
    decreases |q|
  {
    var dir := Resolve(fs, root, p).id;
    var gs := Added(fs, dir, n);
    AddedKeeps(fs, dir, n);
    ResolveGrows(fs, gs, root, p);
    ResolveLeaf(gs, root, p, n.name);
    ResolveLeaf(fs, root, p, n.name);
    if q != [] {
      var front, s := q[..|q| - 1], q[|q| - 1];
      assert q == front + [s];
      AddedResolves(fs, root, p, n, front);
      ResolveLeaf(fs, root, front, s);
      ResolveLeaf(gs, root, front, s);
      if Resolve(fs, root, front).Ok? {
        ResolveGrows(fs, gs, root, front);
        var at := Resolve(fs, root, front).id;
        LookupAdded(fs, dir, n, at, s);
        if at == dir { OnePath(fs, root, p, front); }
      } else if front == p + [n.name] {
        LookupAdded(fs, dir, n, |fs.nodes|, s);
      }
    }
  }

  // ---- What a tree gains ----------------------------------------------------------------------------

  ghost predicate IsDirectory(fs: Fs, root: Id, q: Path)
    requires WellFormed(fs) && root < |fs.nodes|
  {
    Resolve(fs, root, q).Ok? && fs.nodes[Resolve(fs, root, q).id].kind == Directory
  }

  /** The paths `add` are new; those in `files` lead to files and the others to directories, and each took one
      node.  All else is as before. */
  ghost predicate Gains(fs: Fs, gs: Fs, root: Id, add: set<Path>, files: set<Path>) {
    && Tree(fs) && Tree(gs) && Grown(fs, gs) && Forest(gs, root) && root < |fs.nodes| && files <= add
    && (forall q :: Resolve(gs, root, q).Ok? <==> Resolve(fs, root, q).Ok? || q in add)
    && (forall q :: q in add ==> !Resolve(fs, root, q).Ok? && (IsDirectory(gs, root, q) <==> q !in files))
    && gs.room + |add| == fs.room
  }

  lemma GainsNothing(fs: Fs, root: Id)
    requires Tree(fs) && Forest(fs, root) && root < |fs.nodes|
    ensures Gains(fs, fs, root, {}, {})
  {
    GrownSelf(fs);
  }

  /** A path that leads somewhere keeps leading to the same kind of node. */
  lemma KeepsKind(fs: Fs, gs: Fs, root: Id, q: Path)
    requires Tree(fs) && Tree(gs) && Grown(fs, gs) && root < |fs.nodes| && Resolve(fs, root, q).Ok?
    ensures Resolve(gs, root, q) == Resolve(fs, root, q) && (IsDirectory(gs, root, q) <==> IsDirectory(fs, root, q))
  {
    ResolveGrows(fs, gs, root, q);
    assert Kept(fs.nodes[Resolve(fs, root, q).id], gs.nodes[Resolve(fs, root, q).id]);
  }

  lemma GainsTrans(a: Fs, b: Fs, c: Fs, root: Id, x: set<Path>, f: set<Path>, y: set<Path>, g: set<Path>)
    requires Gains(a, b, root, x, f) && Gains(b, c, root, y, g)
    ensures Gains(a, c, root, x + y, f + g)
  {
    GrownTrans(a, b, c);
    assert x !! y;
    forall q | q in x + y ensures !Resolve(a, root, q).Ok? && (IsDirectory(c, root, q) <==> q !in f + g) {
      if q in x { KeepsKind(b, c, root, q); }
    }
    assert |x + y| == |x| + |y|;
  }

  lemma AddedGains(fs: Fs, root: Id, p: Path, n: Node)
    requires Tree(fs) && Forest(fs, root) && root < |fs.nodes| && Resolve(fs, root, p).Ok? && fs.room > 0
    requires Lookup(fs, Resolve(fs, root, p).id, n.name) == Err(ENOENT) && n.children == []
    ensures var q := p + [n.name];
      Gains(fs, Added(fs, Resolve(fs, root, p).id, n), root, {q}, if n.kind == Directory then {} else {q})
  {
    var dir, last := Resolve(fs, root, p).id, p + [n.name];
    var gs := Added(fs, dir, n);
    AddedKeeps(fs, dir, n);
    AddedForest(fs, root, dir, n);
    forall q: Path ensures Resolve(gs, root, q).Ok? <==> Resolve(fs, root, q).Ok? || q == last {
      AddedResolves(fs, root, p, n, q);
    }
    AddedResolves(fs, root, p, n, last);
    ResolveLeaf(fs, root, p, n.name);
    assert IsDirectory(gs, root, last) <==> n.kind == Directory;
  }

  /** The parts of a path that lead nowhere. */
  ghost function Fresh(fs: Fs, root: Id, p: Path): set<Path>
    requires WellFormed(fs) && root < |fs.nodes|
  {
    set k: nat | k <= |p| && !Resolve(fs, root, p[..k]).Ok? :: p[..k]
  }

  lemma FreshNone(fs: Fs, root: Id, p: Path)
    requires WellFormed(fs) && root < |fs.nodes| && Resolve(fs, root, p).Ok?
    ensures Fresh(fs, root, p) == {}
  {
    forall k: nat | k <= |p| ensures Resolve(fs, root, p[..k]).Ok? { PartResolves(fs, root, p, k); }
  }

  lemma FreshAfter(fs: Fs, gs: Fs, root: Id, add: set<Path>, files: set<Path>, p: Path)
    requires Gains(fs, gs, root, add, files)
    ensures Fresh(gs, root, p) == Fresh(fs, root, p) - add
  {}

  lemma FreshLeaf(fs: Fs, root: Id, p: Path, leaf: string)
    requires WellFormed(fs) && root < |fs.nodes|
    ensures Fresh(fs, root, p + [leaf]) == Fresh(fs, root, p) + (if Resolve(fs, root, p + [leaf]).Ok? then {} else {p + [leaf]})
    ensures p + [leaf] !in Fresh(fs, root, p)
  {
    var q := p + [leaf];
    assert q[..|q|] == q;
    forall k: nat | k <= |p| ensures q[..k] == p[..k] {}
    forall x | x in Fresh(fs, root, q) ensures x in Fresh(fs, root, p) || x == q {
      var k: nat :| k <= |q| && x == q[..k] && !Resolve(fs, root, q[..k]).Ok?;
      if k <= |p| { assert q[..k] == p[..k]; }
    }
    forall x | x in Fresh(fs, root, p) ensures x in Fresh(fs, root, q) {
      var k: nat :| k <= |p| && x == p[..k] && !Resolve(fs, root, p[..k]).Ok?;
      assert q[..k] == p[..k];
    }
  }

  /** Past a part that leads nowhere every further part leads nowhere. */
  lemma {:induction false} FreshBeyond(fs: Fs, root: Id, p: Path, more: Path)
    requires WellFormed(fs) && root < |fs.nodes| && !Resolve(fs, root, p).Ok?
    ensures |Fresh(fs, root, p + more)| == |Fresh(fs, root, p)| + |more|
    decreases |more|
  {
    if more == [] {
      assert p + more == p;
    } else {
      var front, s := more[..|more| - 1], more[|more| - 1];
      assert p + more == (p + front) + [s];
      FreshBeyond(fs, root, p, front);
      FreshLeaf(fs, root, p + front, s);
      assert (p + more)[..|p|] == p;
      if Resolve(fs, root, p + more).Ok? { PartResolves(fs, root, p + more, |p|); }
    }
  }

  lemma {:induction false} FreshSize(fs: Fs, root: Id, p: Path, steps: Path)
    requires WellFormed(fs) && root < |fs.nodes| && Resolve(fs, root, p).Ok?
    ensures |Fresh(fs, root, p + steps)| == Missing(fs, Resolve(fs, root, p).id, steps)
    decreases |steps|
  {
    if steps == [] {
      assert p + steps == p;
      FreshNone(fs, root, p);
    } else {
      var q := p + [steps[0]];
      assert p + steps == q + steps[1..];
      ResolveLeaf(fs, root, p, steps[0]);
      if Resolve(fs, root, q).Ok? {
        FreshSize(fs, root, q, steps[1..]);
      } else {
        FreshNone(fs, root, p);
        FreshLeaf(fs, root, p, steps[0]);
        FreshBeyond(fs, root, q, steps[1..]);
      }
    }
  }

  // ---- What a walk gains ----------------------------------------------------------------------------

  /** The walk makes the first directory that is missing, and goes on there. */
  lemma FirstMissing(fs: Fs, root: Id, p: Path, steps: Path) returns (gs: Fs)
    requires Tree(fs) && Forest(fs, root) && root < |fs.nodes| && Resolve(fs, root, p).Ok? && fs.room > 0 && steps != []
    requires var node := Resolve(fs, root, p).id; fs.nodes[node].kind == Directory && Lookup(fs, node, steps[0]).Err?
    ensures Gains(fs, gs, root, {p + [steps[0]]}, {}) && |gs.nodes| == |fs.nodes| + 1 && Resolve(gs, root, p + [steps[0]]) == Ok(|fs.nodes|)
    ensures Passable(gs, |fs.nodes|, steps[1..]) && Missing(gs, |fs.nodes|, steps[1..]) == |steps| - 1
    ensures Walk(fs, Resolve(fs, root, p).id, steps) == Walk(gs, |fs.nodes|, steps[1..])
    ensures var q := p + [steps[0]];
      Fresh(fs, root, p + steps) == {q} + Fresh(gs, root, p + steps) && q !in Fresh(gs, root, p + steps)
  {
    var node, n, q := Resolve(fs, root, p).id, Node(Directory, steps[0], [], []), p + [steps[0]];
    SearchFinds(fs, fs.nodes[node].children, steps[0]);
    gs := Added(fs, node, n);
    AddedGains(fs, root, p, n);
    AddedResolves(fs, root, p, n, q);
    EmptyDirectory(gs, |fs.nodes|, steps[1..]);
    FreshAfter(fs, gs, root, {q}, {}, p + steps);
    assert (p + steps)[..|q|] == q;
  }

  /** The walk gains exactly the parts of the path that led nowhere, as directories. */
  lemma {:induction false} WalkGains(fs: Fs, root: Id, p: Path, steps: Path)
    requires Tree(fs) && Forest(fs, root) && root < |fs.nodes| && Resolve(fs, root, p).Ok?
    requires var node := Resolve(fs, root, p).id; Passable(fs, node, steps) && Missing(fs, node, steps) <= fs.room
    ensures var node := Resolve(fs, root, p).id;
      Gains(fs, Walk(fs, node, steps).fs, root, Fresh(fs, root, p + steps), {})
    decreases |steps|
  {
    var node := Resolve(fs, root, p).id;
    if steps == [] {
      assert p + steps == p;
      FreshNone(fs, root, p);
      GainsNothing(fs, root);
    } else {
      var q := p + [steps[0]];
      assert p + steps == q + steps[1..];
      ResolveLeaf(fs, root, p, steps[0]);
      var there := Lookup(fs, node, steps[0]);
      if there.Ok? {
        WalkGains(fs, root, q, steps[1..]);
      } else {
        var gs := FirstMissing(fs, root, p, steps);
        WalkGains(gs, root, q, steps[1..]);
        GainsTrans(fs, gs, Walk(gs, |fs.nodes|, steps[1..]).fs, root, {q}, {}, Fresh(gs, root, p + steps), {});
      }
    }
  }

  /** A walk into a file makes nothing. */
  lemma {:induction false} WalkBlocked(fs: Fs, node: Id, steps: Path)
    requires Tree(fs) && node < |fs.nodes| && !Passable(fs, node, steps)
    ensures var w := Walk(fs, node, steps); w.fs == fs && (w.at.Ok? ==> fs.nodes[w.at.id].kind != Directory)
    decreases |steps|
  {
    if steps != [] && Lookup(fs, node, steps[0]).Ok? { WalkBlocked(fs, Lookup(fs, node, steps[0]).id, steps[1..]); }
  }

  /** A walk short of room uses it up. */
  lemma {:induction false} WalkShort(fs: Fs, node: Id, steps: Path)
    requires Tree(fs) && node < |fs.nodes| && Passable(fs, node, steps) && Missing(fs, node, steps) > fs.room
    ensures Walk(fs, node, steps).at.Err? && Walk(fs, node, steps).fs.room == 0
    decreases |steps|
  {
    if steps != [] {
      var there := Lookup(fs, node, steps[0]);
      if there.Ok? {
        WalkShort(fs, there.id, steps[1..]);
      } else if fs.room > 0 {
        SearchFinds(fs, fs.nodes[node].children, steps[0]);
        var (next, gs) := Mkdir(fs, node, steps[0]);
        MkdirKeeps(fs, node, steps[0]);
        EmptyDirectory(gs, next.id, steps[1..]);
        WalkShort(gs, next.id, steps[1..]);
      } else {
        SearchFinds(fs, fs.nodes[node].children, steps[0]);
      }
    }
  }

  lemma {:induction false} WalkRoom(fs: Fs, node: Id, steps: Path)
    requires Tree(fs) && node < |fs.nodes|
    ensures Walk(fs, node, steps).fs.room <= fs.room
    decreases |steps|
  {
    if steps != [] {
      MkdirKeeps(fs, node, steps[0]);
      var (next, gs) := Enter(fs, node, steps[0]);
      if next.Ok? { WalkRoom(gs, next.id, steps[1..]); }
    }
  }

  // ---- What an entry gains --------------------------------------------------------------------------

  lemma {:induction false} FilledResolves(fs: Fs, node: Id, q: Path, id: Id, data: seq<byte>)
    requires WellFormed(fs) && id < |fs.nodes| && WellFormed(Filled(fs, id, data)) && node < |fs.nodes|
    ensures Resolve(Filled(fs, id, data), node, q) == Resolve(fs, node, q)
    decreases |q|
  {
    if q != [] {
      SearchSame(fs, Filled(fs, id, data), fs.nodes[node].children, q[0]);
      var next := Lookup(fs, node, q[0]);
      if next.Ok? { FilledResolves(fs, next.id, q[1..], id, data); }
    }
  }

  lemma FilledGains(fs: Fs, gs: Fs, root: Id, add: set<Path>, files: set<Path>, id: Id, data: seq<byte>)
    requires Gains(fs, gs, root, add, files) && id < |gs.nodes|
    ensures Gains(fs, Filled(gs, id, data), root, add, files)
  {
    var hs := Filled(gs, id, data);
    FilledKeeps(gs, id, data);
    GrownTrans(fs, gs, hs);
    assert Forest(hs, root) by {
      assert forall d :: 0 <= d < |gs.nodes| ==> hs.nodes[d].children == gs.nodes[d].children;
    }
    forall q: Path ensures Resolve(hs, root, q) == Resolve(gs, root, q) { FilledResolves(gs, root, q, id, data); }
  }

  /** The path of the node that placing an entry is to make, if there is none. */
  ghost function Lacks(fs: Fs, root: Id, dirs: Path, leaf: string, mode: nat): set<Path>
    requires WellFormed(fs) && root < |fs.nodes|
  {
    if (IsRegularMode(mode) || IsDirectoryMode(mode)) && !Resolve(fs, root, dirs + [leaf]).Ok? then {dirs + [leaf]} else {}
  }

  /** The same, if it is to be a file. */
  ghost function LacksFile(fs: Fs, root: Id, dirs: Path, leaf: string, mode: nat): set<Path>
    requires WellFormed(fs) && root < |fs.nodes|
  {
    if IsRegularMode(mode) then Lacks(fs, root, dirs, leaf, mode) else {}
  }

  lemma PlaceGains(fs: Fs, root: Id, p: Path, leaf: string, mode: nat, data: seq<byte>)
    requires Tree(fs) && Forest(fs, root) && root < |fs.nodes| && IsDirectory(fs, root, p) && |Lacks(fs, root, p, leaf, mode)| <= fs.room
    ensures Gains(fs, Place(fs, Resolve(fs, root, p).id, leaf, mode, data).1, root, Lacks(fs, root, p, leaf, mode), LacksFile(fs, root, p, leaf, mode))
  {
    var dir := Resolve(fs, root, p).id;
    GainsNothing(fs, root);
    ResolveLeaf(fs, root, p, leaf);
    SearchFinds(fs, fs.nodes[dir].children, leaf);
    if !Resolve(fs, root, p + [leaf]).Ok? {
      if IsRegularMode(mode) {
        AddedGains(fs, root, p, Node(Regular, leaf, [], []));
        FilledGains(fs, Added(fs, dir, Node(Regular, leaf, [], [])), root, {p + [leaf]}, {p + [leaf]}, |fs.nodes|, data);
      } else if IsDirectoryMode(mode) {
        AddedGains(fs, root, p, Node(Directory, leaf, [], []));
      }
    }
  }

  lemma PlaceShort(fs: Fs, dir: Id, leaf: string, mode: nat, data: seq<byte>)
    requires Tree(fs) && dir < |fs.nodes| && fs.room == 0
    ensures Place(fs, dir, leaf, mode, data).1.room == 0
  {}

  /** An entry with its path taken apart. */
  ghost function LoadAt(fs: Fs, root: Id, dirs: Path, leaf: string, mode: nat, data: seq<byte>): (Option<Id>, Fs)
    requires Tree(fs) && root < |fs.nodes|
  {
    var w := Walk(fs, root, dirs);
    if w.at.Err? || leaf == "" then (None, w.fs) else Place(w.fs, w.at.id, leaf, mode, data)
  }

  /** The path it is to leave in the tree. */
  function Goal(dirs: Path, leaf: string, mode: nat): Path {
    if leaf != "" && (IsRegularMode(mode) || IsDirectoryMode(mode)) then dirs + [leaf] else dirs
  }

  /** The walk to an entry's directory. */
  lemma EntryWalks(fs: Fs, root: Id, dirs: Path, leaf: string)
    requires Tree(fs) && Forest(fs, root) && root < |fs.nodes| && Passable(fs, root, dirs) && |Fresh(fs, root, dirs)| <= fs.room
    ensures var w := Walk(fs, root, dirs);
      && Gains(fs, w.fs, root, Fresh(fs, root, dirs), {})
      && w.at.Ok? && Resolve(w.fs, root, dirs) == w.at && IsDirectory(w.fs, root, dirs)
      && (Resolve(w.fs, root, dirs + [leaf]).Ok? <==> Resolve(fs, root, dirs + [leaf]).Ok?)
  {
    assert [] + dirs == dirs && Resolve(fs, root, []) == Ok(root);
    FreshSize(fs, root, [], dirs);
    WalkGains(fs, root, [], dirs);
    WalkIff(fs, root, dirs);
    FreshLeaf(fs, root, dirs, leaf);
  }

  lemma GoalFresh(fs: Fs, root: Id, dirs: Path, leaf: string, mode: nat)
    requires WellFormed(fs) && root < |fs.nodes|
    ensures var f := Fresh(fs, root, dirs);
      var more := if leaf == "" then {} else Lacks(fs, root, dirs, leaf, mode);
      Fresh(fs, root, Goal(dirs, leaf, mode)) == f + more && |f + more| == |f| + |more|
  {
    FreshLeaf(fs, root, dirs, leaf);
  }

  /** With nothing in the way and room enough, an entry gains exactly the parts of its goal that led nowhere. */
  lemma EntryGains(fs: Fs, root: Id, dirs: Path, leaf: string, mode: nat, data: seq<byte>)
    requires Tree(fs) && Forest(fs, root) && root < |fs.nodes| && Passable(fs, root, dirs)
    requires |Fresh(fs, root, Goal(dirs, leaf, mode))| <= fs.room
    ensures Gains(fs, LoadAt(fs, root, dirs, leaf, mode, data).1, root, Fresh(fs, root, Goal(dirs, leaf, mode)),
                  if leaf == "" then {} else LacksFile(fs, root, dirs, leaf, mode))
  {
    GoalFresh(fs, root, dirs, leaf, mode);
    if leaf != "" { PlacedGains(fs, root, dirs, leaf, mode, data); } else { EntryWalks(fs, root, dirs, leaf); }
  }

  lemma PlacedGains(fs: Fs, root: Id, dirs: Path, leaf: string, mode: nat, data: seq<byte>)
    requires Tree(fs) && Forest(fs, root) && root < |fs.nodes| && Passable(fs, root, dirs) && leaf != ""
    requires |Fresh(fs, root, dirs)| + |Lacks(fs, root, dirs, leaf, mode)| <= fs.room
    ensures Gains(fs, LoadAt(fs, root, dirs, leaf, mode, data).1, root, Fresh(fs, root, dirs) + Lacks(fs, root, dirs, leaf, mode), LacksFile(fs, root, dirs, leaf, mode))
  {
    EntryWalks(fs, root, dirs, leaf);
    var w := Walk(fs, root, dirs);
    var more, files := Lacks(fs, root, dirs, leaf, mode), LacksFile(fs, root, dirs, leaf, mode);
    assert Lacks(w.fs, root, dirs, leaf, mode) == more;
    PlaceGains(w.fs, root, dirs, leaf, mode, data);
    assert {} + files == files;
    GainsTrans(fs, w.fs, Place(w.fs, w.at.id, leaf, mode, data).1, root, Fresh(fs, root, dirs), {}, more, files);
  }

  /** With a file in the way an entry changes nothing. */
  lemma EntryBlocked(fs: Fs, root: Id, dirs: Path, leaf: string, mode: nat, data: seq<byte>)
    requires Tree(fs) && root < |fs.nodes| && !Passable(fs, root, dirs)
    ensures LoadAt(fs, root, dirs, leaf, mode, data) == (None, fs)
  {
    WalkBlocked(fs, root, dirs);
  }

  /** Short of room, an entry uses it up. */
  lemma EntryShort(fs: Fs, root: Id, dirs: Path, leaf: string, mode: nat, data: seq<byte>)
    requires Tree(fs) && Forest(fs, root) && root < |fs.nodes| && Passable(fs, root, dirs)
    requires |Fresh(fs, root, Goal(dirs, leaf, mode))| > fs.room
    ensures LoadAt(fs, root, dirs, leaf, mode, data).1.room == 0
  {
    assert [] + dirs == dirs && Resolve(fs, root, []) == Ok(root);
    FreshSize(fs, root, [], dirs);
    GoalFresh(fs, root, dirs, leaf, mode);
    if |Fresh(fs, root, dirs)| > fs.room {
      WalkShort(fs, root, dirs);
    } else {
      EntryWalks(fs, root, dirs, leaf);
      var w := Walk(fs, root, dirs);
      assert |Lacks(fs, root, dirs, leaf, mode)| <= 1;
      PlaceShort(w.fs, w.at.id, leaf, mode, data);
    }
  }

  lemma EntryRoom(fs: Fs, root: Id, dirs: Path, leaf: string, mode: nat, data: seq<byte>)
    requires Tree(fs) && root < |fs.nodes|
    ensures LoadAt(fs, root, dirs, leaf, mode, data).1.room <= fs.room
  {
    WalkRoom(fs, root, dirs);
  }
}

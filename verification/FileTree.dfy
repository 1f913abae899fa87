/** Path resolution and archive entries as the kernel runs them: loops over the path string and over the
    children of directories, proved against the functions of `TreeModel`. */
module FileTree {
  import M = TreeModel
  import opened TreeModel

  class Tree {
    var nodes: seq<Node>
    var room: nat

    function Model(): Fs
      reads this
    {
      Fs(nodes, room)
    }

    constructor (room: nat)
      ensures Model() == Fs([Node(Directory, "", [], [])], room) && M.Tree(Model())
    {
      nodes, this.room := [Node(Directory, "", [], [])], room;
    }

    method Lookup(dir: Id, name: string) returns (r: Found)
      requires WellFormed(Model()) && dir < |nodes|
      ensures r == M.Lookup(Model(), dir, name)
    {
      if nodes[dir].kind != Directory { return Err(ENOTDIR); }
      var children := nodes[dir].children;
      var i := 0;
      while i < |children|
        invariant 0 <= i <= |children| && Inside(Model(), children[i..])
        invariant Search(Model(), children[i..], name) == Search(Model(), children, name)
      {
        if nodes[children[i]].name == name { return Ok(children[i]); }
        assert children[i..][1..] == children[i + 1..];
        i := i + 1;
      }
      r := Err(ENOENT);
    }

    method Append(dir: Id, n: Node) returns (id: Id)
      requires WellFormed(Model()) && dir < |nodes| && room > 0
      modifies this
      ensures id == |old(nodes)| && Model() == Added(old(Model()), dir, n)
    {
      id := |nodes|;
      nodes := nodes[dir := nodes[dir].(children := nodes[dir].children + [id])] + [n];
      room := room - 1;
    }

    method Create(dir: Id, name: string) returns (r: Found)
      requires WellFormed(Model()) && dir < |nodes|
      modifies this
      ensures (r, Model()) == M.Create(old(Model()), dir, name)
    {
      if nodes[dir].kind != Directory { return Err(ENOTDIR); }
      SearchFinds(Model(), nodes[dir].children, name);
      var there := Lookup(dir, name);
      if there.Ok? { return Err(EEXIST); }
      if room == 0 { return Err(ENOMEM); }
      var id := Append(dir, Node(Regular, name, [], []));
      r := Ok(id);
    }

    method Mkdir(dir: Id, name: string) returns (r: Found)
      requires WellFormed(Model()) && dir < |nodes|
      modifies this
      ensures (r, Model()) == M.Mkdir(old(Model()), dir, name)
    {
      if nodes[dir].kind != Directory { return Err(ENOTDIR); }
      SearchFinds(Model(), nodes[dir].children, name);
      var there := Lookup(dir, name);
      if there.Ok? { return there; }
      if room == 0 { return Err(ENOMEM); }
      var id := Append(dir, Node(Directory, name, [], []));
      r := Ok(id);
    }

    /** The loop over the path is the fold of Lookup over its components. */
    method PathToVnode(root: Id, path: string) returns (r: Found)
      requires WellFormed(Model()) && root < |nodes|
      ensures r == Resolve(Model(), root, Components(path))
    {
      var current: Id, offset: nat := root, 0;
      assert path[0..] == path;
      if path != "" && path[0] == '/' {
        FirstPart(path, 0);
        ResolveMaybe(Model(), root, "", Components(path[1..]));
        offset := 1;
      }
      while offset < |path|
        invariant offset <= |path| && current < |nodes|
        invariant Resolve(Model(), current, Components(path[offset..])) == Resolve(Model(), root, Components(path))
        decreases |path| - offset
      {
        var component := path[offset..][..Slash(path[offset..])];
        FirstPart(path, offset);
        offset := After(path, offset);
        ResolveMaybe(Model(), current, component, Components(path[offset..]));
        if Names(component) {
          var next := Lookup(current, component);
          if next.Err? { return next; }
          current := next.id;
        }
      }
      assert path[offset..] == "";
      StepsHead("", []);
      assert [""] + [] == [""];
      r := Ok(current);
    }

    /** The child directory, made if it is not there. */
    method EnterDir(dir: Id, name: string) returns (r: Found)
      requires WellFormed(Model()) && dir < |nodes|
      modifies this
      ensures (r, Model()) == Enter(old(Model()), dir, name)
    {
      r := Lookup(dir, name);
      if r.Err? { r := Mkdir(dir, name); }
    }

    /** Walk the directories of a path; the result is also how far into the path its leaf starts. */
    method WalkDirs(root: Id, path: string) returns (r: Found, offset: nat)
      requires M.Tree(Model()) && root < |nodes|
      modifies this
      ensures M.Tree(Model()) && Walked(Model(), r) == Walk(old(Model()), root, Steps(Dirs(path)))
      ensures r.Ok? ==> offset <= |path| && path[offset..] == Leaf(path)
    {
      var current: Id := root;
      offset := 0;
      ghost var walked := Walk(Model(), root, Steps(Dirs(path)));
      assert path[0..] == path;
      while Slash(path[offset..]) < |path| - offset
        invariant offset <= |path| && M.Tree(Model()) && current < |nodes|
        invariant Walk(Model(), current, Steps(Dirs(path[offset..]))) == walked
        invariant Leaf(path[offset..]) == Leaf(path)
        decreases |path| - offset
      {
        var dir := path[offset..][..Slash(path[offset..])];
        FirstDir(path, offset);
        offset := After(path, offset);
        WalkMaybe(Model(), current, dir, Steps(Dirs(path[offset..])));
        if Names(dir) {
          r := EnterDir(current, dir);
          if r.Err? { return; }
          current := r.id;
        }
      }
      NoSlash(path[offset..]);
      r := Ok(current);
    }

    /** Add one archive entry. */
    method CreateEntry(root: Id, path: string, mode: nat, data: seq<byte>, fits: bool) returns (made: Option<Id>)
      requires M.Tree(Model()) && root < |nodes|
      modifies this
      ensures (made, Model()) == M.CreateEntry(old(Model()), root, path, mode, data, fits)
    {
      if path == "." { return None; }
      var at, offset := WalkDirs(root, path);
      if at.Err? || path[offset..] == "" { return None; }
      made := PlaceLeaf(at.id, path[offset..], mode, if fits then data else []);
    }

    method PlaceLeaf(dir: Id, leaf: string, mode: nat, data: seq<byte>) returns (made: Option<Id>)
      requires M.Tree(Model()) && dir < |nodes|
      modifies this
      ensures (made, Model()) == Place(old(Model()), dir, leaf, mode, data)
    {
      made := None;
      if mode / 0x1000 % 16 == 4 {
        var _ := Mkdir(dir, leaf);
      } else if mode / 0x1000 % 16 == 8 {
        var r := Create(dir, leaf);
        if r.Ok? {
          nodes := nodes[r.id := nodes[r.id].(data := data)];
          made := Some(r.id);
        }
      }
    }
  }

  function Maybe(part: string): seq<string> { if Names(part) then [part] else [] }

  lemma StepsHead(part: string, rest: seq<string>)
    ensures Steps([part] + rest) == Maybe(part) + Steps(rest)
  {
    assert ([part] + rest)[1..] == rest;
  }

  /** Where the loop goes on after the part that starts at `offset`. */
  function After(path: string, offset: nat): (n: nat)
    requires offset <= |path|
    ensures offset <= n <= |path| && (offset < |path| ==> offset < n)
  {
    var i := Slash(path[offset..]);
    if offset + i == |path| then |path| else offset + i + 1
  }

  /** What the next part means for the components that are left. */
  lemma FirstPart(path: string, offset: nat)
    requires offset < |path|
    ensures var s := path[offset..]; Components(s) == Maybe(s[..Slash(s)]) + Components(path[After(path, offset)..])
  {
    var s := path[offset..];
    var i := Slash(s);
    if i == |s| {
      assert s[..i] == s && path[|path|..] == "";
      StepsHead(s, []);
      StepsHead("", []);
      assert [s] + [] == [s] && [""] + [] == [""];
    } else {
      assert s[i + 1..] == path[offset + i + 1..];
      StepsHead(s[..i], Split(s[i + 1..]));
    }
  }

  lemma ResolveMaybe(fs: Fs, node: Id, part: string, rest: seq<string>)
    requires WellFormed(fs) && node < |fs.nodes|
    ensures !Names(part) ==> Resolve(fs, node, Maybe(part) + rest) == Resolve(fs, node, rest)
    ensures Names(part) ==>
      var next := M.Lookup(fs, node, part);
      Resolve(fs, node, Maybe(part) + rest) == if next.Err? then next else Resolve(fs, next.id, rest)
  {
    if Names(part) { assert ([part] + rest)[1..] == rest; } else { assert [] + rest == rest; }
  }

  lemma WalkMaybe(fs: Fs, node: Id, part: string, rest: seq<string>)
    requires M.Tree(fs) && node < |fs.nodes|
    ensures !Names(part) ==> Walk(fs, node, Maybe(part) + rest) == Walk(fs, node, rest)
    ensures Names(part) ==>
      var (next, gs) := Enter(fs, node, part);
      && M.Tree(gs) && (next.Ok? ==> next.id < |gs.nodes|)
      && Walk(fs, node, Maybe(part) + rest) == if next.Err? then Walked(gs, next) else Walk(gs, next.id, rest)
  {
    MkdirKeeps(fs, node, part);
    if Names(part) { assert ([part] + rest)[1..] == rest; } else { assert [] + rest == rest; }
  }

  lemma DropLast(part: string, rest: seq<string>)
    requires rest != []
    ensures ([part] + rest)[..|rest|] == [part] + rest[..|rest| - 1] && ([part] + rest)[|rest|] == rest[|rest| - 1]
  {}

  lemma FirstDir(path: string, offset: nat)
    requires offset <= |path| && Slash(path[offset..]) < |path| - offset
    ensures var s := path[offset..];
      var rest := path[After(path, offset)..];
      Leaf(s) == Leaf(rest) && Steps(Dirs(s)) == Maybe(s[..Slash(s)]) + Steps(Dirs(rest))
  {
    var s := path[offset..];
    var i := Slash(s);
    var rest := path[After(path, offset)..];
    assert s[i + 1..] == rest;
    var q := Split(rest);
    assert Split(s) == [s[..i]] + q;
    DropLast(s[..i], q);
    StepsHead(s[..i], q[..|q| - 1]);
  }

  lemma NoSlash(s: string)
    requires Slash(s) == |s|
    ensures Dirs(s) == [] && Leaf(s) == s
  {}
}

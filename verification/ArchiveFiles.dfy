/** Exactly which entries of an archive become files, as a condition on the archive and the tree it is loaded
    into. */
module ArchiveFiles {
  import opened TreeModel
  import opened CpioModel
  import opened ArchiveTree

  function DirsOf(e: Entry): Path { Steps(Dirs(PathOf(e))) }
  function LeafOf(e: Entry): string { Leaf(PathOf(e)) }
  function FileOf(e: Entry): Path { DirsOf(e) + [LeafOf(e)] }
  function GoalOf(e: Entry): Path { Goal(DirsOf(e), LeafOf(e), e.mode) }
  predicate IsFile(e: Entry) { IsRegularMode(e.mode) }

  // ---- The condition --------------------------------------------------------------------------------

  /** No file is in the way of entry `j`, neither one of the tree nor one of the earlier entries in `made`. */
  ghost predicate Reaches(fs: Fs, root: Id, es: seq<Entry>, made: set<nat>, j: nat)
    requires Tree(fs) && root < |fs.nodes| && j < |es|
  {
    && PathOf(es[j]) != "." && Passable(fs, root, DirsOf(es[j]))
    && forall l: nat :: l < j && l in made ==> !(FileOf(es[l]) <= DirsOf(es[j]))
  }

  /** The paths that the first `k` entries add, each of which takes a node. */
  ghost function NewPaths(fs: Fs, root: Id, es: seq<Entry>, made: set<nat>, k: nat): set<Path>
    requires Tree(fs) && root < |fs.nodes| && k <= |es|
  {
    if k == 0 then {}
    else NewPaths(fs, root, es, made, k - 1) + if Reaches(fs, root, es, made, k - 1) then Fresh(fs, root, GoalOf(es[k - 1])) else {}
  }

  /** The path of entry `i` has a last part; no file is in its way; neither the tree nor an earlier entry has
      anything at its path; and there is room for all that is added up to it. */
  ghost predicate Clear(fs: Fs, root: Id, es: seq<Entry>, made: set<nat>, i: nat)
    requires Tree(fs) && root < |fs.nodes| && i < |es|
  {
    && LeafOf(es[i]) != "" && Reaches(fs, root, es, made, i) && !Resolve(fs, root, FileOf(es[i])).Ok?
    && (forall j: nat :: j < i && Reaches(fs, root, es, made, j) ==> !(FileOf(es[i]) <= GoalOf(es[j])))
    && |NewPaths(fs, root, es, made, i + 1)| <= fs.room
  }

  /** The entries that become files, worked out from the archive and the tree alone. */
  ghost predicate Makes(fs: Fs, root: Id, es: seq<Entry>, i: nat)
    requires Tree(fs) && root < |fs.nodes| && i < |es|
    decreases i, 1
  {
    IsFile(es[i]) && Clear(fs, root, es, MakesBefore(fs, root, es, i), i)
  }

  ghost function MakesBefore(fs: Fs, root: Id, es: seq<Entry>, i: nat): set<nat>
    requires Tree(fs) && root < |fs.nodes| && i < |es|
    decreases i, 0
  {
    set l: nat | l < i && Makes(fs, root, es, l)
  }

  /** The entries that do. */
  ghost function Made(fs: Fs, root: Id, es: seq<Entry>, fits: nat -> bool): set<nat>
    requires Tree(fs) && root < |fs.nodes|
  {
    set i: nat | i < |es| && MadeBy(fs, root, es, fits, i).Some?
  }

  ghost function FilesOf(es: seq<Entry>, made: set<nat>, k: nat): set<Path>
    requires k <= |es|
  {
    set i: nat | i < k && i in made :: FileOf(es[i])
  }

  // ---- The condition, in terms of the tree before an entry -----------------------------------------

  /** A file is in the way in the grown tree iff one was before or a new one is. */
  lemma PassableAfter(fs: Fs, gs: Fs, root: Id, add: set<Path>, files: set<Path>, dirs: Path)
    requires Gains(fs, gs, root, add, files)
    ensures Passable(gs, root, dirs) <==> Passable(fs, root, dirs) && forall f :: f in files ==> !(f <= dirs)
  {
    PassableIff(fs, root, dirs);
    PassableIff(gs, root, dirs);
    forall k: nat | k <= |dirs| && Resolve(fs, root, dirs[..k]).Ok?
      ensures Resolve(gs, root, dirs[..k]) == Resolve(fs, root, dirs[..k]) && (IsDirectory(gs, root, dirs[..k]) <==> IsDirectory(fs, root, dirs[..k]))
    {
      KeepsKind(fs, gs, root, dirs[..k]);
    }
    if f :| f in files && f <= dirs {
      assert dirs[..|f|] == f && !IsDirectory(gs, root, dirs[..|f|]);
    }
  }

  lemma FreshIff(fs: Fs, root: Id, p: Path, q: Path)
    requires WellFormed(fs) && root < |fs.nodes|
    ensures q in Fresh(fs, root, p) <==> q <= p && !Resolve(fs, root, q).Ok?
  {
    if q <= p { assert p[..|q|] == q; }
  }

  lemma {:induction false} NewPathIff(fs: Fs, root: Id, es: seq<Entry>, made: set<nat>, k: nat, q: Path)
    requires Tree(fs) && root < |fs.nodes| && k <= |es|
    ensures q in NewPaths(fs, root, es, made, k) <==>
      !Resolve(fs, root, q).Ok? && exists j: nat :: j < k && Reaches(fs, root, es, made, j) && q <= GoalOf(es[j])
  {
    if k > 0 {
      NewPathIff(fs, root, es, made, k - 1, q);
      FreshIff(fs, root, GoalOf(es[k - 1]), q);
    }
  }

  lemma ReachesNow(fs: Fs, gs: Fs, root: Id, es: seq<Entry>, made: set<nat>, k: nat)
    requires k < |es| && Tree(fs) && root < |fs.nodes| && Gains(fs, gs, root, NewPaths(fs, root, es, made, k), FilesOf(es, made, k))
    ensures Reaches(fs, root, es, made, k) <==> PathOf(es[k]) != "." && Passable(gs, root, DirsOf(es[k]))
  {
    PassableAfter(fs, gs, root, NewPaths(fs, root, es, made, k), FilesOf(es, made, k), DirsOf(es[k]));
    forall l: nat | l < k && l in made ensures FileOf(es[l]) in FilesOf(es, made, k) {}
  }

  /** What entry `k` adds is what leads nowhere just before it. */
  lemma NewPathsNext(fs: Fs, gs: Fs, root: Id, es: seq<Entry>, made: set<nat>, k: nat)
    requires k < |es| && Tree(fs) && root < |fs.nodes| && Gains(fs, gs, root, NewPaths(fs, root, es, made, k), FilesOf(es, made, k))
    ensures var add := NewPaths(fs, root, es, made, k);
      var more := if Reaches(fs, root, es, made, k) then Fresh(gs, root, GoalOf(es[k])) else {};
      NewPaths(fs, root, es, made, k + 1) == add + more && |add + more| == |add| + |more|
  {
    FreshAfter(fs, gs, root, NewPaths(fs, root, es, made, k), FilesOf(es, made, k), GoalOf(es[k]));
    assert NewPaths(fs, root, es, made, k) !! Fresh(gs, root, GoalOf(es[k]));
  }

  lemma NewPathsGrow(fs: Fs, root: Id, es: seq<Entry>, made: set<nat>, k: nat)
    requires Tree(fs) && root < |fs.nodes| && k < |es|
    ensures |NewPaths(fs, root, es, made, k)| <= |NewPaths(fs, root, es, made, k + 1)|
  {
    var a, b := NewPaths(fs, root, es, made, k), NewPaths(fs, root, es, made, k + 1);
    assert b == a + (b - a);
  }

  lemma LoadIs(fs: Fs, root: Id, e: Entry, fits: bool)
    requires Tree(fs) && root < |fs.nodes|
    ensures CreateEntry(fs, root, PathOf(e), e.mode, e.data, fits) ==
      if PathOf(e) == "." then (None, fs) else LoadAt(fs, root, DirsOf(e), LeafOf(e), e.mode, if fits then e.data else [])
  {}

  /** A file can be made iff its path leads nowhere, no file is in the way and what is missing fits. */
  lemma CanMakeIff(gs: Fs, root: Id, e: Entry)
    requires Tree(gs) && root < |gs.nodes| && IsFile(e)
    ensures CanMake(gs, root, PathOf(e)) <==>
      && PathOf(e) != "." && LeafOf(e) != "" && Passable(gs, root, DirsOf(e))
      && !Resolve(gs, root, FileOf(e)).Ok? && |Fresh(gs, root, GoalOf(e))| <= gs.room
  {
    assert [] + DirsOf(e) == DirsOf(e) && Resolve(gs, root, []) == Ok(root);
    FreshSize(gs, root, [], DirsOf(e));
    FreshLeaf(gs, root, DirsOf(e), LeafOf(e));
  }

  /** A file can be made just now iff it is clear. */
  lemma ClearNow(fs: Fs, gs: Fs, root: Id, es: seq<Entry>, made: set<nat>, k: nat)
    requires k < |es| && Tree(fs) && root < |fs.nodes| && IsFile(es[k])
    requires Gains(fs, gs, root, NewPaths(fs, root, es, made, k), FilesOf(es, made, k))
    ensures CanMake(gs, root, PathOf(es[k])) <==> Clear(fs, root, es, made, k)
  {
    CanMakeIff(gs, root, es[k]);
    ReachesNow(fs, gs, root, es, made, k);
    NewPathsNext(fs, gs, root, es, made, k);
    NewPathIff(fs, root, es, made, k, FileOf(es[k]));
  }

  // ---- Entry by entry -------------------------------------------------------------------------------

  /** Either the tree has gained what the entries add, or the room is used up. */
  ghost predicate Settled(fs: Fs, gs: Fs, root: Id, es: seq<Entry>, made: set<nat>, k: nat)
    requires Tree(fs) && root < |fs.nodes| && k <= |es|
  {
    || Gains(fs, gs, root, NewPaths(fs, root, es, made, k), FilesOf(es, made, k))
    || (gs.room == 0 && |NewPaths(fs, root, es, made, k)| > fs.room)
  }

  lemma FilesNext(es: seq<Entry>, made: set<nat>, k: nat)
    requires k < |es|
    ensures FilesOf(es, made, k + 1) == FilesOf(es, made, k) + if k in made then {FileOf(es[k])} else {}
  {}

  /** The file that entry `k` adds to a tree with room for it is the one it is said to make. */
  lemma FileNext(gs: Fs, root: Id, e: Entry, makes: bool)
    requires Tree(gs) && root < |gs.nodes| && PathOf(e) != "." && Passable(gs, root, DirsOf(e)) && |Fresh(gs, root, GoalOf(e))| <= gs.room
    requires makes <==> IsFile(e) && CanMake(gs, root, PathOf(e))
    ensures (if LeafOf(e) == "" then {} else LacksFile(gs, root, DirsOf(e), LeafOf(e), e.mode)) == if makes then {FileOf(e)} else {}
  {
    if IsFile(e) { CanMakeIff(gs, root, e); }
  }

  /** An entry that reaches its directory adds its paths or uses up the room. */
  lemma Advances(fs: Fs, gs: Fs, root: Id, es: seq<Entry>, made: set<nat>, k: nat, fits: bool)
    requires k < |es| && Tree(fs) && root < |fs.nodes| && Gains(fs, gs, root, NewPaths(fs, root, es, made, k), FilesOf(es, made, k))
    requires Reaches(fs, root, es, made, k) && (k in made <==> IsFile(es[k]) && CanMake(gs, root, PathOf(es[k])))
    ensures Settled(fs, CreateEntry(gs, root, PathOf(es[k]), es[k].mode, es[k].data, fits).1, root, es, made, k + 1)
  {
    var e := es[k];
    var dirs, leaf, data := DirsOf(e), LeafOf(e), if fits then e.data else [];
    ReachesNow(fs, gs, root, es, made, k);
    NewPathsNext(fs, gs, root, es, made, k);
    LoadIs(gs, root, e, fits);
    if |Fresh(gs, root, GoalOf(e))| <= gs.room {
      EntryGains(gs, root, dirs, leaf, e.mode, data);
      FilesNext(es, made, k);
      FileNext(gs, root, e, k in made);
      GainsTrans(fs, gs, LoadAt(gs, root, dirs, leaf, e.mode, data).1, root,
                 NewPaths(fs, root, es, made, k), FilesOf(es, made, k), Fresh(gs, root, GoalOf(e)), if k in made then {FileOf(e)} else {});
    } else {
      EntryShort(gs, root, dirs, leaf, e.mode, data);
    }
  }

  /** An entry that does not reach its directory changes nothing. */
  lemma Stays(fs: Fs, gs: Fs, root: Id, es: seq<Entry>, made: set<nat>, k: nat, fits: bool)
    requires k < |es| && Tree(fs) && root < |fs.nodes| && Gains(fs, gs, root, NewPaths(fs, root, es, made, k), FilesOf(es, made, k))
    requires !Reaches(fs, root, es, made, k) && k !in made
    ensures CreateEntry(gs, root, PathOf(es[k]), es[k].mode, es[k].data, fits).1 == gs
    ensures NewPaths(fs, root, es, made, k + 1) == NewPaths(fs, root, es, made, k) && FilesOf(es, made, k + 1) == FilesOf(es, made, k)
  {
    var e := es[k];
    ReachesNow(fs, gs, root, es, made, k);
    FilesNext(es, made, k);
    LoadIs(gs, root, e, fits);
    if PathOf(e) != "." { EntryBlocked(gs, root, DirsOf(e), LeafOf(e), e.mode, if fits then e.data else []); }
  }

  /** Once the room is used up it stays so, and no file is made. */
  lemma StaysShort(fs: Fs, gs: Fs, root: Id, es: seq<Entry>, made: set<nat>, k: nat, fits: bool)
    requires k < |es| && Tree(fs) && Tree(gs) && root < |fs.nodes| && root < |gs.nodes|
    requires gs.room == 0 && |NewPaths(fs, root, es, made, k)| > fs.room
    ensures CreateEntry(gs, root, PathOf(es[k]), es[k].mode, es[k].data, fits).1.room == 0 && |NewPaths(fs, root, es, made, k + 1)| > fs.room
    ensures !CanMake(gs, root, PathOf(es[k])) && !Clear(fs, root, es, made, k)
  {
    var e := es[k];
    LoadIs(gs, root, e, fits);
    NewPathsGrow(fs, root, es, made, k);
    if PathOf(e) != "." { EntryRoom(gs, root, DirsOf(e), LeafOf(e), e.mode, if fits then e.data else []); }
  }

  lemma StepSettles(fs: Fs, gs: Fs, root: Id, es: seq<Entry>, made: set<nat>, k: nat, fits: bool)
    requires k < |es| && Tree(fs) && Tree(gs) && root < |fs.nodes| && root < |gs.nodes| && Settled(fs, gs, root, es, made, k)
    requires k in made <==> IsFile(es[k]) && CanMake(gs, root, PathOf(es[k]))
    ensures k in made <==> IsFile(es[k]) && Clear(fs, root, es, made, k)
    ensures Settled(fs, CreateEntry(gs, root, PathOf(es[k]), es[k].mode, es[k].data, fits).1, root, es, made, k + 1)
  {
    if gs.room == 0 && |NewPaths(fs, root, es, made, k)| > fs.room {
      StaysShort(fs, gs, root, es, made, k, fits);
    } else {
      if IsFile(es[k]) { ClearNow(fs, gs, root, es, made, k); }
      if Reaches(fs, root, es, made, k) {
        Advances(fs, gs, root, es, made, k, fits);
      } else {
        Stays(fs, gs, root, es, made, k, fits);
      }
    }
  }

  lemma {:induction false} AfterSettled(fs: Fs, root: Id, es: seq<Entry>, fits: nat -> bool, made: set<nat>, k: nat)
    requires Tree(fs) && Forest(fs, root) && root < |fs.nodes| && k <= |es| && made == Made(fs, root, es, fits)
    ensures Settled(fs, TreeAfter(fs, root, es, fits, k), root, es, made, k)
  {
    if k == 0 {
      GainsNothing(fs, root);
    } else {
      var j := k - 1;
      AfterSettled(fs, root, es, fits, made, j);
      EntryMade(fs, root, es, fits, j);
      NextTree(fs, root, es, fits, j);
      StepSettles(fs, TreeAfter(fs, root, es, fits, j), root, es, made, j, fits(j));
    }
  }

  lemma NextTree(fs: Fs, root: Id, es: seq<Entry>, fits: nat -> bool, k: nat)
    requires Tree(fs) && root < |fs.nodes| && k < |es|
    ensures TreeAfter(fs, root, es, fits, k + 1) ==
      CreateEntry(TreeAfter(fs, root, es, fits, k), root, PathOf(es[k]), es[k].mode, es[k].data, fits(k)).1
  {}

  lemma EntryMade(fs: Fs, root: Id, es: seq<Entry>, fits: nat -> bool, k: nat)
    requires Tree(fs) && root < |fs.nodes| && k < |es|
    ensures k in Made(fs, root, es, fits) <==> IsFile(es[k]) && CanMake(TreeAfter(fs, root, es, fits, k), root, PathOf(es[k]))
  {
    MakesFileIff(TreeAfter(fs, root, es, fits, k), root, PathOf(es[k]), es[k].mode, es[k].data, fits(k));
  }

  // ---- All entries ------------------------------------------------------------------------------------

  /** Only the earlier files matter. */
  lemma ReachesSame(fs: Fs, root: Id, es: seq<Entry>, a: set<nat>, b: set<nat>, i: nat)
    requires Tree(fs) && root < |fs.nodes| && i < |es| && forall l: nat :: l < i ==> (l in a <==> l in b)
    ensures Reaches(fs, root, es, a, i) == Reaches(fs, root, es, b, i)
  {}

  lemma {:induction false} NewPathsSame(fs: Fs, root: Id, es: seq<Entry>, a: set<nat>, b: set<nat>, k: nat)
    requires Tree(fs) && root < |fs.nodes| && k <= |es| && forall l: nat :: l + 1 < k ==> (l in a <==> l in b)
    ensures NewPaths(fs, root, es, a, k) == NewPaths(fs, root, es, b, k)
  {
    if k > 0 {
      NewPathsSame(fs, root, es, a, b, k - 1);
      ReachesSame(fs, root, es, a, b, k - 1);
    }
  }

  lemma ClearSame(fs: Fs, root: Id, es: seq<Entry>, a: set<nat>, b: set<nat>, i: nat)
    requires Tree(fs) && root < |fs.nodes| && i < |es| && forall l: nat :: l < i ==> (l in a <==> l in b)
    ensures Clear(fs, root, es, a, i) == Clear(fs, root, es, b, i)
  {
    NewPathsSame(fs, root, es, a, b, i + 1);
    forall j: nat | j <= i ensures Reaches(fs, root, es, a, j) == Reaches(fs, root, es, b, j) { ReachesSame(fs, root, es, a, b, j); }
  }

  /** An entry becomes a file if and only if the archive and the tree say so. */
  lemma {:induction false} MadeIff(fs: Fs, root: Id, es: seq<Entry>, fits: nat -> bool, i: nat)
    requires Tree(fs) && Forest(fs, root) && root < |fs.nodes| && i < |es|
    ensures MadeBy(fs, root, es, fits, i).Some? <==> Makes(fs, root, es, i)
    decreases i
  {
    var made, earlier := Made(fs, root, es, fits), MakesBefore(fs, root, es, i);
    forall l: nat | l < i ensures l in made <==> l in earlier { MadeIff(fs, root, es, fits, l); }
    ClearSame(fs, root, es, made, earlier, i);
    AfterSettled(fs, root, es, fits, made, i);
    EntryMade(fs, root, es, fits, i);
    StepSettles(fs, TreeAfter(fs, root, es, fits, i), root, es, made, i, fits(i));
  }

  ghost function AllFiles(es: seq<Entry>): set<nat> { set i: nat | i < |es| && IsFile(es[i]) }

  /** When all earlier files are made, a file is made iff it is clear of all of them. */
  lemma MakesNext(fs: Fs, root: Id, es: seq<Entry>, i: nat)
    requires Tree(fs) && root < |fs.nodes| && i < |es| && IsFile(es[i])
    requires forall l: nat :: l < i && IsFile(es[l]) ==> Makes(fs, root, es, l)
    ensures Makes(fs, root, es, i) <==> Clear(fs, root, es, AllFiles(es), i)
  {
    var earlier := MakesBefore(fs, root, es, i);
    forall l: nat | l < i ensures l in earlier <==> l in AllFiles(es) { assert Makes(fs, root, es, l) ==> IsFile(es[l]); }
    ClearSame(fs, root, es, earlier, AllFiles(es), i);
  }

  lemma {:induction false} ClearMakes(fs: Fs, root: Id, es: seq<Entry>, k: nat)
    requires Tree(fs) && root < |fs.nodes| && k <= |es|
    requires forall i: nat :: i < k && IsFile(es[i]) ==> Clear(fs, root, es, AllFiles(es), i)
    ensures forall i: nat :: i < k && IsFile(es[i]) ==> Makes(fs, root, es, i)
  {
    if k > 0 {
      var j := k - 1;
      ClearMakes(fs, root, es, j);
      if IsFile(es[j]) { MakesNext(fs, root, es, j); }
      forall i: nat | i < k && IsFile(es[i]) ensures Makes(fs, root, es, i) { assert i < j || i == j; }
    }
  }

  /** All the files of an archive are made if and only if each is clear of all those before it. */
  lemma AllMadeIff(fs: Fs, root: Id, es: seq<Entry>, fits: nat -> bool)
    requires Tree(fs) && Forest(fs, root) && root < |fs.nodes|
    ensures (forall i: nat :: i < |es| && IsFile(es[i]) ==> MadeBy(fs, root, es, fits, i).Some?) <==>
            (forall i: nat :: i < |es| && IsFile(es[i]) ==> Clear(fs, root, es, AllFiles(es), i))
  {
    forall i: nat | i < |es| ensures MadeBy(fs, root, es, fits, i).Some? <==> Makes(fs, root, es, i) { MadeIff(fs, root, es, fits, i); }
    if forall i: nat :: i < |es| && IsFile(es[i]) ==> Clear(fs, root, es, AllFiles(es), i) { ClearMakes(fs, root, es, |es|); }
    if forall i: nat :: i < |es| && IsFile(es[i]) ==> Makes(fs, root, es, i) {
      forall i: nat | i < |es| && IsFile(es[i]) ensures Clear(fs, root, es, AllFiles(es), i) { MakesNext(fs, root, es, i); }
    }
  }

  /** From archive to tree: the encoding of the entries decodes to them, and in the tree that results every entry
      that makes a file is where its path leads, with its data. */
  lemma FilesLoad(fs: Fs, root: Id, es: seq<Entry>, rs: seq<Rest>, last: Rest, tail: seq<byte>, addr: nat, fits: nat -> bool, i: nat)
    requires |rs| == |es| && (forall j :: 0 <= j < |rs| ==> RestOk(rs[j])) && RestOk(last) && addr % 4 == 0
    requires forall j :: 0 <= j < |es| ==> EntryOk(es[j]) && !LikeTrailer(es[j].name)
    requires Tree(fs) && Forest(fs, root) && root < |fs.nodes| && i < |es| && LeafOf(es[i]) != "."
    requires Makes(fs, root, es, i)
    ensures var d := Decode(EncodeAll(es, rs) + (EndEntry(last) + tail), addr);
      && d == Decoded(es, Trailer)
      && var gs := TreeAfter(fs, root, d.entries, fits, |d.entries|);
      var at := Resolve(gs, root, Components(PathOf(es[i])));
      at.Ok? && gs.nodes[at.id].kind == Regular && gs.nodes[at.id].data == if fits(i) then es[i].data else []
  {
    MadeIff(fs, root, es, fits, i);
    EntryMade(fs, root, es, fits, i);
    DecodeInvertsEncode(es, rs, last, tail, addr);
    AllEntriesIff(es);
    PopulatedPaths(fs, root, es, fits, i);
  }
}

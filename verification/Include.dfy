/** One configuration spread over several files: reading the fragments a root includes. */
module Include {
  import opened Prelude
  import opened Order

  /** A path as written, what it refers to, and an include entry; all opaque. */
  type Path = int
  type Id = int
  type Relative = int

  /** Everything a service table holds besides its name; opaque. */
  type Body = int

  datatype Content =
    | Unreadable
    | Unparsable
    | Fragment(version: bool, project: bool, services: map<Name, Body>, entries: seq<Relative>)

  /**
   The file system as the loader meets it: what each file contains, which file
   a path is, and where an include entry of a file leads.
   */
  datatype World = World(files: map<Id, Content>, identity: Path -> Id, resolve: (Path, Relative) -> Path)

  /** A service with its origin. */
  datatype Owned = Owned(body: Body, origin: Path)

  datatype Root = Root(path: Path, services: map<Name, Body>, entries: seq<Relative>)

  datatype LoadError =
    | IncludeCycle(cycle: seq<Path>)
    | IncludeTwice(path: Path, first: Path, second: Path)
    | CouldNotRead(path: Path, parent: Path)
    | CouldNotParse(path: Path)
    | NotAFragment(path: Path, parent: Path, field: string)
    | DuplicateService(name: Name, first: Path, second: Path)

  /** An ancestor of the file being read: its identity, and the name that led to it. */
  datatype Ancestor = Ancestor(id: Id, path: Path)

  datatype Load = Load(
    services: map<Name, Owned>, chain: seq<Ancestor>, merged: map<Id, Path>, errors: seq<LoadError>)

  function Read(w: World, path: Path): Content {
    var id := w.identity(path);
    if id in w.files then w.files[id] else Unreadable
  }

  /** How far up a file is among the ancestors, if it is one of them. */
  function OnChain(chain: seq<Ancestor>, id: Id): (at: Option<nat>)
    ensures at.None? <==> forall a <- chain :: a.id != id
    ensures at.Some? ==> at.value < |chain| && chain[at.value].id == id
  {
    if chain == [] then None
    else if chain[0].id == id then Some(0)
    else
      match OnChain(chain[1..], id)
      case None => None
      case Some(k) => Some(k + 1)
  }

  function PathsOf(chain: seq<Ancestor>): seq<Path> {
    seq(|chain|, i requires 0 <= i < |chain| => chain[i].path)
  }

  function Fail(l: Load, e: LoadError): Load {
    l.(errors := l.errors + [e])
  }

  /** Add one service, unless its name is taken. */
  function AddOne(l: Load, n: Name, body: Body, path: Path): Load {
    if n in l.services then Fail(l, DuplicateService(n, l.services[n].origin, path))
    else l.(services := l.services[n := Owned(body, path)])
  }

  /** Add the services named, one after the other. */
  function AddServices(l: Load, names: seq<Name>, services: map<Name, Body>, path: Path): Load
    requires forall n <- names :: n in services
    decreases |names|
  {
    if names == [] then l
    else AddServices(AddOne(l, names[0], services[names[0]], path), names[1..], services, path)
  }

  /** Mark a file as merged, and complain about what a fragment must not have. */
  function Checked(w: World, l: Load, path: Path, parent: Path): (m: Load)
    requires Read(w, path).Fragment?
    ensures m.services == l.services && m.chain == l.chain && l.errors <= m.errors
    ensures m.merged == l.merged[w.identity(path) := parent]
    ensures |m.errors| == |l.errors| <==> !Read(w, path).version && !Read(w, path).project
  {
    var f := Read(w, path);
    var marked := l.(merged := l.merged[w.identity(path) := parent]);
    var versioned := if f.version then Fail(marked, NotAFragment(path, parent, "version")) else marked;
    if f.project then Fail(versioned, NotAFragment(path, parent, "[project]")) else versioned
  }

  /** Take over a fragment's own content, before what it includes. */
  function Enter(w: World, l: Load, path: Path, parent: Path): Load
    requires Read(w, path).Fragment?
  {
    var services := Read(w, path).services;
    var added := AddServices(Checked(w, l, path, parent), InOrder(services.Keys), services, path);
    added.(chain := added.chain + [Ancestor(w.identity(path), path)])
  }

  lemma {:induction false} AddServicesKeeps(l: Load, names: seq<Name>, services: map<Name, Body>, path: Path)
    requires forall n <- names :: n in services
    ensures
      var m := AddServices(l, names, services, path);
      && m.chain == l.chain && m.merged == l.merged && l.errors <= m.errors
      && (forall n <- l.services :: n in m.services && m.services[n] == l.services[n])
    decreases |names|
  {
    if names != [] {
      var added := AddOne(l, names[0], services[names[0]], path);
      AddServicesKeeps(added, names[1..], services, path);
    }
  }

  lemma EnterKeeps(w: World, l: Load, path: Path, parent: Path)
    requires Read(w, path).Fragment?
    ensures
      var m := Enter(w, l, path, parent);
      && m.chain == l.chain + [Ancestor(w.identity(path), path)]
      && m.merged == l.merged[w.identity(path) := parent] && l.errors <= m.errors
      && (forall n <- l.services :: n in m.services && m.services[n] == l.services[n])
  {
    var f := Read(w, path);
    var checked := Checked(w, l, path, parent);
    AddServicesKeeps(checked, InOrder(f.services.Keys), f.services, path);
  }

  /** The files that could still be merged; it shrinks with every file read, whatever includes what. */
  function Unmerged(w: World, l: Load): set<Id> {
    w.files.Keys - l.merged.Keys
  }

  /** What one include entry does: its services are taken in, and then its own entries are followed. */
  function One(w: World, l: Load, path: Path, parent: Path): (m: Load)
    ensures m.chain == l.chain && l.merged.Keys <= m.merged.Keys && l.errors <= m.errors
    ensures forall n <- l.services :: n in m.services && m.services[n] == l.services[n]
    decreases Unmerged(w, l), 0
  {
    var id := w.identity(path);
    var at := OnChain(l.chain, id);
    if at.Some? then Fail(l, IncludeCycle(PathsOf(l.chain[at.value..]) + [path]))
    else if id in l.merged then Fail(l, IncludeTwice(path, l.merged[id], parent))
    else
      match Read(w, path)
      case Unreadable => Fail(l, CouldNotRead(path, parent))
      case Unparsable => Fail(l, CouldNotParse(path))
      case Fragment(_, _, _, entries) =>
        EnterKeeps(w, l, path, parent);
        var inside := Enter(w, l, path, parent);
        assert id in Unmerged(w, l) && id !in Unmerged(w, inside);
        var m := All(w, inside, entries, path);
        m.(chain := m.chain[..|m.chain| - 1])
  }

  /** All the include entries of `from`, in turn. */
  function All(w: World, l: Load, entries: seq<Relative>, from: Path): (m: Load)
    ensures m.chain == l.chain && l.merged.Keys <= m.merged.Keys && l.errors <= m.errors
    ensures forall n <- l.services :: n in m.services && m.services[n] == l.services[n]
    decreases Unmerged(w, l), 1 + |entries|
  {
    if entries == [] then l
    else All(w, One(w, l, w.resolve(from, entries[0]), from), entries[1..], from)
  }

  function Begin(w: World, root: Root): Load {
    Load(map n <- root.services :: Owned(root.services[n], root.path),
         [Ancestor(w.identity(root.path), root.path)], map[], [])
  }

  function Merged(w: World, root: Root): Load {
    All(w, Begin(w, root), root.entries, root.path)
  }

  // ── The loader ────────────────────────────────────────────────────────────

  class Loader {
    const w: World
    var services: map<Name, Owned>
    var chain: seq<Ancestor>
    var merged: map<Id, Path>
    var errors: seq<LoadError>

    constructor (w: World, root: Root)
      ensures this.w == w && View() == Begin(w, root)
    {
      this.w := w;
      services := map n <- root.services :: Owned(root.services[n], root.path);
      chain := [Ancestor(w.identity(root.path), root.path)];
      merged, errors := map[], [];
    }

    function View(): Load
      reads this
    {
      Load(services, chain, merged, errors)
    }

    /** The loop over the include entries of `from`. */
    method Follow(entries: seq<Relative>, from: Path)
      modifies this
      ensures View() == All(w, old(View()), entries, from)
      decreases Unmerged(w, View()), 1 + |entries|
    {
      ghost var start := View();
      for k := 0 to |entries|
        invariant All(w, View(), entries[k..], from) == All(w, start, entries, from)
        invariant start.merged.Keys <= merged.Keys
      {
        assert Unmerged(w, View()) <= Unmerged(w, start);
        assert entries[k..][1..] == entries[k + 1..];
        MergeOne(w.resolve(from, entries[k]), from);
      }
    }

    method MergeOne(path: Path, parent: Path)
      modifies this
      ensures View() == One(w, old(View()), path, parent)
      decreases Unmerged(w, View()), 0
    {
      var id := w.identity(path);
      var at := OnChain(chain, id);
      if at.Some? {
        errors := errors + [IncludeCycle(PathsOf(chain[at.value..]) + [path])];
        return;
      }
      if id in merged {
        errors := errors + [IncludeTwice(path, merged[id], parent)];
        return;
      }
      var content := Read(w, path);
      if content.Unreadable? {
        errors := errors + [CouldNotRead(path, parent)];
        return;
      }
      if content.Unparsable? {
        errors := errors + [CouldNotParse(path)];
        return;
      }
      ghost var start := View();
      merged := merged[id := parent];
      if content.version {
        errors := errors + [NotAFragment(path, parent, "version")];
      }
      if content.project {
        errors := errors + [NotAFragment(path, parent, "[project]")];
      }
      TakeServices(content.services, path);
      chain := chain + [Ancestor(id, path)];
      EnterKeeps(w, start, path, parent);
      assert View() == Enter(w, start, path, parent);
      assert id in Unmerged(w, start) && id !in Unmerged(w, View());
      Follow(content.entries, path);
      chain := chain[..|chain| - 1];
    }

    method TakeServices(found: map<Name, Body>, path: Path)
      modifies this
      ensures View() == AddServices(old(View()), InOrder(found.Keys), found, path)
    {
      var names := InOrder(found.Keys);
      for k := 0 to |names|
        invariant AddServices(View(), names[k..], found, path) == AddServices(old(View()), names, found, path)
      {
        TakeOne(names[k], found[names[k]], path);
      }
    }

    method TakeOne(n: Name, body: Body, path: Path)
      modifies this
      ensures View() == AddOne(old(View()), n, body, path)
    {
      if n in services {
        errors := errors + [DuplicateService(n, services[n].origin, path)];
      } else {
        services := services[n := Owned(body, path)];
      }
    }
  }

  /** The whole load, from the root on. */
  method Merge(w: World, root: Root) returns (services: map<Name, Owned>, errors: seq<LoadError>)
    ensures services == Merged(w, root).services && errors == Merged(w, root).errors
  {
    var loader := new Loader(w, root);
    loader.Follow(root.entries, root.path);
    return loader.services, loader.errors;
  }

  // ── What a faultless set of files is ──────────────────────────────────────

  /** A file and what it includes, spelled out all the way down. */
  datatype Tree = Tree(path: Path, children: seq<Tree>)

  /** `t` is what including `path` unfolds to: readable files, down to files that include nothing. */
  predicate Unfolds(w: World, path: Path, t: Tree)
    decreases t
  {
    t.path == path && Read(w, path).Fragment? && UnfoldAll(w, path, Read(w, path).entries, t.children)
  }

  predicate UnfoldAll(w: World, from: Path, entries: seq<Relative>, ts: seq<Tree>)
    decreases ts
  {
    if entries == [] || ts == [] then entries == [] && ts == []
    else Unfolds(w, w.resolve(from, entries[0]), ts[0]) && UnfoldAll(w, from, entries[1..], ts[1..])
  }

  /** The files of a tree, a file before what it includes. */
  function Files(t: Tree): seq<Path>
    decreases t
  {
    [t.path] + FilesOf(t.children)
  }

  function FilesOf(ts: seq<Tree>): seq<Path>
    decreases ts
  {
    if ts == [] then [] else Files(ts[0]) + FilesOf(ts[1..])
  }

  function ServicesAt(w: World, path: Path): map<Name, Body> {
    var f := Read(w, path);
    if f.Fragment? then f.services else map[]
  }

  /** Nothing but services and further includes. */
  predicate IsPure(w: World, path: Path) {
    Read(w, path).Fragment? && !Read(w, path).version && !Read(w, path).project
  }

  function WithOrigin(services: map<Name, Body>, path: Path): map<Name, Owned> {
    map n <- services :: Owned(services[n], path)
  }

  /** Taken together with `base`, file by file. */
  function Gathered(w: World, base: map<Name, Owned>, files: seq<Path>): map<Name, Owned>
    decreases |files|
  {
    if files == [] then base
    else Gathered(w, base + WithOrigin(ServicesAt(w, files[0]), files[0]), files[1..])
  }

  function IdsOf(w: World, files: seq<Path>): set<Id> {
    set p <- files :: w.identity(p)
  }

  /** Each file new, a pure fragment, and declaring only new services. */
  predicate Fits(w: World, used: set<Id>, base: map<Name, Owned>, files: seq<Path>)
    decreases |files|
  {
    files == [] ||
    (var p := files[0];
     && w.identity(p) !in used && IsPure(w, p)
     && (forall n <- ServicesAt(w, p) :: n !in base)
     && Fits(w, used + {w.identity(p)}, base + WithOrigin(ServicesAt(w, p), p), files[1..]))
  }

  lemma {:induction false} FitsSplits(w: World, used: set<Id>, base: map<Name, Owned>, a: seq<Path>, b: seq<Path>)
    ensures Gathered(w, base, a + b) == Gathered(w, Gathered(w, base, a), b)
    ensures Fits(w, used, base, a + b) <==>
              Fits(w, used, base, a) && Fits(w, used + IdsOf(w, a), Gathered(w, base, a), b)
    decreases |a|
  {
    if a == [] {
      assert a + b == b;
      assert used + IdsOf(w, a) == used;
    } else {
      var p := a[0];
      assert (a + b)[1..] == a[1..] + b;
      FitsSplits(w, used + {w.identity(p)}, base + WithOrigin(ServicesAt(w, p), p), a[1..], b);
      assert a == [p] + a[1..];
      assert used + {w.identity(p)} + IdsOf(w, a[1..]) == used + IdsOf(w, a);
    }
  }

  /** The file identities a load cannot accept again. */
  function Used(l: Load): set<Id> {
    (set a <- l.chain :: a.id) + l.merged.Keys
  }

  lemma {:induction false} NewServicesAreAdded(l: Load, names: seq<Name>, services: map<Name, Body>, path: Path)
    requires Ascending(names) && forall n <- names :: n in services
    ensures
      var m := AddServices(l, names, services, path);
      && (m.errors == l.errors <==> forall n <- names :: n !in l.services)
      && (m.errors == l.errors ==>
            && (forall n <- m.services :: n in l.services || n in names)
            && (forall n <- names :: n in m.services && m.services[n] == Owned(services[n], path)))
    decreases |names|
  {
    if names != [] {
      var n := names[0];
      var added := AddOne(l, n, services[n], path);
      AddServicesKeeps(added, names[1..], services, path);
      assert names == [n] + names[1..];
      if n in l.services {
        assert |AddServices(l, names, services, path).errors| > |l.errors|;
      } else {
        NewServicesAreAdded(added, names[1..], services, path);
      }
    }
  }

  /** Entering a file goes without a complaint exactly when the file fits, and then adds its services. */
  lemma EnteringFits(w: World, l: Load, path: Path, parent: Path)
    requires Read(w, path).Fragment?
    ensures
      var m := Enter(w, l, path, parent);
      && (m.errors == l.errors <==> IsPure(w, path) && forall n <- ServicesAt(w, path) :: n !in l.services)
      && (m.errors == l.errors ==> m.services == l.services + WithOrigin(ServicesAt(w, path), path))
  {
    var f := Read(w, path);
    var checked := Checked(w, l, path, parent);
    AddServicesKeeps(checked, InOrder(f.services.Keys), f.services, path);
    NewServicesAreAdded(checked, InOrder(f.services.Keys), f.services, path);
    var m := Enter(w, l, path, parent);
    assert l.errors <= checked.errors <= m.errors;
    assert m.errors == l.errors <==> m.errors == checked.errors && checked.errors == l.errors;
    if m.errors == l.errors {
      UnionOf(l.services, WithOrigin(f.services, path), m.services);
    }
  }

  lemma UnionOf(a: map<Name, Owned>, b: map<Name, Owned>, m: map<Name, Owned>)
    requires forall n <- a :: n in m && m[n] == a[n]
    requires forall n <- b :: n in m && m[n] == b[n]
    requires forall n <- m :: n in a || n in b
    ensures m == a + b
  {
    forall n ensures n in m <==> n in a + b {
    }
    forall n | n in m ensures m[n] == (a + b)[n] {
    }
  }

  lemma EnteringUses(w: World, l: Load, path: Path, parent: Path)
    requires Read(w, path).Fragment?
    ensures Used(Enter(w, l, path, parent)) == Used(l) + {w.identity(path)}
  {
    EnterKeeps(w, l, path, parent);
    var m := Enter(w, l, path, parent);
    assert forall a <- m.chain :: a in l.chain || a == Ancestor(w.identity(path), path);
    assert forall a <- l.chain :: a in m.chain;
  }

  /** Coming back up leaves a file used, because it stays merged. */
  lemma LeavingUses(m: Load)
    requires m.chain != [] && m.chain[|m.chain| - 1].id in m.merged
    ensures Used(m.(chain := m.chain[..|m.chain| - 1])) == Used(m)
  {
  }

  // ── No complaint exactly when the files form a fitting tree ───────────────

  /** A file that is new and readable is entered, followed, and left. */
  lemma OneGoesIn(w: World, l: Load, path: Path, parent: Path)
    requires w.identity(path) !in Used(l) && Read(w, path).Fragment?
    ensures
      var m := All(w, Enter(w, l, path, parent), Read(w, path).entries, path);
      && m.chain != [] && One(w, l, path, parent) == m.(chain := m.chain[..|m.chain| - 1])
      && w.identity(path) in m.merged && m.chain[|m.chain| - 1].id == w.identity(path)
  {
    EnterKeeps(w, l, path, parent);
    assert forall a <- l.chain :: a.id in Used(l);
    assert OnChain(l.chain, w.identity(path)).None?;
    assert w.identity(path) in Enter(w, l, path, parent).merged;
  }

  lemma {:induction false} FittingTreeLoads(w: World, l: Load, path: Path, parent: Path, t: Tree)
    requires Unfolds(w, path, t) && Fits(w, Used(l), l.services, Files(t))
    ensures
      var m := One(w, l, path, parent);
      && m.errors == l.errors && m.services == Gathered(w, l.services, Files(t))
      && Used(m) == Used(l) + IdsOf(w, Files(t))
    decreases t
  {
    assert Files(t)[0] == path && Files(t)[1..] == FilesOf(t.children);
    OneGoesIn(w, l, path, parent);
    EnteringFits(w, l, path, parent);
    EnteringUses(w, l, path, parent);
    FittingTreesLoad(w, Enter(w, l, path, parent), path, Read(w, path).entries, t.children);
    LeavingUses(All(w, Enter(w, l, path, parent), Read(w, path).entries, path));
    assert IdsOf(w, Files(t)) == {w.identity(path)} + IdsOf(w, FilesOf(t.children));
  }

  lemma {:induction false} FittingTreesLoad(w: World, l: Load, from: Path, entries: seq<Relative>, ts: seq<Tree>)
    requires UnfoldAll(w, from, entries, ts) && Fits(w, Used(l), l.services, FilesOf(ts))
    ensures
      var m := All(w, l, entries, from);
      && m.errors == l.errors && m.services == Gathered(w, l.services, FilesOf(ts))
      && Used(m) == Used(l) + IdsOf(w, FilesOf(ts))
    decreases ts
  {
    if ts != [] {
      var path := w.resolve(from, entries[0]);
      FitsSplits(w, Used(l), l.services, Files(ts[0]), FilesOf(ts[1..]));
      FittingTreeLoads(w, l, path, from, ts[0]);
      FittingTreesLoad(w, One(w, l, path, from), from, entries[1..], ts[1..]);
      assert IdsOf(w, FilesOf(ts)) == IdsOf(w, Files(ts[0])) + IdsOf(w, FilesOf(ts[1..]));
    }
  }

  /** The entry adds no error. */
  ghost predicate GoesIn(w: World, l: Load, path: Path, parent: Path) {
    One(w, l, path, parent).errors == l.errors
  }

  /** An entry that adds no error leads to a new and readable file, and following it adds none either. */
  lemma GoingInMeansNew(w: World, l: Load, path: Path, parent: Path)
    requires GoesIn(w, l, path, parent)
    ensures w.identity(path) !in Used(l) && Read(w, path).Fragment?
    ensures
      var inside := Enter(w, l, path, parent);
      All(w, inside, Read(w, path).entries, path).errors == inside.errors == l.errors
  {
    var at := OnChain(l.chain, w.identity(path));
    assert at.None? && w.identity(path) !in l.merged && Read(w, path).Fragment?;
    var inside := Enter(w, l, path, parent);
    EnterKeeps(w, l, path, parent);
    assert l.errors <= inside.errors <= All(w, inside, Read(w, path).entries, path).errors;
  }

  lemma EnteringLeavesFewer(w: World, l: Load, path: Path, parent: Path)
    requires w.identity(path) !in l.merged && Read(w, path).Fragment?
    ensures Unmerged(w, Enter(w, l, path, parent)) < Unmerged(w, l)
  {
    EnterKeeps(w, l, path, parent);
    assert w.identity(path) in Unmerged(w, l) && w.identity(path) !in Unmerged(w, Enter(w, l, path, parent));
  }

  lemma {:induction false} LoadedIsAFittingTree(w: World, l: Load, path: Path, parent: Path) returns (t: Tree)
    requires GoesIn(w, l, path, parent)
    ensures Unfolds(w, path, t) && Fits(w, Used(l), l.services, Files(t))
    decreases Unmerged(w, l), 0
  {
    var inside := Enter(w, l, path, parent);
    GoingInMeansNew(w, l, path, parent);
    EnteringFits(w, l, path, parent);
    EnteringUses(w, l, path, parent);
    EnteringLeavesFewer(w, l, path, parent);
    var ts := LoadedAreFittingTrees(w, inside, Read(w, path).entries, path);
    t := Tree(path, ts);
    assert Files(t)[0] == path && Files(t)[1..] == FilesOf(ts);
  }

  lemma {:induction false} LoadedAreFittingTrees(w: World, l: Load, entries: seq<Relative>, from: Path)
    returns (ts: seq<Tree>)
    requires All(w, l, entries, from).errors == l.errors
    ensures UnfoldAll(w, from, entries, ts) && Fits(w, Used(l), l.services, FilesOf(ts))
    decreases Unmerged(w, l), 1 + |entries|
  {
    if entries == [] {
      ts := [];
    } else {
      var path := w.resolve(from, entries[0]);
      var m := One(w, l, path, from);
      assert l.errors <= m.errors <= All(w, m, entries[1..], from).errors;
      assert GoesIn(w, l, path, from);
      var t := LoadedIsAFittingTree(w, l, path, from);
      FittingTreeLoads(w, l, path, from, t);
      var rest := LoadedAreFittingTrees(w, m, entries[1..], from);
      ts := [t] + rest;
      assert ts[1..] == rest;
      FitsSplits(w, Used(l), l.services, Files(t), FilesOf(rest));
    }
  }

  /**
   What the root reaches is a tree: every entry leads to a readable pure
   fragment, no file is met twice, and no two files declare the same service.
   */
  ghost predicate IsFaultless(w: World, root: Root, ts: seq<Tree>) {
    var files := FilesOf(ts);
    && UnfoldAll(w, root.path, root.entries, ts)
    && (forall p <- files :: IsPure(w, p) && w.identity(p) != w.identity(root.path))
    && (forall i, j :: 0 <= i < j < |files| ==> w.identity(files[i]) != w.identity(files[j]))
    && (forall p <- files :: forall n <- ServicesAt(w, p) :: n !in root.services)
    && (forall i, j :: 0 <= i < j < |files| ==> forall n <- ServicesAt(w, files[i]) :: n !in ServicesAt(w, files[j]))
  }

  /** File by file or pairwise, it is the same requirement. */
  lemma {:induction false} FitsIsPairwise(w: World, used: set<Id>, base: map<Name, Owned>, files: seq<Path>)
    ensures Fits(w, used, base, files) <==>
              && (forall p <- files :: IsPure(w, p) && w.identity(p) !in used)
              && (forall i, j :: 0 <= i < j < |files| ==> w.identity(files[i]) != w.identity(files[j]))
              && (forall p <- files :: forall n <- ServicesAt(w, p) :: n !in base)
              && (forall i, j :: 0 <= i < j < |files| ==>
                    forall n <- ServicesAt(w, files[i]) :: n !in ServicesAt(w, files[j]))
    decreases |files|
  {
    if files != [] {
      var p, rest := files[0], files[1..];
      var more := base + WithOrigin(ServicesAt(w, p), p);
      FitsIsPairwise(w, used + {w.identity(p)}, more, rest);
      assert forall i :: 0 <= i < |rest| ==> rest[i] == files[i + 1];
      assert forall q <- files :: q == p || q in rest;
    }
  }

  lemma FaultlessLoads(w: World, root: Root, ts: seq<Tree>)
    requires IsFaultless(w, root, ts)
    ensures Merged(w, root).errors == []
    ensures Merged(w, root).services == Gathered(w, Begin(w, root).services, FilesOf(ts))
  {
    var l := Begin(w, root);
    assert Used(l) == {w.identity(root.path)};
    FitsIsPairwise(w, Used(l), l.services, FilesOf(ts));
    FittingTreesLoad(w, l, root.path, root.entries, ts);
  }

  lemma LoadedIsFaultless(w: World, root: Root) returns (ts: seq<Tree>)
    requires Merged(w, root).errors == []
    ensures IsFaultless(w, root, ts)
  {
    var l := Begin(w, root);
    assert Used(l) == {w.identity(root.path)};
    ts := LoadedAreFittingTrees(w, l, root.entries, root.path);
    FitsIsPairwise(w, Used(l), l.services, FilesOf(ts));
  }

  /**
   The load reports nothing exactly when the files form a faultless tree,
   cycles and repeated files being what has none.
   */
  lemma LoadsExactlyWhenFaultless(w: World, root: Root)
    ensures Merged(w, root).errors == [] <==> exists ts: seq<Tree> :: IsFaultless(w, root, ts)
  {
    if Merged(w, root).errors == [] {
      var ts := LoadedIsFaultless(w, root);
    }
    if ts: seq<Tree> :| IsFaultless(w, root, ts) {
      FaultlessLoads(w, root, ts);
    }
  }

  lemma {:induction false} GatheredIsTheUnion(w: World, base: map<Name, Owned>, files: seq<Path>, n: Name)
    requires forall i, j :: 0 <= i < j < |files| ==>
               forall n <- ServicesAt(w, files[i]) :: n !in ServicesAt(w, files[j])
    requires forall p <- files :: forall n <- ServicesAt(w, p) :: n !in base
    ensures n in Gathered(w, base, files) <==> n in base || exists p <- files :: n in ServicesAt(w, p)
    ensures n in base ==> Gathered(w, base, files)[n] == base[n]
    ensures forall p <- files :: n in ServicesAt(w, p) ==> Gathered(w, base, files)[n] == Owned(ServicesAt(w, p)[n], p)
    decreases |files|
  {
    if files != [] {
      var p, rest := files[0], files[1..];
      assert forall i :: 0 <= i < |rest| ==> rest[i] == files[i + 1];
      assert forall q <- files :: q == p || q in rest;
      GatheredIsTheUnion(w, base + WithOrigin(ServicesAt(w, p), p), rest, n);
    }
  }

  /** Then the result is the disjoint union of the root's services and every file's, each with its file as origin. */
  lemma FaultlessMergeIsTheUnion(w: World, root: Root, ts: seq<Tree>, n: Name)
    requires IsFaultless(w, root, ts)
    ensures
      var services, files := Merged(w, root).services, FilesOf(ts);
      && (n in services <==> n in root.services || exists p <- files :: n in ServicesAt(w, p))
      && (n in root.services ==> services[n] == Owned(root.services[n], root.path))
      && (forall p <- files :: n in ServicesAt(w, p) ==> services[n] == Owned(ServicesAt(w, p)[n], p))
  {
    FaultlessLoads(w, root, ts);
    GatheredIsTheUnion(w, Begin(w, root).services, FilesOf(ts), n);
  }

  /** Merging is not overriding: even in a faulty set of files the root's own services stay as they are. */
  lemma RootServicesStay(w: World, root: Root, n: Name)
    requires n in root.services
    ensures n in Merged(w, root).services && Merged(w, root).services[n] == Owned(root.services[n], root.path)
  {
  }

  // ── Reported cycles are cycles ────────────────────────────────────────────

  function IncludesOf(w: World, root: Root, path: Path): seq<Relative> {
    if path == root.path then root.entries
    else if Read(w, path).Fragment? then Read(w, path).entries else []
  }

  /** `from` has an entry that leads to `to`. */
  predicate Leads(w: World, root: Root, from: Path, to: Path) {
    exists r <- IncludesOf(w, root, from) :: w.resolve(from, r) == to
  }

  /** A list of files, each including the next, whose last is its first. */
  predicate IsIncludeCycle(w: World, root: Root, cycle: seq<Path>) {
    && |cycle| >= 2 && w.identity(cycle[0]) == w.identity(cycle[|cycle| - 1])
    && forall i :: 0 <= i < |cycle| - 1 ==> Leads(w, root, cycle[i], cycle[i + 1])
  }

  predicate ChainIsReal(w: World, root: Root, chain: seq<Ancestor>) {
    && chain != []
    && (forall a <- chain :: a.id == w.identity(a.path))
    && (forall i :: 0 <= i < |chain| - 1 ==> Leads(w, root, chain[i].path, chain[i + 1].path))
  }

  /** The file there declares a service of that name. */
  predicate Declares(w: World, root: Root, path: Path, n: Name) {
    || (path == root.path && n in root.services)
    || (Read(w, path).Fragment? && n in Read(w, path).services)
  }

  /** A file includes, under this name or another, the file with this identity. */
  ghost predicate LeadsToFile(w: World, root: Root, from: Path, id: Id) {
    exists to :: Leads(w, root, from, to) && w.identity(to) == id
  }

  /** There is a file, and it can be read. */
  predicate Readable(w: World, path: Path) {
    w.identity(path) in w.files && w.files[w.identity(path)] != Unreadable
  }

  /** What an error says is so. */
  ghost predicate IsTrue(w: World, root: Root, e: LoadError) {
    match e
    case IncludeCycle(cycle) => IsIncludeCycle(w, root, cycle)
    case IncludeTwice(path, first, second) =>
      Leads(w, root, second, path) && LeadsToFile(w, root, first, w.identity(path))
    case CouldNotRead(path, parent) => Leads(w, root, parent, path) && !Readable(w, path)
    case CouldNotParse(path) =>
      Readable(w, path) && w.files[w.identity(path)] == Unparsable && exists parent :: Leads(w, root, parent, path)
    case NotAFragment(path, parent, field) =>
      Leads(w, root, parent, path) && Read(w, path).Fragment? &&
      ((field == "version" && Read(w, path).version) || (field == "[project]" && Read(w, path).project))
    case DuplicateService(n, first, second) => Declares(w, root, first, n) && Declares(w, root, second, n)
  }

  ghost predicate AllTrue(w: World, root: Root, errors: seq<LoadError>) {
    forall e <- errors :: IsTrue(w, root, e)
  }

  lemma ReportIsReal(w: World, root: Root, chain: seq<Ancestor>, at: nat, path: Path)
    requires ChainIsReal(w, root, chain) && at < |chain| && chain[at].id == w.identity(path)
    requires Leads(w, root, chain[|chain| - 1].path, path)
    ensures IsIncludeCycle(w, root, PathsOf(chain[at..]) + [path])
  {
  }

  /** Every service came from a file that declares it, and every merged file was included where it says. */
  ghost predicate OriginsAreTrue(w: World, root: Root, l: Load) {
    && (forall n <- l.services :: Declares(w, root, l.services[n].origin, n))
    && (forall id <- l.merged :: LeadsToFile(w, root, l.merged[id], id))
  }

  /** Of two files that declare a service, the one named first is the one it was taken from. */
  ghost predicate FirstOnesStay(errors: seq<LoadError>, services: map<Name, Owned>) {
    forall e <- errors :: e.DuplicateService? ==> e.name in services && services[e.name].origin == e.first
  }

  ghost predicate TellsTheTruth(w: World, root: Root, l: Load) {
    AllTrue(w, root, l.errors) && OriginsAreTrue(w, root, l) && FirstOnesStay(l.errors, l.services)
  }

  lemma AddServicesTellsTheTruth(w: World, root: Root, l: Load, names: seq<Name>, services: map<Name, Body>, path: Path)
    requires TellsTheTruth(w, root, l) && forall n <- names :: n in services
    requires Read(w, path).Fragment? && services == Read(w, path).services
    ensures TellsTheTruth(w, root, AddServices(l, names, services, path))
    decreases |names|
  {
    if names != [] {
      var n := names[0];
      var added := AddOne(l, n, services[n], path);
      assert n in names && Declares(w, root, path, n);
      AddServicesTellsTheTruth(w, root, added, names[1..], services, path);
    }
  }

  lemma CheckedTellsTheTruth(w: World, root: Root, l: Load, path: Path, parent: Path)
    requires TellsTheTruth(w, root, l) && Read(w, path).Fragment? && Leads(w, root, parent, path)
    ensures TellsTheTruth(w, root, Checked(w, l, path, parent))
  {
    assert LeadsToFile(w, root, parent, w.identity(path));
  }

  lemma EnterTellsTheTruth(w: World, root: Root, l: Load, path: Path, parent: Path)
    requires TellsTheTruth(w, root, l) && Read(w, path).Fragment? && Leads(w, root, parent, path)
    ensures TellsTheTruth(w, root, Enter(w, l, path, parent))
  {
    var f := Read(w, path);
    var checked := Checked(w, l, path, parent);
    CheckedTellsTheTruth(w, root, l, path, parent);
    AddServicesTellsTheTruth(w, root, checked, InOrder(f.services.Keys), f.services, path);
  }

  lemma EntryLeads(w: World, root: Root, from: Path, entries: seq<Relative>)
    requires entries != [] && forall r <- entries :: r in IncludesOf(w, root, from)
    ensures Leads(w, root, from, w.resolve(from, entries[0]))
  {
    var r := entries[0];
    assert r in entries;
    assert r in IncludesOf(w, root, from);
    assert exists s <- IncludesOf(w, root, from) :: w.resolve(from, s) == w.resolve(from, r);
  }

  /** The load stands at `from`, with a real chain from the root down to it and nothing false reported. */
  ghost predicate StandsAt(w: World, root: Root, l: Load, from: Path) {
    && ChainIsReal(w, root, l.chain) && TellsTheTruth(w, root, l)
    && l.chain[0].path == root.path && l.chain[|l.chain| - 1].path == from
  }

  lemma EnteringStandsThere(w: World, root: Root, l: Load, path: Path, parent: Path)
    requires StandsAt(w, root, l, parent) && Leads(w, root, parent, path) && Read(w, path).Fragment?
    ensures StandsAt(w, root, Enter(w, l, path, parent), path)
  {
    EnterKeeps(w, l, path, parent);
    EnterTellsTheTruth(w, root, l, path, parent);
  }

  /** A file not among the ancestors is not the root. */
  lemma OffTheChainIsNotTheRoot(w: World, root: Root, l: Load, path: Path, parent: Path)
    requires StandsAt(w, root, l, parent) && OnChain(l.chain, w.identity(path)).None?
    ensures path != root.path
  {
    assert l.chain[0] in l.chain;
  }

  lemma {:induction false} OneTellsTheTruth(w: World, root: Root, l: Load, path: Path, parent: Path)
    requires StandsAt(w, root, l, parent) && Leads(w, root, parent, path)
    ensures TellsTheTruth(w, root, One(w, l, path, parent))
    decreases Unmerged(w, l), 0
  {
    var id := w.identity(path);
    var at := OnChain(l.chain, id);
    if at.Some? {
      ReportIsReal(w, root, l.chain, at.value, path);
    } else if id !in l.merged && Read(w, path).Fragment? {
      EnteringStandsThere(w, root, l, path, parent);
      EnteringLeavesFewer(w, l, path, parent);
      OffTheChainIsNotTheRoot(w, root, l, path, parent);
      AllTellTheTruth(w, root, Enter(w, l, path, parent), Read(w, path).entries, path);
    }
  }

  lemma {:induction false} AllTellTheTruth(w: World, root: Root, l: Load, entries: seq<Relative>, from: Path)
    requires StandsAt(w, root, l, from) && forall r <- entries :: r in IncludesOf(w, root, from)
    ensures TellsTheTruth(w, root, All(w, l, entries, from))
    decreases Unmerged(w, l), 1 + |entries|
  {
    if entries != [] {
      var path := w.resolve(from, entries[0]);
      EntryLeads(w, root, from, entries);
      OneTellsTheTruth(w, root, l, path, from);
      AllTellTheTruth(w, root, One(w, l, path, from), entries[1..], from);
    }
  }

  /**
   Whatever is reported of a faulty set of files is so: a cycle is one, a file
   named twice is included from both places, one that cannot be read or parsed
   is unreadable or unparsable and was included where it says, a complaint about
   about a field is about one that is there, and both files named for a service
   declare it, the first being the one it was taken from.
   */
  lemma EveryErrorIsTrue(w: World, root: Root)
    ensures AllTrue(w, root, Merged(w, root).errors)
    ensures FirstOnesStay(Merged(w, root).errors, Merged(w, root).services)
    ensures forall n <- Merged(w, root).services :: Declares(w, root, Merged(w, root).services[n].origin, n)
  {
    AllTellTheTruth(w, root, Begin(w, root), root.entries, root.path);
  }

  /** Every include cycle that is reported is one: each file listed includes the next, and the last is the first again. */
  lemma ReportedCyclesAreCycles(w: World, root: Root)
    ensures forall e <- Merged(w, root).errors :: e.IncludeCycle? ==> IsIncludeCycle(w, root, e.cycle)
  {
    EveryErrorIsTrue(w, root);
    forall e | e in Merged(w, root).errors && e.IncludeCycle? ensures IsIncludeCycle(w, root, e.cycle) {
      assert IsTrue(w, root, e);
    }
  }
}

/** The Merkle namespace as a value: content-addressed nodes, directory maps and a
    root that every update replaces. */
module NamespaceModel {
  import opened Options

  datatype DagError = MissingNode | PathNotFound | NotADirectory | TimeTravelAcrossMerge

  datatype Result<+T> = Ok(value: T) | Err(error: DagError)

  datatype Kind = File | Directory | Tombstone

  /** A hash is modelled by what it was computed from, so it is one-to-one and no
      object can contain its own hash. */
  datatype Hash =
    | Content(id: nat)
    | DirContent(children: map<string, Hash>)
    | OfNode(body: Body)

  datatype Body = Body(content: Hash, parents: seq<Hash>, vclock: map<nat, nat>, ts: nat, kind: Kind, meta: nat)

  type ChildMap = map<string, Hash>

  /** A version node: the hashed body and the hash stored beside it. */
  datatype Node = Node(selfHash: Hash, body: Body)

  /** A directory node created since the last drain, with its child map. */
  datatype Created = Created(node: Node, children: Option<ChildMap>)

  datatype State = State(
    repo: map<Hash, Node>,
    dirs: map<Hash, ChildMap>,
    root: Hash,
    chain: seq<(nat, Hash)>,
    snapshots: map<string, Hash>,
    clock: nat,
    nodeId: nat,
    created: seq<Created>)

  /** A path, split at slashes with empty parts dropped. */
  type Path = seq<string>

  // ---------------------------------------------------------------------
  // Nodes and directories
  // ---------------------------------------------------------------------

  function NewNode(b: Body): Node
  {
    Node(OfNode(b), b)
  }

  predicate Verifies(n: Node)
  {
    OfNode(n.body) == n.selfHash
  }

  function PutNode(s: State, n: Node): Result<State>
  {
    if Verifies(n) then Ok(s.(repo := s.repo[n.selfHash := n])) else Err(MissingNode)
  }

  function Increment(v: map<nat, nat>, id: nat): map<nat, nat>
  {
    v[id := (if id in v then v[id] else 0) + 1]
  }

  function NewState(nodeId: nat, start: nat): State
  {
    var root := NewNode(Body(DirContent(map[]), [], Increment(map[], nodeId), start, Directory, 0));
    State(map[root.selfHash := root], map[DirContent(map[]) := map[]], root.selfHash, [(start, root.selfHash)], map[], start, nodeId, [])
  }

  function ChildrenOf(s: State, h: Hash): Result<ChildMap>
  {
    if h !in s.repo then Err(MissingNode)
    else if s.repo[h].body.kind != Directory then Err(NotADirectory)
    else if s.repo[h].body.content !in s.dirs then Err(MissingNode)
    else Ok(s.dirs[s.repo[h].body.content])
  }

  function DirNode(s: State, children: ChildMap, parent: Hash, ts: nat): Node
  {
    var clock := if parent in s.repo then s.repo[parent].body.vclock else map[];
    NewNode(Body(DirContent(children), [parent], Increment(clock, s.nodeId), ts, Directory, 0))
  }

  /** The state after a directory node has been created. */
  function AddDir(s: State, children: ChildMap, parent: Hash, ts: nat): State
  {
    var n := DirNode(s, children, parent, ts);
    s.(dirs := s.dirs[n.body.content := children], repo := s.repo[n.selfHash := n], created := s.created + [Created(n, Some(children))])
  }

  function ResolveUnder(s: State, h: Hash, p: Path): Result<Hash>
    decreases |p|
  {
    if p == [] then Ok(h)
    else match ChildrenOf(s, h)
      case Err(e) => Err(e)
      case Ok(m) => if p[0] in m then ResolveUnder(s, m[p[0]], p[1..]) else Err(PathNotFound)
  }

  function Resolve(s: State, p: Path): Result<Hash>
  {
    ResolveUnder(s, s.root, p)
  }

  // ---------------------------------------------------------------------
  // Updates
  // ---------------------------------------------------------------------

  /** Rebuilds a directory with path p set to head; directories on the way are replaced, missing ones created if asked. */
  function Rebuild(s: State, dir: Hash, p: Path, head: Hash, create: bool, ts: nat): (r: (State, Result<Hash>))
    requires p != []
    decreases |p|
  {
    match ChildrenOf(s, dir)
    case Err(e) => (s, Err(e))
    case Ok(m) =>
      var sub := Descend(s, dir, m, p, head, create, ts);
      match sub.1
      case Err(e) => (sub.0, Err(e))
      case Ok(child) =>
        (AddDir(sub.0, m[p[0] := child], dir, ts), Ok(DirNode(sub.0, m[p[0] := child], dir, ts).selfHash))
  }

  /** The new value of the first component of p in directory dir with children m. */
  function Descend(s: State, dir: Hash, m: ChildMap, p: Path, head: Hash, create: bool, ts: nat): (r: (State, Result<Hash>))
    requires p != []
    decreases |p|, 0
  {
    if p[0] in m then
      if m[p[0]] !in s.repo then (s, Err(MissingNode))
      else if |p| == 1 then (s, Ok(head))
      else if s.repo[m[p[0]]].body.kind != Directory then (s, Err(NotADirectory))
      else Rebuild(s, m[p[0]], p[1..], head, create, ts)
    else if |p| == 1 then (s, Ok(head))
    else if !create then (s, Err(PathNotFound))
    else Rebuild(AddDir(s, map[], dir, ts), DirNode(s, map[], dir, ts).selfHash, p[1..], head, create, ts)
  }

  function SetPath(s: State, p: Path, head: Hash, create: bool, ts: nat): (State, Result<Hash>)
  {
    if p == [] then (s, Err(NotADirectory))
    else
      var r := Rebuild(s, s.root, p, head, create, ts);
      match r.1
      case Err(e) => r
      case Ok(root) => (r.0.(root := root, chain := r.0.chain + [(ts, root)]), Ok(root))
  }

  function Snapshot(s: State, name: string): State
  {
    s.(snapshots := s.snapshots[name := s.root])
  }

  function Restore(s: State, name: string): (State, Result<Hash>)
  {
    if name !in s.snapshots then (s, Err(PathNotFound))
    else
      var root := s.snapshots[name];
      if root !in s.repo then (s.(root := root), Err(MissingNode))
      else (s.(root := root, chain := s.chain + [(s.repo[root].body.ts, root)]), Ok(root))
  }

  // ---------------------------------------------------------------------
  // Invariant and growth
  // ---------------------------------------------------------------------

  /** Everything is stored under its own hash. */
  ghost predicate Good(s: State)
  {
    && (forall h :: h in s.repo ==> s.repo[h] == Node(h, s.repo[h].body) && h == OfNode(s.repo[h].body))
    && (forall c :: c in s.dirs ==> c == DirContent(s.dirs[c]))
  }

  /** Objects are only ever added. */
  ghost predicate Grows(s: State, s': State)
  {
    && s'.nodeId == s.nodeId
    && (forall h :: h in s.repo ==> h in s'.repo && s'.repo[h] == s.repo[h])
    && (forall c :: c in s.dirs ==> c in s'.dirs && s'.dirs[c] == s.dirs[c])
  }

  lemma NewStateGood(nodeId: nat, start: nat)
    ensures Good(NewState(nodeId, start))
  {
  }

  lemma AddDirGood(s: State, children: ChildMap, parent: Hash, ts: nat)
    requires Good(s)
    ensures Good(AddDir(s, children, parent, ts)) && Grows(s, AddDir(s, children, parent, ts))
    ensures ChildrenOf(AddDir(s, children, parent, ts), DirNode(s, children, parent, ts).selfHash) == Ok(children)
  {
  }

  lemma GrowsTrans(a: State, b: State, c: State)
    requires Grows(a, b) && Grows(b, c)
    ensures Grows(a, c)
  {
  }

  /** Later objects do not change what a directory contains. */
  lemma ChildrenStable(s: State, s': State, h: Hash)
    requires Grows(s, s') && ChildrenOf(s, h) != Err(MissingNode)
    ensures ChildrenOf(s', h) == ChildrenOf(s, h)
  {
  }

  /** Nor how any root resolves. */
  lemma {:induction false} ResolveStable(s: State, s': State, h: Hash, p: Path)
    requires Grows(s, s') && ResolveUnder(s, h, p) != Err(MissingNode)
    ensures ResolveUnder(s', h, p) == ResolveUnder(s, h, p)
    decreases |p|
  {
    if p != [] {
      ChildrenStable(s, s', h);
      match ChildrenOf(s, h) {
        case Err(_) =>
        case Ok(m) => if p[0] in m { ResolveStable(s, s', m[p[0]], p[1..]); }
      }
    }
  }

  /** Only the stored objects matter to how a root resolves. */
  lemma {:induction false} SameObjects(s: State, s': State, h: Hash, p: Path)
    requires s'.repo == s.repo && s'.dirs == s.dirs
    ensures ResolveUnder(s', h, p) == ResolveUnder(s, h, p)
    decreases |p|
  {
    if p != [] && ChildrenOf(s, h).Ok? && p[0] in ChildrenOf(s, h).value {
      SameObjects(s, s', ChildrenOf(s, h).value[p[0]], p[1..]);
    }
  }

  lemma {:induction false} RebuildGrows(s: State, dir: Hash, p: Path, head: Hash, create: bool, ts: nat)
    requires Good(s) && p != []
    ensures var s' := Rebuild(s, dir, p, head, create, ts).0;
      Good(s') && Grows(s, s') && s'.root == s.root && s'.chain == s.chain && s'.snapshots == s.snapshots && s'.clock == s.clock
    decreases |p|
  {
    hide Good, Grows, AddDir;
    GrowsSelf(s);
    match ChildrenOf(s, dir) {
      case Err(_) =>
      case Ok(m) =>
        DescendGrows(s, dir, m, p, head, create, ts);
        var sub := Descend(s, dir, m, p, head, create, ts);
        match sub.1 {
          case Err(_) =>
          case Ok(child) =>
            AddDirGood(sub.0, m[p[0] := child], dir, ts);
            AddDirRest(sub.0, m[p[0] := child], dir, ts);
            GrowsTrans(s, sub.0, AddDir(sub.0, m[p[0] := child], dir, ts));
        }
    }
  }

  lemma GrowsSelf(s: State)
    ensures Grows(s, s)
  {
  }

  lemma AddDirRest(s: State, children: ChildMap, parent: Hash, ts: nat)
    ensures var s' := AddDir(s, children, parent, ts);
      s'.root == s.root && s'.chain == s.chain && s'.snapshots == s.snapshots && s'.clock == s.clock
  {
  }

  lemma {:induction false} DescendGrows(s: State, dir: Hash, m: ChildMap, p: Path, head: Hash, create: bool, ts: nat)
    requires Good(s) && p != []
    ensures var s' := Descend(s, dir, m, p, head, create, ts).0;
      Good(s') && Grows(s, s') && s'.root == s.root && s'.chain == s.chain && s'.snapshots == s.snapshots && s'.clock == s.clock
    decreases |p|, 0
  {
    hide Good, Grows, AddDir, Rebuild;
    GrowsSelf(s);
    if |p| > 1 {
      if p[0] in m {
        RebuildGrows(s, m[p[0]], p[1..], head, create, ts);
      } else {
        var s1 := AddDir(s, map[], dir, ts);
        AddDirGood(s, map[], dir, ts);
        AddDirRest(s, map[], dir, ts);
        RebuildGrows(s1, DirNode(s, map[], dir, ts).selfHash, p[1..], head, create, ts);
        GrowsTrans(s, s1, Rebuild(s1, DirNode(s, map[], dir, ts).selfHash, p[1..], head, create, ts).0);
      }
    }
  }

  // ---------------------------------------------------------------------
  // What an update does
  // ---------------------------------------------------------------------

  /** The path set resolves to the new head. */
  lemma {:induction false} RebuiltResolves(s: State, dir: Hash, p: Path, head: Hash, create: bool, ts: nat)
    requires Good(s) && p != [] && Rebuild(s, dir, p, head, create, ts).1.Ok?
    ensures var r := Rebuild(s, dir, p, head, create, ts); ResolveUnder(r.0, r.1.value, p) == Ok(head)
    decreases |p|
  {
    hide Good, Grows, AddDir;
    var m := ChildrenOf(s, dir).value;
    var sub := Descend(s, dir, m, p, head, create, ts);
    var child := sub.1.value;
    var m' := m[p[0] := child];
    DescendGrows(s, dir, m, p, head, create, ts);
    AddDirGood(sub.0, m', dir, ts);
    if |p| > 1 {
      if p[0] in m {
        RebuiltResolves(s, m[p[0]], p[1..], head, create, ts);
      } else {
        AddDirGood(s, map[], dir, ts);
        RebuiltResolves(AddDir(s, map[], dir, ts), DirNode(s, map[], dir, ts).selfHash, p[1..], head, create, ts);
      }
      ResolveStable(sub.0, AddDir(sub.0, m', dir, ts), child, p[1..]);
    } else {
      assert p[1..] == [];
    }
  }

  /** Neither path is a prefix of the other. */
  predicate Diverge(p: Path, q: Path)
  {
    p != [] && q != [] && (p[0] != q[0] || Diverge(p[1..], q[1..]))
  }

  lemma {:induction false} DivergeMeaning(p: Path, q: Path)
    ensures Diverge(p, q) <==> !(p <= q) && !(q <= p)
    decreases |p|
  {
    if p != [] && q != [] {
      DivergeMeaning(p[1..], q[1..]);
      assert p == [p[0]] + p[1..] && q == [q[0]] + q[1..];
    }
  }

  /** A path that is neither a prefix nor an extension of the one set resolves as before. */
  lemma {:induction false} RebuiltFrame(s: State, dir: Hash, p: Path, head: Hash, create: bool, ts: nat, q: Path)
    requires Good(s) && p != [] && Rebuild(s, dir, p, head, create, ts).1.Ok?
    requires Diverge(p, q) && ResolveUnder(s, dir, q) != Err(MissingNode)
    ensures var r := Rebuild(s, dir, p, head, create, ts); ResolveUnder(r.0, r.1.value, q) == ResolveUnder(s, dir, q)
    decreases |p|
  {
    hide Good, Grows, AddDir;
    var m := ChildrenOf(s, dir).value;
    var sub := Descend(s, dir, m, p, head, create, ts);
    var m' := m[p[0] := sub.1.value];
    var s' := AddDir(sub.0, m', dir, ts);
    DescendGrows(s, dir, m, p, head, create, ts);
    AddDirGood(sub.0, m', dir, ts);
    GrowsTrans(s, sub.0, s');
    if q[0] != p[0] {
      if q[0] in m { ResolveStable(s, s', m[q[0]], q[1..]); }
    } else if p[0] in m {
      RebuiltFrame(s, m[p[0]], p[1..], head, create, ts, q[1..]);
      ResolveStable(sub.0, s', sub.1.value, q[1..]);
    } else {
      var s1, d := AddDir(s, map[], dir, ts), DirNode(s, map[], dir, ts).selfHash;
      AddDirGood(s, map[], dir, ts);
      assert ResolveUnder(s1, d, q[1..]) == Err(PathNotFound);
      RebuiltFrame(s1, d, p[1..], head, create, ts, q[1..]);
      ResolveStable(sub.0, s', sub.1.value, q[1..]);
    }
  }

  /** Setting a path: it resolves to the new head, unrelated paths keep their meaning, and
      every root resolves as it did before. */
  lemma SetPathEffect(s: State, p: Path, head: Hash, create: bool, ts: nat, q: Path, old_root: Hash)
    requires Good(s) && SetPath(s, p, head, create, ts).1.Ok?
    ensures var s' := SetPath(s, p, head, create, ts).0;
      && Good(s') && Grows(s, s')
      && Resolve(s', p) == Ok(head)
      && (Diverge(p, q) && Resolve(s, q) != Err(MissingNode) ==> Resolve(s', q) == Resolve(s, q))
      && (ResolveUnder(s, old_root, q) != Err(MissingNode) ==> ResolveUnder(s', old_root, q) == ResolveUnder(s, old_root, q))
  {
    hide Rebuild, Good, ResolveUnder;
    var r := Rebuild(s, s.root, p, head, create, ts);
    var s' := SetPath(s, p, head, create, ts).0;
    RebuildGrows(s, s.root, p, head, create, ts);
    GoodRest(r.0, s');
    RebuiltResolves(s, s.root, p, head, create, ts);
    ResolveStable(r.0, s', r.1.value, p);
    if Diverge(p, q) && Resolve(s, q) != Err(MissingNode) {
      RebuiltFrame(s, s.root, p, head, create, ts, q);
      ResolveStable(r.0, s', r.1.value, q);
    }
    if ResolveUnder(s, old_root, q) != Err(MissingNode) { ResolveStable(s, s', old_root, q); }
  }

  lemma GoodRest(s: State, s': State)
    requires Good(s) && s'.repo == s.repo && s'.dirs == s.dirs
    ensures Good(s')
  {
  }
}

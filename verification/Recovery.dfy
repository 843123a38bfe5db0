/** What the log says about the namespace, and what replaying it gives. */
module Recovery {
  import opened Options
  import opened NamespaceModel
  import opened NamespaceHistory
  import W = Wal

  type LogRecord = W.WalRecord<Hash, Node>

  /** The recovered part of the namespace: root, objects, directory maps and snapshots. */
  datatype Core = Core(repo: map<Hash, Node>, dirs: map<Hash, ChildMap>, root: Hash, snapshots: map<string, Hash>)

  function CoreOf(s: State): Core
  {
    Core(s.repo, s.dirs, s.root, s.snapshots)
  }

  /** One record applied; records that do not concern the namespace change nothing. */
  function Apply(c: Core, r: LogRecord): Result<Core>
  {
    match r
    case VNode(n) => if Verifies(n) then Ok(c.(repo := c.repo[n.selfHash := n])) else Err(MissingNode)
    case DirMap(content, children) => Ok(c.(dirs := c.dirs[content := children]))
    case HeadOp(root, _) => Ok(c.(root := root))
    case SnapshotOp(name, root) => Ok(c.(snapshots := c.snapshots[name := root]))
    case _ => Ok(c)
  }

  function ApplyAll(c: Core, rs: seq<LogRecord>): Result<Core>
    decreases |rs|
  {
    if rs == [] then Ok(c)
    else match Apply(c, rs[0])
      case Err(e) => Err(e)
      case Ok(d) => ApplyAll(d, rs[1..])
  }

  lemma {:induction false} ApplyConcat(c: Core, a: seq<LogRecord>, b: seq<LogRecord>)
    ensures ApplyAll(c, a + b) == match ApplyAll(c, a) case Err(e) => Err(e) case Ok(d) => ApplyAll(d, b)
    decreases |a|
  {
    if a == [] {
      assert a + b == b;
    } else {
      assert (a + b)[1..] == a[1..] + b;
      if Apply(c, a[0]).Ok? { ApplyConcat(Apply(c, a[0]).value, a[1..], b); }
    }
  }

  /** All records of a list of transactions, in order. */
  function AllRecords(ts: seq<W.Txn<Hash, Node>>): seq<LogRecord>
  {
    if ts == [] then [] else ts[0].records + AllRecords(ts[1..])
  }

  // ---------------------------------------------------------------------
  // Replaying twice
  // ---------------------------------------------------------------------

  /** What a list of records writes in the end. */
  datatype Effect = Effect(repo: map<Hash, Node>, dirs: map<Hash, ChildMap>, root: Option<Hash>, snapshots: map<string, Hash>)

  function Overwrite(c: Core, e: Effect): Core
  {
    Core(c.repo + e.repo, c.dirs + e.dirs, if e.root.Some? then e.root.value else c.root, c.snapshots + e.snapshots)
  }

  function Then(e: Effect, r: LogRecord): Effect
  {
    match r
    case VNode(n) => e.(repo := e.repo[n.selfHash := n])
    case DirMap(content, children) => e.(dirs := e.dirs[content := children])
    case HeadOp(root, _) => e.(root := Some(root))
    case SnapshotOp(name, root) => e.(snapshots := e.snapshots[name := root])
    case _ => e
  }

  function EffectOf(rs: seq<LogRecord>): Effect
  {
    if rs == [] then Effect(map[], map[], None, map[]) else Then(EffectOf(rs[..|rs| - 1]), rs[|rs| - 1])
  }

  lemma {:induction false} ApplyIsOverwrite(c: Core, rs: seq<LogRecord>)
    requires ApplyAll(c, rs).Ok?
    ensures ApplyAll(c, rs) == Ok(Overwrite(c, EffectOf(rs)))
    decreases |rs|
  {
    if rs == [] {
      assert Overwrite(c, EffectOf(rs)) == c;
    } else {
      var init, r := rs[..|rs| - 1], rs[|rs| - 1];
      assert rs == init + [r];
      ApplyConcat(c, init, [r]);
      ApplyIsOverwrite(c, init);
      var d, e := Overwrite(c, EffectOf(init)), EffectOf(init);
      assert ApplyAll(d, [r]) == Apply(d, r);
      OneMore(c, e, r);
    }
  }

  lemma OneMore(c: Core, e: Effect, r: LogRecord)
    requires Apply(Overwrite(c, e), r).Ok?
    ensures Apply(Overwrite(c, e), r) == Ok(Overwrite(c, Then(e, r)))
  {
    match r {
      case VNode(n) => PutLater(c.repo, e.repo, n.selfHash, n);
      case DirMap(content, children) => PutLater(c.dirs, e.dirs, content, children);
      case SnapshotOp(name, root) => PutLater(c.snapshots, e.snapshots, name, root);
      case _ =>
    }
  }

  lemma PutLater<K, V>(a: map<K, V>, b: map<K, V>, k: K, v: V)
    ensures (a + b)[k := v] == a + b[k := v]
  {
  }

  lemma {:induction false} ApplyOkAnywhere(c: Core, d: Core, rs: seq<LogRecord>)
    requires ApplyAll(c, rs).Ok?
    ensures ApplyAll(d, rs).Ok?
    decreases |rs|
  {
    if rs != [] { ApplyOkAnywhere(Apply(c, rs[0]).value, Apply(d, rs[0]).value, rs[1..]); }
  }

  /** Replaying the same records twice gives the same as once. */
  lemma ReplayTwice(c: Core, rs: seq<LogRecord>)
    requires ApplyAll(c, rs).Ok?
    ensures ApplyAll(ApplyAll(c, rs).value, rs) == ApplyAll(c, rs)
  {
    var d := ApplyAll(c, rs).value;
    ApplyOkAnywhere(c, d, rs);
    ApplyIsOverwrite(c, rs);
    ApplyIsOverwrite(d, rs);
    var e := EffectOf(rs);
    assert c.repo + e.repo + e.repo == c.repo + e.repo;
    assert c.dirs + e.dirs + e.dirs == c.dirs + e.dirs;
    assert c.snapshots + e.snapshots + e.snapshots == c.snapshots + e.snapshots;
  }

  // ---------------------------------------------------------------------
  // The records of one write
  // ---------------------------------------------------------------------

  /** The log records of directory nodes created: each node, then its child map. */
  function CreatedRecords(cs: seq<Created>): seq<LogRecord>
  {
    if cs == [] then []
    else
      CreatedRecords(cs[..|cs| - 1]) + [W.VNode(cs[|cs| - 1].node)]
      + match cs[|cs| - 1].children
        case None => []
        case Some(m) => [W.DirMap(cs[|cs| - 1].node.body.content, m)]
  }

  /** Replaying what s' has created since s, on top of s, gives the objects of s'. */
  ghost predicate Recorded(s: State, s': State)
  {
    && |s.created| <= |s'.created| && s'.created[..|s.created|] == s.created
    && ApplyAll(CoreOf(s), CreatedRecords(s'.created[|s.created|..])) == Ok(CoreOf(s').(root := s.root, snapshots := s.snapshots))
  }

  lemma RecordedSelf(s: State)
    ensures Recorded(s, s)
  {
    assert s.created[|s.created|..] == [];
  }

  lemma RecordedMore(s: State, s1: State, children: ChildMap, parent: Hash, ts: nat)
    requires Recorded(s, s1)
    ensures Recorded(s, AddDir(s1, children, parent, ts))
  {
    var n := DirNode(s1, children, parent, ts);
    var s2 := AddDir(s1, children, parent, ts);
    var before, after := s1.created[|s.created|..], s2.created[|s.created|..];
    assert after == before + [Created(n, Some(children))];
    CreatedOneMore(before, n, children);
    var c := ApplyAll(CoreOf(s), CreatedRecords(before)).value;
    ApplyConcat(CoreOf(s), CreatedRecords(before), [W.VNode(n), W.DirMap(n.body.content, children)]);
    ApplyDir(c, n, children);
  }

  lemma CreatedOneMore(cs: seq<Created>, n: Node, children: ChildMap)
    ensures CreatedRecords(cs + [Created(n, Some(children))]) == CreatedRecords(cs) + [W.VNode(n), W.DirMap(n.body.content, children)]
  {
    var more := cs + [Created(n, Some(children))];
    assert more[..|more| - 1] == cs;
  }

  lemma ApplyDir(c: Core, n: Node, children: ChildMap)
    requires Verifies(n)
    ensures ApplyAll(c, [W.VNode(n), W.DirMap(n.body.content, children)])
      == Ok(c.(repo := c.repo[n.selfHash := n], dirs := c.dirs[n.body.content := children]))
  {
    var two: seq<LogRecord> := [W.VNode(n), W.DirMap(n.body.content, children)];
    assert two[1..] == [W.DirMap(n.body.content, children)];
    ApplyOne(c.(repo := c.repo[n.selfHash := n]), W.DirMap(n.body.content, children));
  }

  lemma ApplyOne(c: Core, r: LogRecord)
    ensures ApplyAll(c, [r]) == Apply(c, r)
  {
    assert [r][1..] == [];
  }

  lemma {:induction false} RebuildRecorded(s0: State, s: State, dir: Hash, p: Path, head: Hash, create: bool, ts: nat)
    requires Recorded(s0, s) && p != []
    ensures Recorded(s0, Rebuild(s, dir, p, head, create, ts).0)
    decreases |p|
  {
    hide Recorded, AddDir, DirNode;
    match ChildrenOf(s, dir) {
      case Err(_) =>
      case Ok(m) =>
        var sub := Descend(s, dir, m, p, head, create, ts);
        if |p| > 1 {
          if p[0] in m {
            if m[p[0]] in s.repo && s.repo[m[p[0]]].body.kind == Directory { RebuildRecorded(s0, s, m[p[0]], p[1..], head, create, ts); }
          } else if create {
            RecordedMore(s0, s, map[], dir, ts);
            RebuildRecorded(s0, AddDir(s, map[], dir, ts), DirNode(s, map[], dir, ts).selfHash, p[1..], head, create, ts);
          }
        }
        if sub.1.Ok? { RecordedMore(s0, sub.0, m[p[0] := sub.1.value], dir, ts); }
    }
  }

  /** Records that leave the namespace alone. */
  predicate Foreign(r: LogRecord)
  {
    r.Data? || r.RefOp?
  }

  lemma {:induction false} ForeignChangesNothing(c: Core, rs: seq<LogRecord>)
    requires forall r :: r in rs ==> Foreign(r)
    ensures ApplyAll(c, rs) == Ok(c)
  {
    if rs != [] {
      assert Foreign(rs[0]);
      ForeignChangesNothing(c, rs[1..]);
    }
  }

  /** The log records of a write: payload bookkeeping, the file node, the rebuilt directories, the new root. */
  function WriteRecords(extra: seq<LogRecord>, node: Node, cs: seq<Created>, root: Hash, ts: nat): seq<LogRecord>
  {
    extra + [W.VNode(node)] + CreatedRecords(cs) + [W.HeadOp(root, ts)]
  }

  /** Replaying a write's records on the state before it gives the state after it. */
  lemma WriteReplays(s: State, extra: seq<LogRecord>, node: Node, p: Path, ts: nat)
    requires s.created == [] && Verifies(node) && (forall r :: r in extra ==> Foreign(r))
    requires var s1 := s.(repo := s.repo[node.selfHash := node]); SetPath(s1, p, node.selfHash, true, ts).1.Ok?
    ensures var s1 := s.(repo := s.repo[node.selfHash := node]);
      var r := SetPath(s1, p, node.selfHash, true, ts);
      ApplyAll(CoreOf(s), WriteRecords(extra, node, r.0.created, r.1.value, ts)) == Ok(CoreOf(r.0))
  {
    hide Recorded, Rebuild;
    var s1 := s.(repo := s.repo[node.selfHash := node]);
    var r := Rebuild(s1, s1.root, p, node.selfHash, true, ts);
    RecordedSelf(s1);
    RebuildRecorded(s1, s1, s1.root, p, node.selfHash, true, ts);
    UseRecorded(s1, r.0);
    SnapshotsKept(s1, s1.root, p, node.selfHash, true, ts);
    var head := W.HeadOp(r.1.value, ts);
    var made := CreatedRecords(r.0.created);
    ForeignChangesNothing(CoreOf(s), extra);
    ApplyConcat(CoreOf(s), extra, [W.VNode(node)]);
    ApplyOne(CoreOf(s), W.VNode(node));
    ApplyConcat(CoreOf(s), extra + [W.VNode(node)], made);
    ApplyConcat(CoreOf(s), extra + [W.VNode(node)] + made, [head]);
    ApplyOne(CoreOf(r.0).(root := s1.root), head);
  }

  lemma UseRecorded(s: State, s': State)
    requires Recorded(s, s') && s.created == []
    ensures ApplyAll(CoreOf(s), CreatedRecords(s'.created)) == Ok(CoreOf(s').(root := s.root, snapshots := s.snapshots))
  {
    assert s'.created[0..] == s'.created;
  }

  lemma {:induction false} SnapshotsKept(s: State, dir: Hash, p: Path, head: Hash, create: bool, ts: nat)
    requires p != []
    ensures var s' := Rebuild(s, dir, p, head, create, ts).0; s'.snapshots == s.snapshots && s'.root == s.root
    decreases |p|
  {
    match ChildrenOf(s, dir) {
      case Err(_) =>
      case Ok(m) =>
        if |p| > 1 {
          if p[0] in m {
            SnapshotsKept(s, m[p[0]], p[1..], head, create, ts);
          } else {
            SnapshotsKept(AddDir(s, map[], dir, ts), DirNode(s, map[], dir, ts).selfHash, p[1..], head, create, ts);
          }
        }
    }
  }

  lemma {:induction false} CreatedPlain(cs: seq<Created>)
    ensures forall r :: r in CreatedRecords(cs) ==> !r.Commit?
  {
    if cs != [] { CreatedPlain(cs[..|cs| - 1]); }
  }

  // ---------------------------------------------------------------------
  // Nodes that nothing refers to
  // ---------------------------------------------------------------------

  /** b is s with some nodes missing. */
  ghost predicate Within(b: State, s: State)
  {
    b.(repo := s.repo) == s && forall h :: h in b.repo ==> h in s.repo && s.repo[h] == b.repo[h]
  }

  lemma WithinGrows(b: State, s: State)
    requires Within(b, s)
    ensures Grows(b, s)
  {
  }

  lemma WithinDir(b: State, s: State, children: ChildMap, parent: Hash, ts: nat)
    requires Within(b, s) && parent in b.repo
    ensures DirNode(b, children, parent, ts) == DirNode(s, children, parent, ts) && Within(AddDir(b, children, parent, ts), AddDir(s, children, parent, ts))
  {
  }

  lemma WithinChildren(b: State, s: State, dir: Hash)
    requires Within(b, s) && Closed(b) && dir in b.repo
    ensures ChildrenOf(s, dir) == ChildrenOf(b, dir)
    ensures ChildrenOf(b, dir).Ok? ==> forall n :: n in ChildrenOf(b, dir).value ==> ChildrenOf(b, dir).value[n] in b.repo
  {
  }

  /** Nodes that nothing refers to play no part in a rebuild. */
  lemma {:induction false} RebuildWithin(b: State, s: State, dir: Hash, p: Path, head: Hash, create: bool, ts: nat)
    requires Within(b, s) && Good(b) && Closed(b) && dir in b.repo && p != []
    ensures var q, r := Rebuild(b, dir, p, head, create, ts), Rebuild(s, dir, p, head, create, ts);
      q.1 == r.1 && Within(q.0, r.0)
    decreases |p|
  {
    hide Within, Good, Closed, AddDir, DirNode, ChildrenOf, Descend;
    WithinChildren(b, s, dir);
    match ChildrenOf(b, dir) {
      case Err(_) =>
      case Ok(m) =>
        DescendWithin(b, s, dir, m, p, head, create, ts);
        DescendGrows(b, dir, m, p, head, create, ts);
        var q, r := Descend(b, dir, m, p, head, create, ts), Descend(s, dir, m, p, head, create, ts);
        StillStored(b, q.0, dir);
        if q.1.Ok? { WithinDir(q.0, r.0, m[p[0] := q.1.value], dir, ts); }
    }
  }

  lemma StillStored(s: State, s': State, h: Hash)
    requires Grows(s, s') && h in s.repo
    ensures h in s'.repo
  {
  }

  lemma {:induction false} DescendWithin(b: State, s: State, dir: Hash, m: ChildMap, p: Path, head: Hash, create: bool, ts: nat)
    requires Within(b, s) && Good(b) && Closed(b) && dir in b.repo && p != [] && forall n :: n in m ==> m[n] in b.repo
    ensures var q, r := Descend(b, dir, m, p, head, create, ts), Descend(s, dir, m, p, head, create, ts);
      q.1 == r.1 && Within(q.0, r.0)
    decreases |p|, 0
  {
    hide Good, Closed, AddDir, DirNode, ChildrenOf, Rebuild;
    if |p| > 1 {
      if p[0] in m {
        RebuildWithin(b, s, m[p[0]], p[1..], head, create, ts);
      } else {
        var made := DirNode(b, map[], dir, ts).selfHash;
        WithinDir(b, s, map[], dir, ts);
        AddDirGood(b, map[], dir, ts);
        AddDirClosed(b, map[], dir, ts);
        RebuildWithin(AddDir(b, map[], dir, ts), AddDir(s, map[], dir, ts), made, p[1..], head, create, ts);
      }
    }
  }

  /** The recovered part says all there is to say about a state: only nodes that nothing refers to are missing. */
  ghost predicate Mirrors(c: Core, s: State)
  {
    var b := s.(repo := c.repo);
    CoreOf(b) == c && Within(b, s) && Good(b) && Closed(b) && RootsStored(b)
  }

  /** A state whose objects are those of c resolves every path, under the root and under every snapshot, as s does. */
  lemma MirrorResolves(c: Core, s: State, h: Hash, q: Path)
    requires Mirrors(c, s) && (h == s.root || exists n :: n in s.snapshots && s.snapshots[n] == h)
    ensures ResolveUnder(s.(repo := c.repo), h, q) == ResolveUnder(s, h, q)
  {
    var b := s.(repo := c.repo);
    WithinGrows(b, s);
    ClosedResolves(b, h, q);
    ResolveStable(b, s, h, q);
  }

  lemma MirrorRoot(c: Core, s: State)
    requires Mirrors(c, s)
    ensures c.root == s.root
  {
  }

  lemma SelfMirrors(s: State)
    requires Good(s) && Closed(s) && RootsStored(s)
    ensures Mirrors(CoreOf(s), s)
  {
  }

  /** A node that nothing refers to can be stored without being logged. */
  lemma OrphanMirrors(c: Core, s: State, node: Node)
    requires Mirrors(c, s) && (node.selfHash in s.repo ==> s.repo[node.selfHash] == node)
    ensures Mirrors(c, s.(repo := s.repo[node.selfHash := node]))
  {
    var b, s1 := s.(repo := c.repo), s.(repo := s.repo[node.selfHash := node]);
    assert s1.(repo := c.repo) == b;
  }

  /** Replaying a write on a mirror of the state before it gives a mirror of the state after it. */
  lemma WriteMirrors(c: Core, s: State, extra: seq<LogRecord>, node: Node, p: Path, ts: nat) returns (c': Core)
    requires Mirrors(c, s) && s.created == [] && Verifies(node) && node.body.kind != Directory && (forall r :: r in extra ==> Foreign(r))
    requires SetPath(s.(repo := s.repo[node.selfHash := node]), p, node.selfHash, true, ts).1.Ok?
    ensures var r := SetPath(s.(repo := s.repo[node.selfHash := node]), p, node.selfHash, true, ts);
      && ApplyAll(c, WriteRecords(extra, node, r.0.created, r.1.value, ts)) == Ok(c')
      && Mirrors(c', r.0.(created := []))
  {
    hide Good, Closed, Rebuild, WriteRecords, ApplyAll, Grows, Clear;
    var b, s1 := s.(repo := c.repo), s.(repo := s.repo[node.selfHash := node]);
    var b1 := b.(repo := b.repo[node.selfHash := node]);
    PlacedWithin(b, s, node);
    RebuildWithin(b1, s1, s1.root, p, node.selfHash, true, ts);
    WriteReplays(b, extra, node, p, ts);
    var q, r := SetPath(b1, p, node.selfHash, true, ts), SetPath(s1, p, node.selfHash, true, ts);
    c' := CoreOf(q.0);
    SetPathClosed(b1, p, node.selfHash, true, ts);
    SetPathSucceeds(b1, p, node.selfHash, true, ts);
    RebuildGrows(b1, b1.root, p, node.selfHash, true, ts);
    SetPathEffect(b1, p, node.selfHash, true, ts, [], b1.root);
    RootsKeep(b1, q.0);
    MirrorDrained(q.0, r.0);
  }

  lemma PlacedWithin(b: State, s: State, node: Node)
    requires Within(b, s) && Good(b) && Closed(b) && RootsStored(b) && Verifies(node) && node.body.kind != Directory
    ensures var b1, s1 := b.(repo := b.repo[node.selfHash := node]), s.(repo := s.repo[node.selfHash := node]);
      Within(b1, s1) && Good(b1) && Closed(b1) && RootsStored(b1) && node.selfHash in b1.repo
  {
  }

  lemma MirrorDrained(b: State, s: State)
    requires Within(b, s) && Good(b) && Closed(b) && RootsStored(b)
    ensures Mirrors(CoreOf(b), s.(created := []))
  {
    var d := s.(created := []);
    assert d.(repo := b.repo) == b.(created := []);
  }

  lemma SnapshotMirrors(c: Core, s: State, name: string)
    requires Mirrors(c, s)
    ensures Apply(c, W.SnapshotOp(name, s.root)).Ok? && Mirrors(Apply(c, W.SnapshotOp(name, s.root)).value, Snapshot(s, name))
  {
    var b := s.(repo := c.repo);
    assert Snapshot(s, name).(repo := c.repo) == Snapshot(b, name);
  }

  lemma RestoreMirrors(c: Core, s: State, name: string, ts: nat)
    requires Mirrors(c, s) && name in s.snapshots
    ensures var r := Restore(s, name);
      r.1.Ok? && Apply(c, W.HeadOp(r.1.value, ts)).Ok? && Mirrors(Apply(c, W.HeadOp(r.1.value, ts)).value, r.0)
  {
    var r := Restore(s, name);
    var b := s.(repo := c.repo);
    assert IsDir(b, b.snapshots[name]);
    assert r.0.(repo := c.repo) == b.(root := r.0.root, chain := r.0.chain);
  }

  // ---------------------------------------------------------------------
  // The chain of roots
  // ---------------------------------------------------------------------

  /** The root and the chain of roots, as replay rebuilds them. */
  datatype Trail = Trail(root: Hash, chain: seq<(nat, Hash)>)

  /** A root is entered in the chain only when it is a change. */
  function Follow(t: Trail, r: LogRecord): Trail
  {
    if r.HeadOp? && r.root != t.root then Trail(r.root, t.chain + [(r.ts, r.root)]) else t
  }

  function FollowAll(t: Trail, rs: seq<LogRecord>): Trail
    decreases |rs|
  {
    if rs == [] then t else FollowAll(Follow(t, rs[0]), rs[1..])
  }

  lemma {:induction false} FollowConcat(t: Trail, a: seq<LogRecord>, b: seq<LogRecord>)
    ensures FollowAll(t, a + b) == FollowAll(FollowAll(t, a), b)
    decreases |a|
  {
    if a == [] {
      assert a + b == b;
    } else {
      assert (a + b)[1..] == a[1..] + b;
      FollowConcat(Follow(t, a[0]), a[1..], b);
    }
  }

  lemma {:induction false} FollowNothing(t: Trail, rs: seq<LogRecord>)
    requires forall r :: r in rs ==> !r.HeadOp?
    ensures FollowAll(t, rs) == t
  {
    if rs != [] { FollowNothing(t, rs[1..]); }
  }

  lemma FollowOne(t: Trail, r: LogRecord)
    ensures FollowAll(t, [r]) == Follow(t, r)
  {
    assert [r][1..] == [];
  }

  lemma {:induction false} CreatedHeadless(cs: seq<Created>)
    ensures forall r :: r in CreatedRecords(cs) ==> !r.HeadOp?
  {
    if cs != [] { CreatedHeadless(cs[..|cs| - 1]); }
  }

  /** Of the records of a write only the last one concerns the chain. */
  lemma FollowWrite(t: Trail, extra: seq<LogRecord>, node: Node, cs: seq<Created>, root: Hash, ts: nat)
    requires forall r :: r in extra ==> Foreign(r)
    ensures FollowAll(t, WriteRecords(extra, node, cs, root, ts)) == Follow(t, W.HeadOp(root, ts))
  {
    CreatedHeadless(cs);
    var before := extra + [W.VNode(node)] + CreatedRecords(cs);
    FollowConcat(t, before, [W.HeadOp(root, ts)]);
    FollowNothing(t, before);
    FollowOne(t, W.HeadOp(root, ts));
  }

  /** The chain ends with the current root, at the time of that root's node. */
  ghost predicate Current(s: State)
  {
    s.chain != [] && s.root in s.repo && s.chain[|s.chain| - 1] == (s.repo[s.root].body.ts, s.root)
  }

  /** For every time the same root is chosen from both chains. */
  ghost predicate SameTravel(a: seq<(nat, Hash)>, b: seq<(nat, Hash)>)
  {
    a != [] && b != [] && a[|a| - 1] == b[|b| - 1] && forall t: nat :: Pick(a, t, |a|) == Pick(b, t, |b|)
  }

  lemma TravelOn(a: seq<(nat, Hash)>, b: seq<(nat, Hash)>, x: (nat, Hash))
    requires SameTravel(a, b)
    ensures SameTravel(a + [x], b + [x])
  {
    forall t: nat ensures Pick(a + [x], t, |a + [x]|) == Pick(b + [x], t, |b + [x]|) {
      PickLast(a, x, t);
      PickLast(b, x, t);
    }
  }

  /** Entering the last root once more makes no difference. */
  lemma TravelAgain(a: seq<(nat, Hash)>, b: seq<(nat, Hash)>)
    requires SameTravel(a, b)
    ensures SameTravel(a, b + [b[|b| - 1]])
  {
    var x := b[|b| - 1];
    forall t: nat ensures Pick(b + [x], t, |b + [x]|) == Pick(a, t, |a|) { PickLast(b, x, t); }
  }

  /** A new root always differs from the one it replaces, so a write is entered in the recovered chain too. */
  lemma WriteTravels(t: Trail, s: State, extra: seq<LogRecord>, node: Node, p: Path, head: Hash, ts: nat)
    requires Good(s) && t.root == s.root && SameTravel(t.chain, s.chain) && (forall r :: r in extra ==> Foreign(r))
    requires SetPath(s, p, head, true, ts).1.Ok?
    ensures var r := SetPath(s, p, head, true, ts);
      var t' := FollowAll(t, WriteRecords(extra, node, r.0.created, r.1.value, ts));
      t'.root == r.0.root && SameTravel(t'.chain, r.0.chain) && Current(r.0)
  {
    hide Good, SameTravel, WriteRecords, Descend, Grows, Pick;
    var r := SetPath(s, p, head, true, ts);
    RebuildGrows(s, s.root, p, head, true, ts);
    FollowWrite(t, extra, node, r.0.created, r.1.value, ts);
    NewRootDiffers(r.1.value, s.root);
    TravelOn(t.chain, s.chain, (ts, r.1.value));
  }

  lemma NewRootDiffers(h: Hash, was: Hash)
    requires h.OfNode? && h.body.parents == [was]
    ensures h != was
  {
    assert h.body.parents[0] == was;
  }

  lemma RestoreTravels(t: Trail, s: State, name: string)
    requires t.root == s.root && SameTravel(t.chain, s.chain) && Current(s) && Restore(s, name).1.Ok?
    ensures var r := Restore(s, name);
      var t' := Follow(t, W.HeadOp(r.1.value, r.0.repo[r.0.root].body.ts));
      t'.root == r.0.root && SameTravel(t'.chain, r.0.chain) && Current(r.0)
  {
    hide SameTravel;
    var r := Restore(s, name);
    var x := (s.repo[r.1.value].body.ts, r.1.value);
    if r.1.value == s.root { TravelAgain(t.chain, s.chain); } else { TravelOn(t.chain, s.chain, x); }
  }
}

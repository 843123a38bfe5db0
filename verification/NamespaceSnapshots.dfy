/** Snapshots over whole runs: what was taken comes back, whatever happened in between. */
module NamespaceSnapshots {
  import opened NamespaceModel
  import opened NamespaceHistory

  /** What a client does to the namespace: put a version node under a path, take a snapshot, go back to one. */
  datatype Op = Place(path: Path, node: Node, ts: nat) | Take(name: string) | GoBack(name: string)

  /** Calls that fail change no more than Perform says either. */
  function Perform(s: State, op: Op): State
  {
    match op
    case Place(path, node, ts) =>
      var r := SetPath(s.(repo := s.repo[node.selfHash := node]), path, node.selfHash, true, ts);
      if r.1.Ok? then r.0.(created := []) else r.0
    case Take(name) => Snapshot(s, name)
    case GoBack(name) => Restore(s, name).0
  }

  function PerformAll(s: State, ops: seq<Op>): State
  {
    if ops == [] then s else Perform(PerformAll(s, ops[..|ops| - 1]), ops[|ops| - 1])
  }

  /** Nodes are stored under their own hash, and directories are only made by the namespace. */
  predicate Allowed(op: Op)
  {
    op.Place? ==> Verifies(op.node) && op.node.body.kind != Directory
  }

  ghost predicate Sound(s: State)
  {
    Good(s) && Closed(s) && RootsStored(s)
  }

  lemma PlacedNode(s: State, node: Node)
    requires Sound(s) && Verifies(node) && node.body.kind != Directory
    ensures var s1 := s.(repo := s.repo[node.selfHash := node]); Sound(s1) && Grows(s, s1) && node.selfHash in s1.repo
  {
  }

  lemma SetPathSound(s: State, p: Path, head: Hash, ts: nat)
    requires Sound(s) && head in s.repo
    ensures var s' := SetPath(s, p, head, true, ts).0; Sound(s') && Grows(s, s') && s'.snapshots == s.snapshots
  {
    hide Good, Closed, Grows, Rebuild, Clear;
    SetPathClosed(s, p, head, true, ts);
    SetPathSucceeds(s, p, head, true, ts);
    GrowsSelf(s);
    if SetPath(s, p, head, true, ts).1.Ok? {
      SetPathEffect(s, p, head, true, ts, [], s.root);
      RebuildGrows(s, s.root, p, head, true, ts);
      RootsKeep(s, SetPath(s, p, head, true, ts).0);
    }
  }

  lemma Drained(s: State)
    requires Sound(s)
    ensures Sound(s.(created := []))
  {
  }

  lemma PlaceKeeps(s: State, path: Path, node: Node, ts: nat)
    requires Sound(s) && Verifies(node) && node.body.kind != Directory
    ensures var s' := Perform(s, Place(path, node, ts)); Sound(s') && Grows(s, s') && s'.snapshots == s.snapshots
  {
    hide Sound, Grows, SetPath;
    var s1 := s.(repo := s.repo[node.selfHash := node]);
    PlacedNode(s, node);
    SetPathSound(s1, path, node.selfHash, ts);
    var s2 := SetPath(s1, path, node.selfHash, true, ts).0;
    GrowsTrans(s, s1, s2);
    Drained(s2);
    GrowsDrained(s, s2);
  }

  lemma TakeKeeps(s: State, name: string)
    requires Sound(s)
    ensures Sound(Snapshot(s, name)) && Grows(s, Snapshot(s, name))
  {
  }

  lemma GoBackKeeps(s: State, name: string)
    requires Sound(s)
    ensures var s' := Restore(s, name).0; Sound(s') && Grows(s, s') && s'.snapshots == s.snapshots
  {
  }

  /** Every operation adds objects only, and only taking a snapshot of a name changes what that name stands for. */
  lemma PerformKeeps(s: State, op: Op, name: string)
    requires Sound(s) && Allowed(op)
    ensures Sound(Perform(s, op)) && Grows(s, Perform(s, op))
    ensures op != Take(name) ==> (name in Perform(s, op).snapshots <==> name in s.snapshots)
    ensures name in s.snapshots && op != Take(name) ==> Perform(s, op).snapshots[name] == s.snapshots[name]
  {
    hide Sound, Grows, SetPath, Restore;
    match op {
      case Place(path, node, ts) => PlaceKeeps(s, path, node, ts);
      case Take(taken) => TakeKeeps(s, taken);
      case GoBack(back) => GoBackKeeps(s, back);
    }
  }

  lemma GrowsDrained(s: State, s': State)
    requires Grows(s, s')
    ensures Grows(s, s'.(created := []))
  {
  }

  lemma {:induction false} RunKeeps(s: State, ops: seq<Op>, name: string)
    requires Sound(s) && (forall x :: 0 <= x < |ops| ==> Allowed(ops[x]) && ops[x] != Take(name)) && name in s.snapshots
    ensures var s' := PerformAll(s, ops); Sound(s') && Grows(s, s') && name in s'.snapshots && s'.snapshots[name] == s.snapshots[name]
    decreases |ops|
  {
    hide Sound, Grows, Perform, Allowed;
    if ops == [] {
      GrowsSelf(s);
    } else {
      var s1 := PerformAll(s, ops[..|ops| - 1]);
      RunKeeps(s, ops[..|ops| - 1], name);
      PerformKeeps(s1, ops[|ops| - 1], name);
      GrowsTrans(s, s1, PerformAll(s, ops));
    }
  }

  /** Going back to a snapshot, after any operations that did not take one of the same name, brings back the root
      that was current then, and every path means what it meant then. */
  lemma SnapshotComesBack(s: State, name: string, ops: seq<Op>, q: Path)
    requires Sound(s) && (forall x :: 0 <= x < |ops| ==> Allowed(ops[x]) && ops[x] != Take(name))
    ensures var later := PerformAll(Snapshot(s, name), ops);
      && Restore(later, name).1 == Ok(s.root)
      && Restore(later, name).0.root == s.root
      && Resolve(Restore(later, name).0, q) == Resolve(s, q)
  {
    hide Good, Grows, Closed, PerformAll, ResolveUnder;
    PerformKeeps(s, Take(name), name);
    var s1 := Snapshot(s, name);
    RunKeeps(s1, ops, name);
    var later := PerformAll(s1, ops);
    GrowsTrans(s, s1, later);
    ClosedResolves(s, s.root, q);
    ResolveStable(s, later, s.root, q);
    SameObjects(later, Restore(later, name).0, s.root, q);
  }

  /** A name that was never taken cannot be gone back to. */
  lemma {:induction false} NeverTaken(s: State, name: string, ops: seq<Op>)
    requires Sound(s) && name !in s.snapshots && (forall x :: 0 <= x < |ops| ==> Allowed(ops[x]) && ops[x] != Take(name))
    ensures var later := PerformAll(s, ops); Sound(later) && name !in later.snapshots && Restore(later, name) == (later, Err(PathNotFound))
    decreases |ops|
  {
    hide Sound, Grows, Allowed, SetPath;
    if ops != [] {
      var before, op := PerformAll(s, ops[..|ops| - 1]), ops[|ops| - 1];
      NeverTaken(s, name, ops[..|ops| - 1]);
      PerformKeeps(before, op, name);
    }
  }

  /** Going back rewrites the past: it enters the old root, with its old time, behind the newer ones. From that time
      on every lookup finds the restored tree, the time before the restore included; earlier lookups are as before. */
  lemma RestoreRewritesThePast(s: State, name: string, p: Path, t: nat)
    requires Sound(s) && s.chain != [] && name in s.snapshots
    ensures var root := s.snapshots[name]; var b := s.repo[root].body; var s' := Restore(s, name).0;
      Good(s') && ResolveAt(s', p, t) ==
        if b.ts > t then ResolveAt(s, p, t)
        else if |b.parents| > 1 then Err(TimeTravelAcrossMerge)
        else ResolveUnder(s, root, p)
  {
    hide Closed, ResolveUnder, Pick, Good;
    var root := s.snapshots[name];
    assert IsDir(s, root);
    var b, s' := s.repo[root].body, Restore(s, name).0;
    GoBackKeeps(s, name);
    PickLast(s.chain, (b.ts, root), t);
    var chosen := if b.ts > t then Pick(s.chain, t, |s.chain|) else root;
    SameWalk(s, s', chosen, t);
    if WalkBack(s, chosen, t).Ok? { SameObjects(s, s', WalkBack(s, chosen, t).value, p); }
  }
}

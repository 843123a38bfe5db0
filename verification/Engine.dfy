/** The namespace half of the engine: every change is logged as one batch, and any
    prefix of the log recovers the state after some whole number of changes. */
module Engine {
  import opened Options
  import opened NamespaceModel
  import opened NamespaceHistory
  import opened NamespaceSnapshots
  import opened Recovery
  import N = Namespace
  import W = Wal

  lemma {:induction false} AllRecordsSnoc(ts: seq<W.Txn<Hash, Node>>, t: W.Txn<Hash, Node>)
    ensures AllRecords(ts + [t]) == AllRecords(ts) + t.records
  {
    if ts == [] {
      assert ts + [t] == [t] && [t][1..] == [];
    } else {
      assert (ts + [t])[1..] == ts[1..] + [t];
      AllRecordsSnoc(ts[1..], t);
    }
  }

  /** history[i] is the state after the first i batches. */
  ghost predicate Logged(history: seq<Core>, ts: seq<W.Txn<Hash, Node>>)
  {
    |history| == |ts| + 1 && forall i :: 0 <= i < |ts| ==> ApplyAll(history[i], ts[i].records) == Ok(history[i + 1])
  }

  lemma {:induction false} LoggedReplays(history: seq<Core>, ts: seq<W.Txn<Hash, Node>>, j: nat)
    requires Logged(history, ts) && j <= |ts|
    ensures ApplyAll(history[0], AllRecords(ts[..j])) == Ok(history[j])
    decreases j
  {
    if j > 0 {
      LoggedReplays(history, ts, j - 1);
      assert ts[..j] == ts[..j - 1] + [ts[j - 1]];
      AllRecordsSnoc(ts[..j - 1], ts[j - 1]);
      ApplyConcat(history[0], AllRecords(ts[..j - 1]), ts[j - 1].records);
    }
  }

  lemma LoggedMore(history: seq<Core>, ts: seq<W.Txn<Hash, Node>>, t: W.Txn<Hash, Node>, c: Core)
    requires Logged(history, ts) && ApplyAll(history[|ts|], t.records) == Ok(c)
    ensures Logged(history + [c], ts + [t])
  {
    var h, u := history + [c], ts + [t];
    forall i | 0 <= i < |u| ensures ApplyAll(h[i], u[i].records) == Ok(h[i + 1]) {
      if i < |ts| { assert ApplyAll(history[i], ts[i].records) == Ok(history[i + 1]); }
    }
  }

  function ParentsOf(r: Result<Hash>): seq<Hash>
  {
    if r.Ok? then [r.value] else []
  }

  /** The path names the node, and paths that are neither above nor below it name what they named. */
  ghost predicate Installed(s: State, s': State, path: Path, h: Hash)
  {
    Resolve(s', path) == Ok(h) && forall q :: Diverge(path, q) ==> Resolve(s', q) == Resolve(s, q)
  }

  /** A node may have been added, but nothing else has changed, and every path means what it meant. */
  ghost predicate LeftAlone(s: State, s': State)
  {
    && Grows(s, s') && s' == s.(repo := s'.repo)
    && forall q :: Resolve(s', q) == Resolve(s, q)
  }

  /** The tombstone of a version: its content and metadata, with the version as parent. */
  ghost predicate TombOf(s: State, parent: Hash, node: Node, vclock: map<nat, nat>, ts: nat)
  {
    parent in s.repo && node == NewNode(Body(s.repo[parent].body.content, [parent], vclock, ts, Tombstone, s.repo[parent].body.meta))
  }

  lemma StaysAlone(s: State)
    ensures LeftAlone(s, s)
  {
    GrowsSelf(s);
  }

  lemma ResolvesAlike(s: State, s': State, h: Hash, q: Path)
    requires Closed(s) && h in s.repo && Grows(s, s')
    ensures ResolveUnder(s', h, q) == ResolveUnder(s, h, q)
  {
    hide Closed, Grows;
    ClosedResolves(s, h, q);
    ResolveStable(s, s', h, q);
  }

  /** Later objects do not get in the way of a path, nor out of it. */
  lemma ClearAlike(s: State, s': State, h: Hash, p: Path, create: bool)
    requires Closed(s) && h in s.repo && Grows(s, s')
    ensures Clear(s', h, p, create) <==> Clear(s, h, p, create)
  {
    hide Closed, ResolveUnder;
    forall k | 0 < k < |p|
      ensures ResolveUnder(s', h, p[..k]) == ResolveUnder(s, h, p[..k])
      ensures ResolveUnder(s, h, p[..k]).Ok? ==> (IsDir(s', ResolveUnder(s, h, p[..k]).value) <==> IsDir(s, ResolveUnder(s, h, p[..k]).value))
    {
      ResolvesAlike(s, s', h, p[..k]);
      ClosedResolves(s, h, p[..k]);
    }
  }

  lemma ClearToCreate(s: State, h: Hash, p: Path)
    requires Clear(s, h, p, false)
    ensures Clear(s, h, p, true)
  {
    hide ResolveUnder;
  }

  lemma FailureLeaves(s: State, node: Node)
    requires Closed(s) && Grows(s, s.(repo := s.repo[node.selfHash := node]))
    ensures LeftAlone(s, s.(repo := s.repo[node.selfHash := node]))
  {
    hide Grows, ResolveUnder;
    var s1 := s.(repo := s.repo[node.selfHash := node]);
    forall q ensures Resolve(s1, q) == Resolve(s, q) { ResolvesAlike(s, s1, s.root, q); }
  }

  lemma InstalledOk(s: State, node: Node, path: Path, ts: nat)
    requires Sound(s) && Verifies(node) && node.body.kind != Directory && path != [] && Clear(s, s.root, path, true)
    ensures var s' := Perform(s, Place(path, node, ts)); Installed(s, s', path, node.selfHash) && s'.chain == s.chain + [(ts, s'.root)]
  {
    hide Good, Closed, Grows, SetPath, ResolveUnder, Clear, Diverge;
    var s1 := s.(repo := s.repo[node.selfHash := node]);
    PlacedNode(s, node);
    ClearAlike(s, s1, s.root, path, true);
    SetPathSucceeds(s1, path, node.selfHash, true, ts);
    var r := SetPath(s1, path, node.selfHash, true, ts);
    var s' := Perform(s, Place(path, node, ts));
    SetPathEffect(s1, path, node.selfHash, true, ts, [], s1.root);
    ChainGrows(s1, path, node.selfHash, ts);
    SameObjects(r.0, s', r.0.root, path);
    forall q | Diverge(path, q) ensures Resolve(s', q) == Resolve(s, q) {
      SetPathEffect(s1, path, node.selfHash, true, ts, q, s1.root);
      ClosedResolves(s1, s1.root, q);
      ResolvesAlike(s, s1, s.root, q);
      SameObjects(r.0, s', r.0.root, q);
    }
  }

  lemma ChainGrows(s: State, path: Path, head: Hash, ts: nat)
    requires Good(s) && SetPath(s, path, head, true, ts).1.Ok?
    ensures var s' := SetPath(s, path, head, true, ts).0; s'.chain == s.chain + [(ts, s'.root)]
  {
    hide Good, Rebuild, Grows;
    RebuildGrows(s, s.root, path, head, true, ts);
  }

  /** trails[i] is what replaying the first i batches makes of the root and the chain of roots; lived[i] is the chain
      as it was then. */
  ghost predicate Travelled(history: seq<Core>, trails: seq<Trail>, lived: seq<seq<(nat, Hash)>>, ts: seq<W.Txn<Hash, Node>>)
  {
    && |history| == |trails| == |lived| == |ts| + 1
    && trails[0] == Trail(history[0].root, lived[0])
    && (forall i :: 0 <= i < |ts| ==> trails[i + 1] == FollowAll(trails[i], ts[i].records))
    && (forall i :: 0 <= i <= |ts| ==> trails[i].root == history[i].root && SameTravel(trails[i].chain, lived[i]))
  }

  lemma TravelledMore(history: seq<Core>, trails: seq<Trail>, lived: seq<seq<(nat, Hash)>>, ts: seq<W.Txn<Hash, Node>>,
                      c: Core, chain: seq<(nat, Hash)>, t: W.Txn<Hash, Node>)
    requires Travelled(history, trails, lived, ts)
    requires var trail := FollowAll(trails[|ts|], t.records); trail.root == c.root && SameTravel(trail.chain, chain)
    ensures Travelled(history + [c], trails + [FollowAll(trails[|ts|], t.records)], lived + [chain], ts + [t])
  {
    hide SameTravel;
  }

  lemma {:induction false} TravelledReplays(history: seq<Core>, trails: seq<Trail>, lived: seq<seq<(nat, Hash)>>, ts: seq<W.Txn<Hash, Node>>, j: nat)
    requires Travelled(history, trails, lived, ts) && j <= |ts|
    ensures FollowAll(trails[0], AllRecords(ts[..j])) == trails[j]
    decreases j
  {
    hide SameTravel;
    if j > 0 {
      TravelledReplays(history, trails, lived, ts, j - 1);
      assert ts[..j] == ts[..j - 1] + [ts[j - 1]];
      AllRecordsSnoc(ts[..j - 1], ts[j - 1]);
      FollowConcat(trails[0], AllRecords(ts[..j - 1]), ts[j - 1].records);
    }
  }

  lemma LastLogged(history: seq<Core>, trails: seq<Trail>, lived: seq<seq<(nat, Hash)>>, ts: seq<W.Txn<Hash, Node>>)
    requires Travelled(history, trails, lived, ts)
    ensures |history| == |trails| == |lived| == |ts| + 1
    ensures trails[|ts|].root == history[|ts|].root && SameTravel(trails[|ts|].chain, lived[|ts|])
  {
    hide SameTravel;
  }

  lemma NothingTravelled(c: Core, chain: seq<(nat, Hash)>)
    requires chain != []
    ensures Travelled([c], [Trail(c.root, chain)], [chain], []) && Logged([c], [])
  {
  }

  class Engine {
    const namespace: N.Namespace
    const wal: W.Wal<Hash, Node>
    const nodeId: nat
    var vclock: map<nat, nat>

    /** The recoverable state at the last checkpoint and after each batch since. */
    ghost var history: seq<Core>

    /** What recovery makes of the chain of roots, and the chain itself, at the same moments. */
    ghost var trails: seq<Trail>
    ghost var lived: seq<seq<(nat, Hash)>>

    /** The log replays to the states and chains there have been. */
    ghost predicate WellLogged()
      reads this, wal
    {
      && wal.Valid() && Logged(history, wal.committed) && Travelled(history, trails, lived, wal.committed)
      && forall x :: 0 <= x < |wal.committed| ==> W.Plain(wal.committed[x])
    }

    ghost predicate Valid()
      reads this, namespace, wal
    {
      && namespace.Valid() && namespace.created == [] && Current(namespace.Abs()) && WellLogged()
      && Mirrors(history[|wal.committed|], namespace.Abs()) && lived[|wal.committed|] == namespace.rootChain
    }

    constructor (id: nat, start: nat, codec: W.Codec<Hash, Node>)
      requires W.CodecOk(codec)
      ensures Valid() && history == [CoreOf(namespace.Abs())] && lived == [namespace.rootChain] && fresh(namespace) && fresh(wal)
      ensures namespace.Abs() == NewState(id, start) && nodeId == id && vclock == Increment(map[], id)
    {
      hide Travelled, Logged, Mirrors, Good, Closed, RootsStored, W.LogBytes, W.CodecOk;
      namespace := new N.Namespace(id, start);
      wal := new W.Wal(codec);
      nodeId := id;
      vclock := Increment(map[], id);
      new;
      history, trails, lived := [CoreOf(namespace.Abs())], [Trail(namespace.rootHead, namespace.rootChain)], [namespace.rootChain];
      SelfMirrors(namespace.Abs());
      NothingTravelled(CoreOf(namespace.Abs()), namespace.rootChain);
    }

    /** One more batch is in the log, and it replays to a mirror of the present state. */
    ghost predicate LoggedOne(history: seq<Core>, lived: seq<seq<(nat, Hash)>>)
      reads this, namespace
    {
      && |this.history| == |history| + 1 && this.history[..|history|] == history && Mirrors(this.history[|history|], namespace.Abs())
      && this.lived == lived + [namespace.rootChain]
    }

    /** The log is as it was. */
    ghost predicate NothingLogged(history: seq<Core>, lived: seq<seq<(nat, Hash)>>, file: seq<W.Byte>, committed: seq<W.Txn<Hash, Node>>)
      reads this, wal
    {
      this.history == history && this.lived == lived && wal.file == file && wal.committed == committed
    }

    /** Logs a change that has been made, as one batch; c is what it replays to. */
    method Log(records: seq<LogRecord>, ghost c: Core)
      requires namespace.Valid() && namespace.created == [] && Current(namespace.Abs()) && WellLogged()
      requires ApplyAll(history[|wal.committed|], records) == Ok(c) && Mirrors(c, namespace.Abs())
      requires var t := FollowAll(trails[|wal.committed|], records); t.root == c.root && SameTravel(t.chain, namespace.rootChain)
      requires forall r :: r in records ==> !r.Commit?
      modifies `history, `trails, `lived, wal
      ensures Valid() && LoggedOne(old(history), old(lived)) && |wal.committed| == old(|wal.committed|) + 1
    {
      hide ApplyAll, Good, Closed, W.LogBytes, W.CodecOk, Mirrors, SameTravel, FollowAll, RootsStored, Current;
      var txn := wal.CommitBatch(records);
      LoggedMore(history, old(wal.committed), W.Txn(txn, records), c);
      TravelledMore(history, trails, lived, old(wal.committed), c, namespace.rootChain, W.Txn(txn, records));
      trails := trails + [FollowAll(trails[|old(wal.committed)|], records)];
      lived := lived + [namespace.rootChain];
      history := history + [c];
    }

    /** Installs a version node under a path and logs everything that was created. A failing call logs nothing and
        changes no path; the node stays behind. */
    method Install(path: Path, node: Node, extra: seq<LogRecord>, ts: nat) returns (r: Result<Hash>)
      requires Valid() && Verifies(node) && node.body.kind != Directory && (forall x :: x in extra ==> Foreign(x))
      modifies `history, `trails, `lived, namespace, wal
      ensures Valid() && namespace.Abs() == Perform(old(namespace.Abs()), Place(path, node, ts))
      ensures r.Ok? <==> path != [] && Clear(old(namespace.Abs()), old(namespace.rootHead), path, true)
      ensures r.Ok? ==> r.value == node.selfHash && Installed(old(namespace.Abs()), namespace.Abs(), path, r.value) && LoggedOne(old(history), old(lived))
      ensures r.Err? ==> r == Err(NotADirectory) && LeftAlone(old(namespace.Abs()), namespace.Abs())
      ensures r.Err? ==> NothingLogged(old(history), old(lived), old(wal.file), old(wal.committed))
    {
      hide ApplyAll, Good, Closed, Grows, SetPath, CreatedRecords, W.LogBytes, W.CodecOk, ResolveUnder, Installed, LeftAlone, RootsStored, Resolve, Clear, Mirrors, Travelled, Logged, FollowAll, SameTravel;
      LastLogged(history, trails, lived, wal.committed);
      MirrorRoot(history[|wal.committed|], namespace.Abs());
      ghost var s := namespace.Abs();
      PlacedNode(s, node);
      ClearAlike(s, s.(repo := s.repo[node.selfHash := node]), s.root, path, true);
      var put := namespace.Put(node);
      var nodeHash := put.value;
      ghost var s1 := namespace.Abs();
      var newRoot := namespace.SetPathAt(path, nodeHash, ts);
      if newRoot.Err? {
        FailureLeaves(s, node);
        OrphanMirrors(history[|wal.committed|], s, node);
        return newRoot;
      }
      Drained(namespace.Abs());
      var drained := namespace.DrainCreated();
      var records := BuildRecords(extra, node, drained, newRoot.value, ts);
      ghost var c := WriteMirrors(history[|wal.committed|], s, extra, node, path, ts);
      WriteTravels(trails[|wal.committed|], s1, extra, node, path, nodeHash, ts);
      WritePlain(extra, node, drained, newRoot.value, ts);
      InstalledOk(s, node, path, ts);
      MirrorRoot(c, namespace.Abs());
      Log(records, c);
      return Ok(nodeHash);
    }

    /** Writes a file: `meta` is the hash of its chunk list, `extra` the chunk bookkeeping. */
    method Put(path: Path, meta: Hash, extra: seq<LogRecord>, ts: nat) returns (r: Result<Hash>)
      requires Valid() && forall x :: x in extra ==> Foreign(x)
      modifies this, namespace, wal
      ensures Valid() && vclock == Increment(old(vclock), nodeId)
      ensures r.Ok? <==> path != [] && Clear(old(namespace.Abs()), old(namespace.rootHead), path, true)
      ensures var node := NewNode(Body(meta, ParentsOf(old(Resolve(namespace.Abs(), path))), vclock, ts, File, 0));
        namespace.Abs() == Perform(old(namespace.Abs()), Place(path, node, ts)) && (r.Ok? ==> r.value == node.selfHash)
      ensures r.Ok? ==> Installed(old(namespace.Abs()), namespace.Abs(), path, r.value) && LoggedOne(old(history), old(lived))
      ensures r.Err? ==> r == Err(NotADirectory) && LeftAlone(old(namespace.Abs()), namespace.Abs())
      ensures r.Err? ==> NothingLogged(old(history), old(lived), old(wal.file), old(wal.committed))
    {
      hide Good, Closed, Logged, Travelled, W.LogBytes, W.CodecOk, ApplyAll, ResolveUnder, Installed, LeftAlone, RootsStored, Mirrors, Clear, SetPath;
      var parent := namespace.ResolvePath(namespace.rootHead, path);
      vclock := Increment(vclock, nodeId);
      var node := NewNode(Body(meta, ParentsOf(parent), vclock, ts, File, 0));
      r := Install(path, node, extra, ts);
    }

    /** Replaces whatever a path names by a tombstone. */
    method Delete(path: Path, extra: seq<LogRecord>, ts: nat) returns (r: Result<Hash>)
      requires Valid() && forall x :: x in extra ==> Foreign(x)
      modifies this, namespace, wal
      ensures Valid()
      ensures r.Ok? <==> path != [] && old(Resolve(namespace.Abs(), path)).Ok?
      ensures r.Ok? ==> r.value.OfNode? && TombOf(old(namespace.Abs()), old(Resolve(namespace.Abs(), path)).value, NewNode(r.value.body), vclock, ts)
      ensures r.Ok? ==> vclock == Increment(old(vclock), nodeId) && namespace.Abs() == Perform(old(namespace.Abs()), Place(path, NewNode(r.value.body), ts))
      ensures r.Ok? ==> Installed(old(namespace.Abs()), namespace.Abs(), path, r.value) && LoggedOne(old(history), old(lived))
      ensures r.Err? && path != [] ==> r == old(Resolve(namespace.Abs(), path)) && namespace.Abs() == old(namespace.Abs())
      ensures r.Err? ==> LeftAlone(old(namespace.Abs()), namespace.Abs()) && NothingLogged(old(history), old(lived), old(wal.file), old(wal.committed))
    {
      hide Good, Closed, Logged, Travelled, W.LogBytes, W.CodecOk, ApplyAll, ResolveUnder, Installed, LeftAlone, RootsStored, Mirrors, Clear, SetPath;
      ghost var s := namespace.Abs();
      StaysAlone(s);
      var found := namespace.ResolvePath(namespace.rootHead, path);
      if found.Err? {
        return found;
      }
      var parent := found.value;
      FoundIsStored(s, path);
      if parent !in namespace.repo {
        return Err(MissingNode);
      }
      var node := namespace.repo[parent];
      vclock := Increment(vclock, nodeId);
      var tomb := NewNode(Body(node.body.content, [parent], vclock, ts, Tombstone, node.body.meta));
      r := Install(path, tomb, extra, ts);
    }

    method Snapshot(name: string) returns (root: Hash)
      requires Valid()
      modifies this, namespace, wal
      ensures Valid() && LoggedOne(old(history), old(lived)) && namespace.Abs() == Perform(old(namespace.Abs()), Take(name))
      ensures root == old(namespace.rootHead) == namespace.rootHead == namespace.snapshots[name]
    {
      hide Good, Closed, Logged, W.LogBytes, W.CodecOk, ApplyAll, RootsStored, Mirrors, FollowAll, SameTravel;
      ghost var s, c := namespace.Abs(), history[|wal.committed|];
      root := namespace.TakeSnapshot(name);
      SnapshotMirrors(c, s, name);
      ApplyOne(c, W.SnapshotOp(name, root));
      FollowOne(trails[|wal.committed|], W.SnapshotOp(name, root));
      Log([W.SnapshotOp(name, root)], Apply(c, W.SnapshotOp(name, root)).value);
    }

    /** Goes back to a snapshot, if there is one of that name. */
    method Restore(name: string) returns (r: Result<Hash>)
      requires Valid()
      modifies this, namespace, wal
      ensures Valid() && namespace.Abs() == Perform(old(namespace.Abs()), GoBack(name))
      ensures r.Ok? <==> name in old(namespace.snapshots)
      ensures r.Ok? ==> r.value == namespace.rootHead == old(namespace.snapshots)[name] && LoggedOne(old(history), old(lived))
      ensures r.Err? ==> r == Err(PathNotFound) && namespace.Abs() == old(namespace.Abs())
      ensures r.Err? ==> NothingLogged(old(history), old(lived), old(wal.file), old(wal.committed))
    {
      hide Good, Closed, Logged, W.LogBytes, W.CodecOk, ApplyAll, RootsStored, Mirrors, FollowAll, SameTravel;
      LastLogged(history, trails, lived, wal.committed);
      MirrorRoot(history[|wal.committed|], namespace.Abs());
      ghost var s, c, t := namespace.Abs(), history[|wal.committed|], trails[|wal.committed|];
      r := namespace.RestoreSnapshot(name);
      if r.Ok? {
        var ts := namespace.repo[r.value].body.ts;
        RestoreMirrors(c, s, name, ts);
        ApplyOne(c, W.HeadOp(r.value, ts));
        FollowOne(t, W.HeadOp(r.value, ts));
        RestoreTravels(t, s, name);
        Log([W.HeadOp(r.value, ts)], Apply(c, W.HeadOp(r.value, ts)).value);
      }
    }

    /** Makes the present state the new starting point and empties the log. */
    method Checkpoint()
      requires Valid()
      modifies this, wal
      ensures Valid() && history == [CoreOf(namespace.Abs())] && lived == [namespace.rootChain] && wal.committed == []
      ensures vclock == old(vclock)
    {
      hide Travelled, Logged, Mirrors, Good, Closed, RootsStored, W.LogBytes, W.CodecOk;
      wal.Reset();
      SelfMirrors(namespace.Abs());
      NothingTravelled(CoreOf(namespace.Abs()), namespace.rootChain);
      history, trails, lived := [CoreOf(namespace.Abs())], [Trail(namespace.rootHead, namespace.rootChain)], [namespace.rootChain];
    }

    /** Crash recovery: cut the log at any byte; replaying it on the checkpoint gives the state after the batches that
        are wholly in it, and replaying it again changes nothing. Time travel then finds the same roots as it did. */
    lemma CrashRecovery(n: nat) returns (j: nat)
      requires Valid() && n <= |wal.file| && forall x :: 0 <= x < |wal.committed| ==> W.AllFit(wal.codec, wal.committed[x])
      ensures j <= |wal.committed| && j < |history| && j < |lived| && |W.LogBytes(wal.codec, wal.committed[..j])| <= n
      ensures j < |wal.committed| ==> n < |W.LogBytes(wal.codec, wal.committed[..j + 1])|
      ensures var rs := AllRecords(W.Parse(wal.codec, wal.file[..n], []));
        && ApplyAll(history[0], rs) == Ok(history[j]) && ApplyAll(history[j], rs) == Ok(history[j])
        && SameTravel(FollowAll(Trail(history[0].root, lived[0]), rs).chain, lived[j])
    {
      hide ApplyAll, Good, Closed, W.LogBytes, W.Parse, W.CodecOk, W.Plain, W.AllFit, Mirrors, SameTravel, FollowAll, RootsStored;
      j := W.WholeBatches(wal.codec, wal.committed, n);
      W.PrefixReplay(wal.codec, wal.committed, n, j);
      LoggedReplays(history, wal.committed, j);
      TravelledReplays(history, trails, lived, wal.committed, j);
      ReplayTwice(history[0], AllRecords(wal.committed[..j]));
    }
  }

  method BuildRecords(extra: seq<LogRecord>, node: Node, drained: seq<Created>, root: Hash, ts: nat) returns (records: seq<LogRecord>)
    ensures records == WriteRecords(extra, node, drained, root, ts)
  {
    hide CreatedRecords;
    records := extra + [W.VNode(node)];
    assert drained[..0] == [];
    NothingCreated();
    for i := 0 to |drained|
      invariant records == extra + [W.VNode(node)] + CreatedRecords(drained[..i])
    {
      CreatedStep(drained, i);
      records := records + [W.VNode(drained[i].node)];
      if drained[i].children.Some? {
        records := records + [W.DirMap(drained[i].node.body.content, drained[i].children.value)];
      }
    }
    assert drained[..|drained|] == drained;
    records := records + [W.HeadOp(root, ts)];
  }

  lemma NothingCreated()
    ensures CreatedRecords([]) == []
  {
  }

  lemma WritePlain(extra: seq<LogRecord>, node: Node, drained: seq<Created>, root: Hash, ts: nat)
    requires forall x :: x in extra ==> Foreign(x)
    ensures forall r :: r in WriteRecords(extra, node, drained, root, ts) ==> !r.Commit?
  {
    CreatedPlain(drained);
  }

  lemma CreatedStep(cs: seq<Created>, i: nat)
    requires i < |cs|
    ensures CreatedRecords(cs[..i + 1]) == CreatedRecords(cs[..i]) + [W.VNode(cs[i].node)]
      + if cs[i].children.Some? then [W.DirMap(cs[i].node.body.content, cs[i].children.value)] else []
  {
    assert cs[..i + 1][..i] == cs[..i];
  }

  lemma FoundIsStored(s: State, p: Path)
    requires Closed(s) && Resolve(s, p).Ok?
    ensures Resolve(s, p).value in s.repo && Clear(s, s.root, p, true)
  {
    hide Clear, ResolveUnder;
    ClosedResolves(s, s.root, p);
    ResolvesIsClear(s, s.root, p);
    ClearToCreate(s, s.root, p);
  }

  lemma NothingApplied(c: Core)
    ensures ApplyAll(c, []) == Ok(c) && AllRecords([]) == []
  {
  }

  method ApplyRecord(ns: N.Namespace, record: LogRecord) returns (r: Result<bool>)
    modifies ns
    ensures r.Ok? <==> Apply(old(CoreOf(ns.Abs())), record).Ok?
    ensures r.Ok? ==> Apply(old(CoreOf(ns.Abs())), record) == Ok(CoreOf(ns.Abs()))
    ensures Trail(ns.rootHead, ns.rootChain) == Follow(old(Trail(ns.rootHead, ns.rootChain)), record)
  {
    match record {
      case VNode(node) =>
        if !Verifies(node) {
          return Err(MissingNode);
        }
        ns.repo := ns.repo[node.selfHash := node];
      case DirMap(content, children) => ns.RegisterDir(content, children);
      case HeadOp(root, ts) => ns.SetRootFromRecovery(root, ts);
      case SnapshotOp(name, root) => ns.SnapshotFromRecovery(name, root);
      case _ =>
    }
    return Ok(true);
  }

  /** Applies the committed batches of a log to a namespace, one record at a time. */
  method ReplayWal(ns: N.Namespace, codec: W.Codec<Hash, Node>, raw: seq<W.Byte>) returns (r: Result<bool>)
    requires ns.Valid()
    modifies ns
    ensures r.Ok? <==> ApplyAll(old(CoreOf(ns.Abs())), AllRecords(W.Parse(codec, raw, []))).Ok?
    ensures r.Ok? ==> ApplyAll(old(CoreOf(ns.Abs())), AllRecords(W.Parse(codec, raw, []))) == Ok(CoreOf(ns.Abs()))
    ensures r.Ok? ==> r.value == (AllRecords(W.Parse(codec, raw, [])) != [])
    ensures r.Ok? ==> Trail(ns.rootHead, ns.rootChain) == FollowAll(old(Trail(ns.rootHead, ns.rootChain)), AllRecords(W.Parse(codec, raw, [])))
  {
    hide W.Parse, Apply, ApplyAll, CoreOf, AllRecords, Follow, FollowAll;
    ghost var t0 := Trail(ns.rootHead, ns.rootChain);
    FollowNothing(t0, []);
    NothingApplied(CoreOf(ns.Abs()));
    var txns := W.Replay(codec, raw);
    var applied := false;
    ghost var c0 := CoreOf(ns.Abs());
    ghost var done: seq<LogRecord> := [];
    assert txns[..0] == [];
    for i := 0 to |txns|
      invariant done == AllRecords(txns[..i]) && ApplyAll(c0, done) == Ok(CoreOf(ns.Abs())) && applied == (done != []) && FollowAll(t0, done) == Trail(ns.rootHead, ns.rootChain)
    {
      var records := txns[i].records;
      ghost var base := done;
      assert txns[..i + 1] == txns[..i] + [txns[i]];
      AllRecordsSnoc(txns[..i], txns[i]);
      assert base + records[..0] == base;
      for k := 0 to |records|
        invariant done == base + records[..k] && ApplyAll(c0, done) == Ok(CoreOf(ns.Abs())) && applied == (done != []) && FollowAll(t0, done) == Trail(ns.rootHead, ns.rootChain)
      {
        var record := records[k];
        assert base + records[..k + 1] == done + [record];
        ApplyConcat(c0, done, [record]);
        ApplyOne(CoreOf(ns.Abs()), record);
        FollowConcat(t0, done, [record]);
        FollowOne(Trail(ns.rootHead, ns.rootChain), record);
        var one := ApplyRecord(ns, record);
        if one.Err? {
          StopsHere(c0, txns, i, k);
          return Err(one.error);
        }
        done := done + [record];
        applied := true;
      }
      assert records[..|records|] == records;
    }
    assert txns[..|txns|] == txns;
    return Ok(applied);
  }

  /** A record that cannot be applied makes the whole replay fail. */
  lemma StopsHere(c: Core, ts: seq<W.Txn<Hash, Node>>, i: nat, k: nat)
    requires i < |ts| && k < |ts[i].records| && ApplyAll(c, AllRecords(ts[..i]) + ts[i].records[..k] + [ts[i].records[k]]).Err?
    ensures ApplyAll(c, AllRecords(ts)).Err?
  {
    var rs := ts[i].records;
    AllRecordsConcat(ts[..i], ts[i..]);
    assert ts == ts[..i] + ts[i..];
    assert rs == rs[..k] + [rs[k]] + rs[k + 1..];
    var before, after := AllRecords(ts[..i]) + rs[..k] + [rs[k]], rs[k + 1..] + AllRecords(ts[i + 1..]);
    assert ts[i..][1..] == ts[i + 1..];
    assert AllRecords(ts) == before + after;
    ApplyConcat(c, before, after);
  }

  lemma {:induction false} AllRecordsConcat(a: seq<W.Txn<Hash, Node>>, b: seq<W.Txn<Hash, Node>>)
    ensures AllRecords(a + b) == AllRecords(a) + AllRecords(b)
  {
    if a == [] {
      assert a + b == b;
    } else {
      assert (a + b)[1..] == a[1..] + b;
      AllRecordsConcat(a[1..], b);
    }
  }
}

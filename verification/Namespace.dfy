/** The namespace as the program keeps it: maps and a root pointer updated in place. */
module Namespace {
  import opened Options
  import opened NamespaceModel
  import opened NamespaceHistory

  /** When a directory can be rebuilt, and what its new version resolves to. */
  lemma RebuildMeaning(s: State, dir: Hash, p: Path, head: Hash, create: bool, ts: nat)
    requires p != []
    ensures var r := Rebuild(s, dir, p, head, create, ts);
      && (Good(s) && Closed(s) && IsDir(s, dir) ==> (r.1.Ok? <==> Clear(s, dir, p, create)) && (r.1.Err? ==> r.0 == s))
      && (Good(s) && r.1.Ok? ==> ResolveUnder(r.0, r.1.value, p) == Ok(head))
  {
    hide Rebuild, Good, Closed, Clear, ResolveUnder, IsDir;
    if Good(s) {
      if Closed(s) && IsDir(s, dir) { RebuildSucceeds(s, dir, p, head, create, ts); }
      if Rebuild(s, dir, p, head, create, ts).1.Ok? { RebuiltResolves(s, dir, p, head, create, ts); }
    }
  }

  lemma SetPathMeaning(s: State, p: Path, head: Hash, create: bool, ts: nat)
    ensures var r := SetPath(s, p, head, create, ts);
      && (Good(s) && Closed(s) && IsDir(s, s.root) ==> (r.1.Ok? <==> p != [] && Clear(s, s.root, p, create)) && (r.1.Err? ==> r.0 == s))
      && (Good(s) && r.1.Ok? ==> Resolve(r.0, p) == Ok(head))
  {
    hide Good, Closed, Clear, Rebuild, Resolve;
    if Good(s) {
      if Closed(s) && IsDir(s, s.root) { SetPathSucceeds(s, p, head, create, ts); }
      if SetPath(s, p, head, create, ts).1.Ok? { SetPathEffect(s, p, head, create, ts, [], s.root); }
    }
  }

  /** The writer's clock decides nothing about paths. */
  lemma ClockIsIdle(s: State, s': State, p: Path, create: bool)
    requires s' == s.(clock := s'.clock)
    ensures (Good(s) ==> Good(s')) && (Closed(s) ==> Closed(s')) && (RootsStored(s) ==> RootsStored(s'))
    ensures Clear(s', s.root, p, create) <==> Clear(s, s.root, p, create)
  {
    forall k | 0 < k < |p| ensures ResolveUnder(s', s.root, p[..k]) == ResolveUnder(s, s.root, p[..k]) { SameObjects(s, s', s.root, p[..k]); }
  }

  class Namespace {
    var repo: map<Hash, Node>
    var dirs: map<Hash, ChildMap>
    var rootHead: Hash
    var rootChain: seq<(nat, Hash)>
    var snapshots: map<string, Hash>
    var clock: nat
    var nodeId: nat
    var created: seq<Created>

    ghost function Abs(): State
      reads this
    {
      State(repo, dirs, rootHead, rootChain, snapshots, clock, nodeId, created)
    }

    ghost predicate Valid()
      reads this
    {
      Good(Abs()) && Closed(Abs()) && RootsStored(Abs())
    }

    constructor (id: nat, start: nat)
      ensures Valid() && Linear(Abs()) && Abs() == NewState(id, start)
    {
      var root := NewNode(Body(DirContent(map[]), [], Increment(map[], id), start, Directory, 0));
      repo := map[root.selfHash := root];
      dirs := map[DirContent(map[]) := map[]];
      rootHead := root.selfHash;
      rootChain := [(start, root.selfHash)];
      snapshots := map[];
      clock := start;
      nodeId := id;
      created := [];
    }

    /** Stores a node after checking its hash. */
    method Put(node: Node) returns (r: Result<Hash>)
      requires Valid()
      modifies `repo
      ensures r.Ok? <==> Verifies(node)
      ensures r.Ok? ==> r.value == node.selfHash && PutNode(old(Abs()), node) == Ok(Abs()) && Grows(old(Abs()), Abs())
      ensures r.Err? ==> Abs() == old(Abs())
      ensures node.body.kind != Directory ==> Valid()
    {
      if !Verifies(node) {
        return Err(MissingNode);
      }
      repo := repo[node.selfHash := node];
      return Ok(node.selfHash);
    }

    method Children(h: Hash) returns (r: Result<ChildMap>)
      ensures r == ChildrenOf(Abs(), h)
    {
      if h !in repo {
        return Err(MissingNode);
      }
      if repo[h].body.kind != Directory {
        return Err(NotADirectory);
      }
      if repo[h].body.content !in dirs {
        return Err(MissingNode);
      }
      return Ok(dirs[repo[h].body.content]);
    }

    method NewDirNodeAt(children: ChildMap, parent: Hash, ts: nat) returns (h: Hash)
      modifies `repo, `dirs, `created
      ensures Abs() == AddDir(old(Abs()), children, parent, ts) && h == DirNode(old(Abs()), children, parent, ts).selfHash
    {
      var parentClock := if parent in repo then repo[parent].body.vclock else map[];
      var node := NewNode(Body(DirContent(children), [parent], Increment(parentClock, nodeId), ts, Directory, 0));
      dirs := dirs[node.body.content := children];
      repo := repo[node.selfHash := node];
      created := created + [Created(node, Some(children))];
      h := node.selfHash;
    }

    /** Bottom-up rebuild of a directory with one path set. */
    method SetPathRecursive(dir: Hash, parts: Path, head: Hash, create: bool, ts: nat) returns (r: Result<Hash>)
      requires parts != []
      modifies `repo, `dirs, `created
      ensures (Abs(), r) == Rebuild(old(Abs()), dir, parts, head, create, ts)
      ensures old(Valid() && IsDir(Abs(), dir)) ==> (r.Ok? <==> Clear(old(Abs()), dir, parts, create)) && (r.Err? ==> Abs() == old(Abs()))
      ensures old(Valid()) && r.Ok? ==> ResolveUnder(Abs(), r.value, parts) == Ok(head)
      decreases |parts|
    {
      hide AddDir, DirNode, Good, Closed, RootsStored, Clear, ResolveUnder, IsDir;
      RebuildMeaning(Abs(), dir, parts, head, create, ts);
      var found := Children(dir);
      if found.Err? {
        return Err(found.error);
      }
      var children := found.value;
      var entry := head;
      if parts[0] in children {
        var h := children[parts[0]];
        if h !in repo {
          return Err(MissingNode);
        }
        if |parts| > 1 {
          if repo[h].body.kind != Directory {
            return Err(NotADirectory);
          }
          var sub := SetPathRecursive(h, parts[1..], head, create, ts);
          if sub.Err? {
            return sub;
          }
          entry := sub.value;
        }
      } else if |parts| > 1 {
        if !create {
          return Err(PathNotFound);
        }
        var newDir := NewDirNodeAt(map[], dir, ts);
        var sub := SetPathRecursive(newDir, parts[1..], head, create, ts);
        if sub.Err? {
          return sub;
        }
        entry := sub.value;
      }
      var hash := NewDirNodeAt(children[parts[0] := entry], dir, ts);
      return Ok(hash);
    }

    method SetPathInner(parts: Path, head: Hash, create: bool, ts: nat) returns (r: Result<Hash>)
      modifies `repo, `dirs, `created, `rootHead, `rootChain
      ensures (Abs(), r) == SetPath(old(Abs()), parts, head, create, ts)
      ensures old(Valid()) ==> (r.Ok? <==> parts != [] && Clear(old(Abs()), old(rootHead), parts, create)) && (r.Err? ==> Abs() == old(Abs()))
      ensures old(Valid()) && r.Ok? ==> r.value == rootHead && Resolve(Abs(), parts) == Ok(head)
    {
      hide Rebuild, Good, Closed, Clear, ResolveUnder;
      SetPathMeaning(Abs(), parts, head, create, ts);
      if parts == [] {
        return Err(NotADirectory);
      }
      r := SetPathRecursive(rootHead, parts, head, create, ts);
      if r.Ok? {
        rootHead := r.value;
        rootChain := rootChain + [(ts, r.value)];
      }
    }

    /** Sets a path, creating missing directories, at a given time. */
    method SetPathAt(parts: Path, head: Hash, ts: nat) returns (r: Result<Hash>)
      requires Valid() && head in repo
      modifies `repo, `dirs, `created, `rootHead, `rootChain
      ensures Valid() && Grows(old(Abs()), Abs()) && (Abs(), r) == SetPath(old(Abs()), parts, head, true, ts)
      ensures r.Ok? <==> parts != [] && Clear(old(Abs()), old(rootHead), parts, true)
      ensures r.Ok? ==> r.value == rootHead && Resolve(Abs(), parts) == Ok(head)
      ensures r.Err? ==> r == Err(NotADirectory) && Abs() == old(Abs())
    {
      hide Good, Grows, Closed, Rebuild, ResolveUnder, Clear;
      ghost var s := Abs();
      SetPathClosed(s, parts, head, true, ts);
      SetPathSucceeds(s, parts, head, true, ts);
      r := SetPathInner(parts, head, true, ts);
      GrowsSelf(s);
      if r.Ok? {
        SetPathEffect(s, parts, head, true, ts, [], s.root);
        RebuildGrows(s, s.root, parts, head, true, ts);
        RootsKeep(s, Abs());
      }
    }

    /** Sets a path at the next tick of the writer's own clock. */
    method SetPathTicking(parts: Path, head: Hash, create: bool) returns (r: Result<Hash>)
      modifies `repo, `dirs, `created, `rootHead, `rootChain, `clock
      ensures (Abs(), r) == SetPath(old(Abs()).(clock := old(clock) + 1), parts, head, create, old(clock) + 1)
      ensures old(Valid()) ==> (r.Ok? <==> parts != [] && Clear(old(Abs()), old(rootHead), parts, create))
      ensures old(Valid()) && r.Ok? ==> Resolve(Abs(), parts) == Ok(head)
    {
      hide Rebuild, ResolveUnder, Clear, Good, Closed;
      ghost var s := Abs();
      clock := clock + 1;
      ClockIsIdle(s, Abs(), parts, create);
      r := SetPathInner(parts, head, create, clock);
    }

    /** Walks a path down from a root. */
    method ResolvePath(root: Hash, parts: Path) returns (r: Result<Hash>)
      ensures r == ResolveUnder(Abs(), root, parts)
    {
      var cur := root;
      for i := 0 to |parts|
        invariant ResolveUnder(Abs(), cur, parts[i..]) == ResolveUnder(Abs(), root, parts)
      {
        var children := Children(cur);
        assert parts[i..][1..] == parts[i + 1..];
        if children.Err? {
          return Err(children.error);
        }
        if parts[i] !in children.value {
          return Err(PathNotFound);
        }
        cur := children.value[parts[i]];
      }
      return Ok(cur);
    }

    /** Resolves a path as of time t: newest root at or before t, then back along first parents. */
    method ResolvePathAt(parts: Path, t: nat) returns (r: Result<Hash>)
      requires Valid()
      ensures r == ResolveAt(Abs(), parts, t)
    {
      hide Closed, ResolveUnder;
      if rootChain == [] {
        return Err(MissingNode);
      }
      var chosen := rootChain[0].1;
      var i := |rootChain|;
      while i > 0
        invariant 0 <= i <= |rootChain| && Pick(rootChain, t, i) == Pick(rootChain, t, |rootChain|) && chosen == rootChain[0].1
      {
        if rootChain[i - 1].0 <= t {
          chosen := rootChain[i - 1].1;
          break;
        }
        i := i - 1;
      }
      var cur := chosen;
      while true
        invariant WalkBack(Abs(), cur, t) == WalkBack(Abs(), chosen, t)
        decreases cur
      {
        if cur !in repo {
          return Err(MissingNode);
        }
        var b := repo[cur].body;
        if b.ts > t {
          if b.parents == [] {
            return Err(TimeTravelAcrossMerge);
          }
          assert cur == OfNode(b);
          cur := b.parents[0];
          continue;
        }
        if |b.parents| > 1 {
          return Err(TimeTravelAcrossMerge);
        }
        break;
      }
      r := ResolvePath(cur, parts);
    }

    method TakeSnapshot(name: string) returns (root: Hash)
      requires Valid()
      modifies `snapshots
      ensures Valid() && Abs() == Snapshot(old(Abs()), name)
      ensures root == rootHead == snapshots[name] == old(rootHead)
    {
      root := rootHead;
      snapshots := snapshots[name := root];
    }

    /** Swaps the root to that of a snapshot, if there is one of that name. */
    method RestoreSnapshot(name: string) returns (r: Result<Hash>)
      requires Valid()
      modifies `rootHead, `rootChain
      ensures Valid() && (Abs(), r) == Restore(old(Abs()), name)
      ensures r.Ok? <==> name in old(snapshots)
      ensures r.Ok? ==> r.value == rootHead == old(snapshots)[name] && rootHead in repo && rootChain == old(rootChain) + [(repo[rootHead].body.ts, rootHead)]
      ensures r.Err? ==> r == Err(PathNotFound) && Abs() == old(Abs())
    {
      if name !in snapshots {
        return Err(PathNotFound);
      }
      var root := snapshots[name];
      rootHead := root;
      if root !in repo {
        return Err(MissingNode);
      }
      rootChain := rootChain + [(repo[root].body.ts, root)];
      return Ok(root);
    }

    method DrainCreated() returns (out: seq<Created>)
      modifies `created
      ensures out == old(created) && Abs() == old(Abs()).(created := [])
    {
      out := created;
      created := [];
    }

    // -------------------------------------------------------------------
    // Replay hooks
    // -------------------------------------------------------------------

    method RegisterDir(content: Hash, children: ChildMap)
      modifies `dirs
      ensures Abs() == old(Abs()).(dirs := old(dirs)[content := children])
    {
      dirs := dirs[content := children];
    }

    method SetRootFromRecovery(root: Hash, ts: nat)
      modifies `rootHead, `rootChain
      ensures rootHead == root
      ensures rootChain == if old(rootHead) == root then old(rootChain) else old(rootChain) + [(ts, root)]
    {
      if rootHead != root {
        rootHead := root;
        rootChain := rootChain + [(ts, root)];
      }
    }

    method SnapshotFromRecovery(name: string, root: Hash)
      modifies `snapshots
      ensures snapshots == old(snapshots)[name := root]
    {
      snapshots := snapshots[name := root];
    }
  }
}

/** Time travel: what a path resolved to after the last write at or before a moment. */
module NamespaceHistory {
  import opened Options
  import opened NamespaceModel

  datatype Write = Write(path: Path, head: Hash, create: bool, ts: nat)

  function Step(s: State, w: Write): State
  {
    SetPath(s, w.path, w.head, w.create, w.ts).0
  }

  function Run(s: State, ws: seq<Write>): State
  {
    if ws == [] then s else Step(Run(s, ws[..|ws| - 1]), ws[|ws| - 1])
  }

  ghost predicate AllOk(s: State, ws: seq<Write>)
  {
    ws == [] ||
    (var s1 := Run(s, ws[..|ws| - 1]); var w := ws[|ws| - 1];
     AllOk(s, ws[..|ws| - 1]) && SetPath(s1, w.path, w.head, w.create, w.ts).1.Ok?)
  }

  // ---------------------------------------------------------------------
  // Looking back
  // ---------------------------------------------------------------------

  /** The newest root at or before t among the first n of the chain; the oldest if there is none. */
  function Pick(chain: seq<(nat, Hash)>, t: nat, n: nat): Hash
    requires n <= |chain| && chain != []
  {
    if n == 0 then chain[0].1 else if chain[n - 1].0 <= t then chain[n - 1].1 else Pick(chain, t, n - 1)
  }

  /** Follows first parents until within t; refuses merge nodes. */
  function WalkBack(s: State, h: Hash, t: nat): Result<Hash>
    requires Good(s)
    decreases h
  {
    if h !in s.repo then Err(MissingNode)
    else
      var b := s.repo[h].body;
      if b.ts > t then
        if b.parents == [] then Err(TimeTravelAcrossMerge)
        else assert h == OfNode(b); WalkBack(s, b.parents[0], t)
      else if |b.parents| > 1 then Err(TimeTravelAcrossMerge)
      else Ok(h)
  }

  function ResolveAt(s: State, p: Path, t: nat): Result<Hash>
    requires Good(s)
  {
    if s.chain == [] then Err(MissingNode)
    else
      match WalkBack(s, Pick(s.chain, t, |s.chain|), t)
      case Err(e) => Err(e)
      case Ok(root) => ResolveUnder(s, root, p)
  }

  /** The version n first parents back. */
  ghost function Ancestor(s: State, h: Hash, n: nat): (r: Option<Hash>)
    ensures r.Some? ==> r.value in s.repo
    decreases n
  {
    if h !in s.repo then None
    else if n == 0 then Some(h)
    else if s.repo[h].body.parents == [] then None
    else Ancestor(s, s.repo[h].body.parents[0], n - 1)
  }

  /** Going back from h, the n-th version is the first one not later than t. */
  ghost predicate Settles(s: State, h: Hash, t: nat, n: nat)
  {
    && Ancestor(s, h, n).Some? && s.repo[Ancestor(s, h, n).value].body.ts <= t
    && forall m: nat :: m < n ==> Ancestor(s, h, m).Some? && s.repo[Ancestor(s, h, m).value].body.ts > t
  }

  /** Walking back answers with the first version not later than t, and only if that is no merge. */
  lemma {:induction false} WalkBackFinds(s: State, h: Hash, t: nat, r: Hash)
    requires Good(s)
    ensures WalkBack(s, h, t) == Ok(r) <==>
      exists n: nat :: Settles(s, h, t, n) && Ancestor(s, h, n) == Some(r) && |s.repo[r].body.parents| <= 1
    decreases h
  {
    hide Good;
    if h in s.repo && s.repo[h].body.ts <= t {
      SettlesHere(s, h, t);
      assert Settles(s, h, t, 0) && Ancestor(s, h, 0) == Some(h);
    } else if h in s.repo && s.repo[h].body.parents != [] {
      var parent := s.repo[h].body.parents[0];
      GoodNode(s, h);
      WalkBackFinds(s, parent, t, r);
      assert Ancestor(s, h, 0) == Some(h);
      forall n: nat ensures Settles(s, h, t, n + 1) <==> Settles(s, parent, t, n) { OneFurther(s, h, t, n); }
      forall n: nat | Settles(s, h, t, n) ensures n > 0 {}
      if n: nat :| Settles(s, h, t, n) && Ancestor(s, h, n) == Some(r) && |s.repo[r].body.parents| <= 1 {
        assert Settles(s, parent, t, n - 1) && Ancestor(s, parent, n - 1) == Some(r);
      }
      if n: nat :| Settles(s, parent, t, n) && Ancestor(s, parent, n) == Some(r) && |s.repo[r].body.parents| <= 1 {
        assert Settles(s, h, t, n + 1) && Ancestor(s, h, n + 1) == Some(r);
      }
    } else {
      SettlesNowhere(s, h, t);
    }
  }

  lemma SettlesHere(s: State, h: Hash, t: nat)
    requires h in s.repo && s.repo[h].body.ts <= t
    ensures forall n: nat :: Settles(s, h, t, n) <==> n == 0
  {
    assert Ancestor(s, h, 0) == Some(h);
  }

  lemma SettlesNowhere(s: State, h: Hash, t: nat)
    requires h in s.repo ==> s.repo[h].body.ts > t && s.repo[h].body.parents == []
    ensures forall n: nat :: !Settles(s, h, t, n)
  {
  }

  lemma {:induction false} SameWalk(s: State, s': State, h: Hash, t: nat)
    requires Good(s) && Good(s') && s'.repo == s.repo
    ensures WalkBack(s', h, t) == WalkBack(s, h, t)
    decreases h
  {
    hide Good;
    if h in s.repo && s.repo[h].body.ts > t && s.repo[h].body.parents != [] {
      GoodNode(s, h);
      SameWalk(s, s', s.repo[h].body.parents[0], t);
    }
  }

  lemma GoodNode(s: State, h: Hash)
    requires Good(s) && h in s.repo
    ensures h == OfNode(s.repo[h].body)
  {
  }

  lemma OneFurther(s: State, h: Hash, t: nat, n: nat)
    requires h in s.repo && s.repo[h].body.parents != [] && s.repo[h].body.ts > t
    ensures Settles(s, h, t, n + 1) <==> Settles(s, s.repo[h].body.parents[0], t, n)
  {
    var parent := s.repo[h].body.parents[0];
    forall m: nat ensures Ancestor(s, h, m + 1) == Ancestor(s, parent, m) {}
    if Settles(s, h, t, n + 1) {
      forall m: nat | m < n ensures Ancestor(s, parent, m).Some? && s.repo[Ancestor(s, parent, m).value].body.ts > t {
        assert Ancestor(s, h, m + 1) == Ancestor(s, parent, m);
      }
    }
    if Settles(s, parent, t, n) {
      forall m: nat | m < n + 1 ensures Ancestor(s, h, m).Some? && s.repo[Ancestor(s, h, m).value].body.ts > t {
        if m > 0 { assert Ancestor(s, h, m) == Ancestor(s, parent, m - 1); }
      }
    }
  }

  // ---------------------------------------------------------------------
  // Linear history
  // ---------------------------------------------------------------------

  ghost predicate EntryOk(s: State, x: (nat, Hash))
  {
    x.1 in s.repo && s.repo[x.1].body.ts == x.0 && |s.repo[x.1].body.parents| <= 1
  }

  /** The chain is in order of time, holds linear roots, and ends with the current one. */
  ghost predicate Linear(s: State)
  {
    && s.chain != [] && s.chain[|s.chain| - 1].1 == s.root
    && (forall x :: 0 <= x < |s.chain| ==> EntryOk(s, s.chain[x]))
    && (forall x, y :: 0 <= x <= y < |s.chain| ==> s.chain[x].0 <= s.chain[y].0)
  }

  lemma NewIsLinear(nodeId: nat, start: nat)
    ensures Linear(NewState(nodeId, start))
  {
  }

  ghost function LastTime(s: State): nat
    requires s.chain != []
  {
    s.chain[|s.chain| - 1].0
  }

  lemma StepLinear(s: State, w: Write)
    requires Good(s) && Linear(s) && w.ts >= LastTime(s) && SetPath(s, w.path, w.head, w.create, w.ts).1.Ok?
    ensures Good(Step(s, w)) && Grows(s, Step(s, w)) && Linear(Step(s, w)) && LastTime(Step(s, w)) == w.ts
    ensures Step(s, w).chain == s.chain + [(w.ts, Step(s, w).root)]
  {
    hide Rebuild, Good, Grows, EntryOk;
    var r := Rebuild(s, s.root, w.path, w.head, w.create, w.ts);
    var s' := Step(s, w);
    RebuildGrows(s, s.root, w.path, w.head, w.create, w.ts);
    GoodRest(r.0, s');
    GrowsRest(s, r.0, s');
    NewRoot(s, s.root, w.path, w.head, w.create, w.ts);
    forall x | 0 <= x < |s'.chain| ensures EntryOk(s', s'.chain[x]) {
      if x < |s.chain| { EntryStable(s, s', s.chain[x]); } else { GrowsSelf(r.0); GrowsRest(r.0, r.0, s'); EntryStable(r.0, s', s'.chain[x]); }
    }
  }

  lemma GrowsRest(a: State, b: State, c: State)
    requires Grows(a, b) && c.repo == b.repo && c.dirs == b.dirs && c.nodeId == b.nodeId
    ensures Grows(a, c)
  {
  }

  lemma EntryStable(s: State, s': State, x: (nat, Hash))
    requires Grows(s, s') && EntryOk(s, x)
    ensures EntryOk(s', x)
  {
  }

  lemma NewRoot(s: State, dir: Hash, p: Path, head: Hash, create: bool, ts: nat)
    requires p != [] && Rebuild(s, dir, p, head, create, ts).1.Ok?
    ensures var r := Rebuild(s, dir, p, head, create, ts); EntryOk(r.0, (ts, r.1.value))
  {
  }

  /** Non-decreasing times, none before the start. */
  ghost predicate InTime(start: nat, ws: seq<Write>)
  {
    (forall x :: 0 <= x < |ws| ==> start <= ws[x].ts) && forall x, y :: 0 <= x <= y < |ws| ==> ws[x].ts <= ws[y].ts
  }

  lemma {:induction false} RunLinear(s: State, ws: seq<Write>)
    requires Good(s) && Linear(s) && AllOk(s, ws) && InTime(LastTime(s), ws)
    ensures Good(Run(s, ws)) && Grows(s, Run(s, ws)) && Linear(Run(s, ws))
    ensures LastTime(Run(s, ws)) == if ws == [] then LastTime(s) else ws[|ws| - 1].ts
    decreases |ws|
  {
    hide Good, Grows, Linear, SetPath;
    if ws == [] {
      GrowsSelf(s);
    } else {
      var init := ws[..|ws| - 1];
      RunLinear(s, init);
      StepLinear(Run(s, init), ws[|ws| - 1]);
      GrowsTrans(s, Run(s, init), Run(s, ws));
    }
  }

  lemma {:induction false} PickPrefix(a: seq<(nat, Hash)>, b: seq<(nat, Hash)>, t: nat, n: nat)
    requires a != [] && n <= |a|
    ensures Pick(a + b, t, n) == Pick(a, t, n)
  {
    if n > 0 { PickPrefix(a, b, t, n - 1); }
  }

  lemma HasChain(s: State)
    requires Linear(s)
    ensures s.chain != []
  {
  }

  lemma PickCurrent(s: State, t: nat)
    requires Linear(s) && LastTime(s) <= t
    ensures s.chain != [] && Pick(s.chain, t, |s.chain|) == s.root
  {
    hide EntryOk;
  }

  lemma PickLast(c: seq<(nat, Hash)>, x: (nat, Hash), t: nat)
    requires c != []
    ensures Pick(c + [x], t, |c + [x]|) == if x.0 <= t then x.1 else Pick(c, t, |c|)
  {
    PickPrefix(c, [x], t, |c|);
  }

  lemma Later(start: nat, ws: seq<Write>, k: nat)
    requires InTime(start, ws) && k < |ws|
    ensures ws[|ws| - 1].ts >= ws[k].ts && InTime(start, ws[..|ws| - 1]) && ws[..|ws| - 1][..k] == ws[..k]
  {
  }

  /** After later writes, looking back to t finds the root of the last write at or before t. */
  lemma {:induction false} PickedRoot(s: State, ws: seq<Write>, t: nat, k: nat)
    requires Good(s) && Linear(s) && AllOk(s, ws) && InTime(LastTime(s), ws) && LastTime(s) <= t
    requires k <= |ws| && (k > 0 ==> ws[k - 1].ts <= t) && (k < |ws| ==> ws[k].ts > t)
    ensures var c := Run(s, ws).chain; c != [] && Pick(c, t, |c|) == Run(s, ws[..k]).root
    decreases |ws|
  {
    hide Good, Grows, SetPath, Step, Linear, Pick, InTime;
    HasChain(s);
    if k == |ws| {
      assert ws[..k] == ws;
      RunLinear(s, ws);
      PickCurrent(Run(s, ws), t);
    } else {
      var init, w := ws[..|ws| - 1], ws[|ws| - 1];
      Later(LastTime(s), ws, k);
      PickedRoot(s, init, t, k);
      RunLinear(s, init);
      LastIsEarlier(s, ws);
      StepLinear(Run(s, init), w);
      PickLast(Run(s, init).chain, (w.ts, Run(s, ws).root), t);
    }
  }

  lemma LastIsEarlier(s: State, ws: seq<Write>)
    requires s.chain != [] && InTime(LastTime(s), ws) && ws != []
    ensures ws[|ws| - 1].ts >= (if |ws| == 1 then LastTime(s) else ws[|ws| - 2].ts)
  {
  }

  lemma {:induction false} AllOkPrefix(s: State, ws: seq<Write>, k: nat)
    requires AllOk(s, ws) && k <= |ws|
    ensures AllOk(s, ws[..k])
    decreases |ws|
  {
    if k == |ws| {
      assert ws[..k] == ws;
    } else {
      AllOkPrefix(s, ws[..|ws| - 1], k);
      assert ws[..|ws| - 1][..k] == ws[..k];
    }
  }

  lemma {:induction false} RunGrows(s: State, ws: seq<Write>, k: nat)
    requires Good(s) && Linear(s) && AllOk(s, ws) && InTime(LastTime(s), ws) && k <= |ws|
    ensures Grows(Run(s, ws[..k]), Run(s, ws))
    decreases |ws|
  {
    hide Good, Grows, Linear, SetPath;
    if k == |ws| {
      assert ws[..k] == ws;
      GrowsSelf(Run(s, ws));
    } else {
      var init := ws[..|ws| - 1];
      RunGrows(s, init, k);
      assert init[..k] == ws[..k];
      RunLinear(s, init);
      StepLinear(Run(s, init), ws[|ws| - 1]);
      GrowsTrans(Run(s, ws[..k]), Run(s, init), Run(s, ws));
    }
  }

  /** Resolving a path as of time t gives what it resolved to right after the last write at or before t. */
  lemma TimeTravel(s: State, ws: seq<Write>, t: nat, k: nat, p: Path)
    requires Good(s) && Linear(s) && AllOk(s, ws) && InTime(LastTime(s), ws) && LastTime(s) <= t
    requires k <= |ws| && (k > 0 ==> ws[k - 1].ts <= t) && (k < |ws| ==> ws[k].ts > t)
    requires Resolve(Run(s, ws[..k]), p) != Err(MissingNode)
    ensures Good(Run(s, ws)) && ResolveAt(Run(s, ws), p, t) == Resolve(Run(s, ws[..k]), p)
  {
    hide Run, AllOk, ResolveUnder, Pick, Good;
    var past, now := Run(s, ws[..k]), Run(s, ws);
    RunLinear(s, ws);
    PickedRoot(s, ws, t, k);
    RunGrows(s, ws, k);
    AllOkPrefix(s, ws, k);
    RunLinear(s, ws[..k]);
    assert LastTime(past) <= t by { assert k > 0 ==> ws[..k][k - 1] == ws[k - 1]; }
    assert EntryOk(past, past.chain[|past.chain| - 1]);
    ResolveStable(past, now, past.root, p);
  }

  /** Before the first version there is nothing to look back to. */
  lemma BeforeTheStart(nodeId: nat, start: nat, ws: seq<Write>, t: nat, p: Path)
    requires t < start && AllOk(NewState(nodeId, start), ws) && InTime(start, ws)
    ensures Good(Run(NewState(nodeId, start), ws)) && ResolveAt(Run(NewState(nodeId, start), ws), p, t) == Err(TimeTravelAcrossMerge)
  {
    var s := NewState(nodeId, start);
    NewStateGood(nodeId, start);
    NewIsLinear(nodeId, start);
    RunLinear(s, ws);
    ChainStarts(s, ws, t);
  }

  lemma {:induction false} ChainStarts(s: State, ws: seq<Write>, t: nat)
    requires Good(s) && Linear(s) && AllOk(s, ws) && InTime(LastTime(s), ws) && |s.chain| == 1 && t < LastTime(s)
    ensures var c := Run(s, ws).chain; c != [] && c[0] == s.chain[0] && Pick(c, t, |c|) == s.root
    decreases |ws|
  {
    hide Good, Grows, SetPath, EntryOk, Step;
    if ws != [] {
      var init, w := ws[..|ws| - 1], ws[|ws| - 1];
      ChainStarts(s, init, t);
      RunLinear(s, init);
      StepLinear(Run(s, init), w);
      var c := Run(s, init).chain;
      PickPrefix(c, [(w.ts, Run(s, ws).root)], t, |c|);
    }
  }

  // ---------------------------------------------------------------------
  // Nothing is missing
  // ---------------------------------------------------------------------

  /** Every directory's map is stored, and so is every child. */
  ghost predicate Closed(s: State)
  {
    && s.root in s.repo
    && (forall h :: h in s.repo && s.repo[h].body.kind == Directory ==> s.repo[h].body.content in s.dirs)
    && (forall c, n :: c in s.dirs && n in s.dirs[c] ==> s.dirs[c][n] in s.repo)
  }

  ghost predicate IsDir(s: State, h: Hash)
  {
    h in s.repo && s.repo[h].body.kind == Directory
  }

  /** The root is a stored directory, and so is the root of every snapshot. */
  ghost predicate RootsStored(s: State)
  {
    IsDir(s, s.root) && forall n :: n in s.snapshots ==> IsDir(s, s.snapshots[n])
  }

  lemma RootsKeep(s: State, s': State)
    requires RootsStored(s) && Grows(s, s') && s'.snapshots == s.snapshots && IsDir(s', s'.root)
    ensures RootsStored(s')
  {
  }

  lemma {:induction false} ClosedResolves(s: State, h: Hash, p: Path)
    requires Closed(s) && h in s.repo
    ensures ResolveUnder(s, h, p) != Err(MissingNode)
    ensures ResolveUnder(s, h, p).Ok? ==> ResolveUnder(s, h, p).value in s.repo
    decreases |p|
  {
    if p != [] && ChildrenOf(s, h).Ok? && p[0] in ChildrenOf(s, h).value {
      ClosedResolves(s, ChildrenOf(s, h).value[p[0]], p[1..]);
    }
  }

  lemma AddDirClosed(s: State, children: ChildMap, parent: Hash, ts: nat)
    requires Closed(s) && forall n :: n in children ==> children[n] in s.repo
    ensures Closed(AddDir(s, children, parent, ts)) && DirNode(s, children, parent, ts).selfHash in AddDir(s, children, parent, ts).repo
  {
  }

  lemma {:induction false} RebuildClosed(s: State, dir: Hash, p: Path, head: Hash, create: bool, ts: nat)
    requires Good(s) && Closed(s) && p != [] && head in s.repo && dir in s.repo
    ensures var r := Rebuild(s, dir, p, head, create, ts); Closed(r.0) && (r.1.Ok? ==> r.1.value in r.0.repo)
    decreases |p|
  {
    hide AddDir, Good;
    match ChildrenOf(s, dir) {
      case Err(_) =>
      case Ok(m) =>
        DescendClosed(s, dir, m, p, head, create, ts);
        DescendGrows(s, dir, m, p, head, create, ts);
        var sub := Descend(s, dir, m, p, head, create, ts);
        if sub.1.Ok? { AddDirClosed(sub.0, m[p[0] := sub.1.value], dir, ts); }
    }
  }

  lemma {:induction false} DescendClosed(s: State, dir: Hash, m: ChildMap, p: Path, head: Hash, create: bool, ts: nat)
    requires Good(s) && Closed(s) && p != [] && head in s.repo && dir in s.repo && forall n :: n in m ==> m[n] in s.repo
    ensures var r := Descend(s, dir, m, p, head, create, ts); Closed(r.0) && (r.1.Ok? ==> r.1.value in r.0.repo)
    decreases |p|, 0
  {
    hide AddDir, Good, Rebuild, Closed;
    if |p| > 1 {
      if p[0] in m {
        RebuildClosed(s, m[p[0]], p[1..], head, create, ts);
      } else {
        AddDirClosed(s, map[], dir, ts);
        AddDirGood(s, map[], dir, ts);
        RebuildClosed(AddDir(s, map[], dir, ts), DirNode(s, map[], dir, ts).selfHash, p[1..], head, create, ts);
      }
    }
  }

  /** Setting paths to stored heads never leaves anything missing. */
  lemma SetPathClosed(s: State, p: Path, head: Hash, create: bool, ts: nat)
    requires Good(s) && Closed(s) && head in s.repo
    ensures Closed(SetPath(s, p, head, create, ts).0)
  {
    if p != [] { RebuildClosed(s, s.root, p, head, create, ts); }
    if p != [] { RebuildGrows(s, s.root, p, head, create, ts); }
  }

  // ---------------------------------------------------------------------
  // When a path can be set
  // ---------------------------------------------------------------------

  /** Every proper non-empty prefix of p names a directory below dir; it may name nothing if directories are created. */
  ghost predicate Clear(s: State, dir: Hash, p: Path, create: bool)
  {
    forall k :: 0 < k < |p| ==>
      match ResolveUnder(s, dir, p[..k])
      case Ok(h) => IsDir(s, h)
      case Err(_) => create
  }

  lemma ResolveStep(s: State, dir: Hash, m: ChildMap, p: Path, k: nat)
    requires ChildrenOf(s, dir) == Ok(m) && 0 < k <= |p|
    ensures ResolveUnder(s, dir, p[..k]) == if p[0] in m then ResolveUnder(s, m[p[0]], p[1..][..k - 1]) else Err(PathNotFound)
  {
    assert p[..k][0] == p[0] && p[..k][1..] == p[1..][..k - 1];
  }

  lemma ClearBelow(s: State, dir: Hash, m: ChildMap, p: Path, create: bool)
    requires ChildrenOf(s, dir) == Ok(m) && |p| > 1 && p[0] in m
    ensures Clear(s, dir, p, create) <==> IsDir(s, m[p[0]]) && Clear(s, m[p[0]], p[1..], create)
  {
    hide ResolveUnder, IsDir, ChildrenOf;
    var c, q := m[p[0]], p[1..];
    ResolveStep(s, dir, m, p, 1);
    NoSteps(s, c);
    assert q[..0] == [];
    if Clear(s, dir, p, create) {
      assert IsDir(s, c);
      forall k | 0 < k < |q| ensures match ResolveUnder(s, c, q[..k]) case Ok(h) => IsDir(s, h) case Err(_) => create {
        ResolveStep(s, dir, m, p, k + 1);
        assert q[..k + 1 - 1] == q[..k];
        assert ResolveUnder(s, dir, p[..k + 1]) == ResolveUnder(s, c, q[..k]);
      }
    }
    if IsDir(s, c) && Clear(s, c, q, create) {
      forall k | 0 < k < |p| ensures match ResolveUnder(s, dir, p[..k]) case Ok(h) => IsDir(s, h) case Err(_) => create {
        ResolveStep(s, dir, m, p, k);
        if k > 1 { assert ResolveUnder(s, dir, p[..k]) == ResolveUnder(s, c, q[..k - 1]); }
      }
    }
  }

  lemma NoSteps(s: State, h: Hash)
    ensures ResolveUnder(s, h, []) == Ok(h)
  {
  }

  lemma ClearMissing(s: State, dir: Hash, m: ChildMap, p: Path, create: bool)
    requires ChildrenOf(s, dir) == Ok(m) && |p| > 1 && p[0] !in m
    ensures Clear(s, dir, p, create) <==> create
  {
    forall k | 0 < k < |p| ensures ResolveUnder(s, dir, p[..k]).Err? { ResolveStep(s, dir, m, p, k); }
    ResolveStep(s, dir, m, p, 1);
  }

  /** A directory is rebuilt exactly when the way to the entry is clear, and otherwise nothing is stored. */
  lemma {:induction false} RebuildSucceeds(s: State, dir: Hash, p: Path, head: Hash, create: bool, ts: nat)
    requires Good(s) && Closed(s) && p != [] && IsDir(s, dir)
    ensures var r := Rebuild(s, dir, p, head, create, ts);
      && (r.1.Ok? <==> Clear(s, dir, p, create))
      && (r.1.Err? ==> r.0 == s && (r.1 == Err(NotADirectory) || (!create && r.1 == Err(PathNotFound))))
    decreases |p|
  {
    hide Clear, Good, ResolveUnder, AddDir, DirNode;
    var m := ChildrenOf(s, dir).value;
    if |p| == 1 {
      ClearOne(s, dir, p, create);
    } else if p[0] in m {
      ClearBelow(s, dir, m, p, create);
      if IsDir(s, m[p[0]]) { RebuildSucceeds(s, m[p[0]], p[1..], head, create, ts); }
    } else {
      ClearMissing(s, dir, m, p, create);
      if create { RebuildInNew(s, dir, p[1..], head, ts); }
    }
  }

  lemma ClearOne(s: State, dir: Hash, p: Path, create: bool)
    requires |p| == 1
    ensures Clear(s, dir, p, create)
  {
  }

  /** In a directory just created nothing is in the way. */
  lemma {:induction false} RebuildInNew(s: State, dir: Hash, p: Path, head: Hash, ts: nat)
    requires Good(s) && Closed(s) && p != []
    ensures Rebuild(AddDir(s, map[], dir, ts), DirNode(s, map[], dir, ts).selfHash, p, head, true, ts).1.Ok?
    decreases |p|, 0
  {
    hide Good, Closed, AddDir, DirNode, Rebuild;
    var s1, made := AddDir(s, map[], dir, ts), DirNode(s, map[], dir, ts).selfHash;
    AddDirGood(s, map[], dir, ts);
    AddDirClosed(s, map[], dir, ts);
    if |p| > 1 { RebuildInNew(s1, made, p[1..], head, ts); }
    RebuildEmpty(s1, made, p, head, ts);
  }

  lemma RebuildEmpty(s: State, dir: Hash, p: Path, head: Hash, ts: nat)
    requires p != [] && ChildrenOf(s, dir) == Ok(map[])
    requires |p| > 1 ==> Rebuild(AddDir(s, map[], dir, ts), DirNode(s, map[], dir, ts).selfHash, p[1..], head, true, ts).1.Ok?
    ensures Rebuild(s, dir, p, head, true, ts).1.Ok?
  {
  }

  lemma RebuiltIsDir(s: State, dir: Hash, p: Path, head: Hash, create: bool, ts: nat)
    requires p != [] && Rebuild(s, dir, p, head, create, ts).1.Ok?
    ensures var r := Rebuild(s, dir, p, head, create, ts); IsDir(r.0, r.1.value)
  {
    hide Descend;
  }

  /** A path can be set exactly when it is not empty and the way is clear; a call that fails changes nothing. */
  lemma SetPathSucceeds(s: State, p: Path, head: Hash, create: bool, ts: nat)
    requires Good(s) && Closed(s) && IsDir(s, s.root)
    ensures var r := SetPath(s, p, head, create, ts);
      && (r.1.Ok? <==> p != [] && Clear(s, s.root, p, create))
      && (r.1.Ok? ==> IsDir(r.0, r.0.root))
      && (r.1.Err? ==> r.0 == s && (r.1 == Err(NotADirectory) || (!create && r.1 == Err(PathNotFound))))
  {
    hide Clear, Good, Closed, Rebuild;
    if p != [] {
      RebuildSucceeds(s, s.root, p, head, create, ts);
      if Clear(s, s.root, p, create) { RebuiltIsDir(s, s.root, p, head, create, ts); }
    }
  }

  /** The new root is the next version of the old one: one parent, the time of the write, and a clock that is one
      further for the writer and the same for everybody else. */
  lemma RootSucceeds(s: State, p: Path, head: Hash, create: bool, ts: nat, id: nat)
    requires Good(s) && s.root in s.repo && SetPath(s, p, head, create, ts).1.Ok?
    ensures var s' := SetPath(s, p, head, create, ts).0;
      && s'.root in s'.repo && s'.repo[s'.root].body.parents == [s.root] && s'.repo[s'.root].body.ts == ts
      && Ticks(s'.repo[s'.root].body.vclock, id) == Ticks(s.repo[s.root].body.vclock, id) + if id == s.nodeId then 1 else 0
  {
    hide Good, Grows, Descend;
    var m := ChildrenOf(s, s.root).value;
    DescendGrows(s, s.root, m, p, head, create, ts);
    SameNode(s, Descend(s, s.root, m, p, head, create, ts).0, s.root);
  }

  /** How far a clock has come for a server; clocks only name servers that have ticked. */
  function Ticks(v: map<nat, nat>, id: nat): nat
  {
    if id in v then v[id] else 0
  }

  lemma SameNode(s: State, s': State, h: Hash)
    requires Grows(s, s') && h in s.repo
    ensures h in s'.repo && s'.repo[h] == s.repo[h] && s'.nodeId == s.nodeId
  {
  }

  /** The way to a path that resolves is clear. */
  lemma {:induction false} ResolvesIsClear(s: State, dir: Hash, p: Path)
    requires Closed(s) && dir in s.repo && ResolveUnder(s, dir, p).Ok?
    ensures Clear(s, dir, p, false)
    decreases |p|
  {
    if |p| > 1 {
      var m := ChildrenOf(s, dir).value;
      ResolvesIsClear(s, m[p[0]], p[1..]);
      ClearBelow(s, dir, m, p, false);
    }
  }
}

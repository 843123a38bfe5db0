/** Comparing two roots: pruning by hash loses nothing, and an empty result means equal trees. */
module NamespaceDiff {
  import opened NamespaceModel
  import opened NamespaceHistory

  datatype Change = Added | Removed | Modified

  datatype DiffEntry = DiffEntry(path: Path, change: Change)

  /** The order in which a set of names is visited. */
  type Order = set<string> -> seq<string>

  ghost predicate OrderOk(o: Order)
  {
    forall s, n :: n in o(s) <==> n in s
  }

  function Append(a: Result<seq<DiffEntry>>, b: Result<seq<DiffEntry>>): Result<seq<DiffEntry>>
  {
    if a.Err? then a else if b.Err? then b else Ok(a.value + b.value)
  }

  lemma AppendNothing(a: Result<seq<DiffEntry>>, b: Result<seq<DiffEntry>>)
    requires a.Ok? && b.Ok?
    ensures Append(a, b) == Ok([]) <==> a == Ok([]) && b == Ok([])
  {
    assert |a.value + b.value| == |a.value| + |b.value|;
  }

  /** The children of a stored directory are part of its hash. */
  predicate DirOf(h: Hash, m: ChildMap)
  {
    h.OfNode? && h.body.content == DirContent(m)
  }

  lemma StoredChildren(s: State, h: Hash)
    requires Good(s) && ChildrenOf(s, h).Ok?
    ensures h in s.repo && DirOf(h, ChildrenOf(s, h).value) && h.body == s.repo[h].body
  {
  }

  /** The walk that skips subtrees with equal hashes. */
  function Diff(s: State, o: Order, a: Hash, b: Hash, prefix: Path): Result<seq<DiffEntry>>
    requires Good(s)
    decreases a, 0
  {
    if a == b then Ok([])
    else if a !in s.repo || b !in s.repo then Err(MissingNode)
    else
      var na, nb := s.repo[a].body, s.repo[b].body;
      if na.kind == Directory && nb.kind == Directory then
        if na.content == nb.content then Ok([])
        else
          var ma, mb := ChildrenOf(s, a), ChildrenOf(s, b);
          if ma.Err? then Err(ma.error) else if mb.Err? then Err(mb.error)
          else StoredChildren(s, a); DiffNames(s, o, a, ma.value, mb.value, o(ma.value.Keys + mb.value.Keys), prefix)
      else if na.content != nb.content || na.kind != nb.kind then Ok([DiffEntry(prefix, Modified)])
      else Ok([])
  }

  function DiffNames(s: State, o: Order, a: Hash, ma: ChildMap, mb: ChildMap, names: seq<string>, prefix: Path): Result<seq<DiffEntry>>
    requires Good(s) && DirOf(a, ma)
    decreases a.body, |names|
  {
    if names == [] then Ok([])
    else
      var n := names[0];
      var here :=
        if n in ma && n in mb then Diff(s, o, ma[n], mb[n], prefix + [n])
        else if n in ma then Ok([DiffEntry(prefix + [n], Removed)])
        else if n in mb then Ok([DiffEntry(prefix + [n], Added)])
        else Ok([]);
      Append(here, DiffNames(s, o, a, ma, mb, names[1..], prefix))
  }

  /** The walk that visits everything. */
  function FullDiff(s: State, o: Order, a: Hash, b: Hash, prefix: Path): Result<seq<DiffEntry>>
    requires Good(s)
    decreases a, 0
  {
    if a !in s.repo || b !in s.repo then Err(MissingNode)
    else
      var na, nb := s.repo[a].body, s.repo[b].body;
      if na.kind == Directory && nb.kind == Directory then
        var ma, mb := ChildrenOf(s, a), ChildrenOf(s, b);
        if ma.Err? then Err(ma.error) else if mb.Err? then Err(mb.error)
        else StoredChildren(s, a); FullDiffNames(s, o, a, ma.value, mb.value, o(ma.value.Keys + mb.value.Keys), prefix)
      else if na.content != nb.content || na.kind != nb.kind then Ok([DiffEntry(prefix, Modified)])
      else Ok([])
  }

  function FullDiffNames(s: State, o: Order, a: Hash, ma: ChildMap, mb: ChildMap, names: seq<string>, prefix: Path): Result<seq<DiffEntry>>
    requires Good(s) && DirOf(a, ma)
    decreases a.body, |names|
  {
    if names == [] then Ok([])
    else
      var n := names[0];
      var here :=
        if n in ma && n in mb then FullDiff(s, o, ma[n], mb[n], prefix + [n])
        else if n in ma then Ok([DiffEntry(prefix + [n], Removed)])
        else if n in mb then Ok([DiffEntry(prefix + [n], Added)])
        else Ok([]);
      Append(here, FullDiffNames(s, o, a, ma, mb, names[1..], prefix))
  }

  // ---------------------------------------------------------------------
  // Pruning
  // ---------------------------------------------------------------------

  lemma ClosedChildren(s: State, h: Hash)
    requires Good(s) && Closed(s) && h in s.repo && s.repo[h].body.kind == Directory
    ensures ChildrenOf(s, h).Ok? && DirOf(h, ChildrenOf(s, h).value)
    ensures forall n :: n in ChildrenOf(s, h).value ==> ChildrenOf(s, h).value[n] in s.repo
  {
  }

  /** Comparing a subtree with itself finds nothing. */
  lemma {:induction false} SameFinds(s: State, o: Order, a: Hash, prefix: Path)
    requires Good(s) && Closed(s) && a in s.repo
    ensures FullDiff(s, o, a, a, prefix) == Ok([])
    decreases a, 0
  {
    if s.repo[a].body.kind == Directory {
      ClosedChildren(s, a);
      var m := ChildrenOf(s, a).value;
      SameFindsNames(s, o, a, m, o(m.Keys + m.Keys), prefix);
    }
  }

  lemma {:induction false} SameFindsNames(s: State, o: Order, a: Hash, m: ChildMap, names: seq<string>, prefix: Path)
    requires Good(s) && Closed(s) && DirOf(a, m) && forall n :: n in m ==> m[n] in s.repo
    ensures FullDiffNames(s, o, a, m, m, names, prefix) == Ok([])
    decreases a.body, |names|
  {
    if names != [] {
      if names[0] in m { SameFinds(s, o, m[names[0]], prefix + [names[0]]); }
      SameFindsNames(s, o, a, m, names[1..], prefix);
      AppendNothing(Ok([]), FullDiffNames(s, o, a, m, m, names[1..], prefix));
    }
  }

  lemma {:induction false} PruneNames(s: State, o: Order, a: Hash, ma: ChildMap, mb: ChildMap, names: seq<string>, prefix: Path)
    requires Good(s) && Closed(s) && DirOf(a, ma)
    requires (forall n :: n in ma ==> ma[n] in s.repo) && forall n :: n in mb ==> mb[n] in s.repo
    ensures DiffNames(s, o, a, ma, mb, names, prefix) == FullDiffNames(s, o, a, ma, mb, names, prefix)
    decreases a.body, |names|
  {
    if names != [] {
      var n := names[0];
      if n in ma && n in mb { PruneLosesNothing(s, o, ma[n], mb[n], prefix + [n]); }
      PruneNames(s, o, a, ma, mb, names[1..], prefix);
    }
  }

  /** The pruned walk gives the same result as the full one. */
  lemma {:induction false} PruneLosesNothing(s: State, o: Order, a: Hash, b: Hash, prefix: Path)
    requires Good(s) && Closed(s) && a in s.repo && b in s.repo
    ensures Diff(s, o, a, b, prefix) == FullDiff(s, o, a, b, prefix)
    decreases a, 0
  {
    if a == b {
      SameFinds(s, o, a, prefix);
    } else if s.repo[a].body.kind == Directory && s.repo[b].body.kind == Directory {
      ClosedChildren(s, a);
      ClosedChildren(s, b);
      var ma, mb := ChildrenOf(s, a).value, ChildrenOf(s, b).value;
      var names := o(ma.Keys + mb.Keys);
      if s.repo[a].body.content == s.repo[b].body.content {
        assert ma == mb;
        SameFindsNames(s, o, a, ma, names, prefix);
      } else {
        PruneNames(s, o, a, ma, mb, names, prefix);
      }
    }
  }

  // ---------------------------------------------------------------------
  // What an empty diff means
  // ---------------------------------------------------------------------

  /** A tree of names, kinds and contents. */
  datatype Tree = Object(kind: Kind, content: Hash) | Dir(entries: map<string, Tree>)

  function Denote(h: Hash): Tree
    decreases h
  {
    if h.OfNode? && h.body.kind == Directory && h.body.content.DirContent? then
      Dir(map n | n in h.body.content.children :: Denote(h.body.content.children[n]))
    else if h.OfNode? then Object(h.body.kind, h.body.content)
    else Object(File, h)
  }

  /** Two directories denote the same tree when they have the same names with the same subtrees. */
  lemma SameDir(a: Hash, b: Hash, ma: ChildMap, mb: ChildMap)
    requires DirOf(a, ma) && DirOf(b, mb) && a.body.kind == Directory && b.body.kind == Directory
    ensures Denote(a) == Denote(b) <==> ma.Keys == mb.Keys && forall n :: n in ma && n in mb ==> Denote(ma[n]) == Denote(mb[n])
  {
    hide Denote;
    DenoteDir(a, ma);
    DenoteDir(b, mb);
    var ta, tb := Denote(a).entries, Denote(b).entries;
    if ma.Keys == mb.Keys && forall n :: n in ma && n in mb ==> Denote(ma[n]) == Denote(mb[n]) {
      assert forall n :: n in ta ==> ta[n] == tb[n];
      assert ta == tb;
    }
    if Denote(a) == Denote(b) {
      forall n | n in ma && n in mb ensures Denote(ma[n]) == Denote(mb[n]) { assert ta[n] == tb[n]; }
    }
  }

  lemma DenoteDir(a: Hash, ma: ChildMap)
    requires DirOf(a, ma) && a.body.kind == Directory
    ensures Denote(a).Dir? && Denote(a).entries.Keys == ma.Keys && forall n :: n in ma ==> Denote(a).entries[n] == Denote(ma[n])
  {
  }

  lemma {:induction false} EmptyNames(s: State, o: Order, a: Hash, ma: ChildMap, mb: ChildMap, names: seq<string>, prefix: Path)
    requires Good(s) && Closed(s) && OrderOk(o) && DirOf(a, ma)
    requires (forall n :: n in ma ==> ma[n] in s.repo) && forall n :: n in mb ==> mb[n] in s.repo
    ensures FullDiffNames(s, o, a, ma, mb, names, prefix).Ok?
    ensures FullDiffNames(s, o, a, ma, mb, names, prefix) == Ok([]) <==>
      forall n :: n in names ==> (n in ma <==> n in mb) && (n in ma && n in mb ==> Denote(ma[n]) == Denote(mb[n]))
    decreases a.body, |names|
  {
    if names != [] {
      var n := names[0];
      EmptyNames(s, o, a, ma, mb, names[1..], prefix);
      var rest := FullDiffNames(s, o, a, ma, mb, names[1..], prefix);
      var here :=
        if n in ma && n in mb then FullDiff(s, o, ma[n], mb[n], prefix + [n])
        else if n in ma then Ok([DiffEntry(prefix + [n], Removed)])
        else if n in mb then Ok([DiffEntry(prefix + [n], Added)])
        else Ok([]);
      if n in ma && n in mb { EmptyMeansEqual(s, o, ma[n], mb[n], prefix + [n]); }
      assert FullDiffNames(s, o, a, ma, mb, names, prefix) == Append(here, rest);
      AppendNothing(here, rest);
      assert forall x :: x in names <==> x == n || x in names[1..];
    }
  }

  /** The full walk succeeds, and finds nothing exactly when both roots denote the same tree. */
  lemma {:induction false} EmptyMeansEqual(s: State, o: Order, a: Hash, b: Hash, prefix: Path)
    requires Good(s) && Closed(s) && OrderOk(o) && a in s.repo && b in s.repo
    ensures FullDiff(s, o, a, b, prefix).Ok?
    ensures FullDiff(s, o, a, b, prefix) == Ok([]) <==> Denote(a) == Denote(b)
    decreases a, 0
  {
    hide Denote;
    if s.repo[a].body.kind == Directory && s.repo[b].body.kind == Directory {
      ClosedChildren(s, a);
      ClosedChildren(s, b);
      var ma, mb := ChildrenOf(s, a).value, ChildrenOf(s, b).value;
      EmptyNames(s, o, a, ma, mb, o(ma.Keys + mb.Keys), prefix);
      SameDir(a, b, ma, mb);
      assert forall n :: n in o(ma.Keys + mb.Keys) <==> n in ma || n in mb;
    } else {
      LeafEqual(s, o, a, b, prefix);
    }
  }

  lemma LeafEqual(s: State, o: Order, a: Hash, b: Hash, prefix: Path)
    requires Good(s) && Closed(s) && a in s.repo && b in s.repo && !(s.repo[a].body.kind == Directory && s.repo[b].body.kind == Directory)
    ensures FullDiff(s, o, a, b, prefix).Ok?
    ensures FullDiff(s, o, a, b, prefix) == Ok([]) <==> Denote(a) == Denote(b)
  {
    if s.repo[a].body.kind == Directory { ClosedChildren(s, a); }
    if s.repo[b].body.kind == Directory { ClosedChildren(s, b); }
  }

  // ---------------------------------------------------------------------
  // What the entries mean
  // ---------------------------------------------------------------------

  /** The subtree at a path. */
  function At(t: Tree, p: Path): Result<Tree>
  {
    if p == [] then Ok(t)
    else if t.Dir? && p[0] in t.entries then At(t.entries[p[0]], p[1..])
    else Err(PathNotFound)
  }

  /** The path leads to a directory. */
  predicate DirAt(t: Tree, p: Path)
  {
    At(t, p).Ok? && At(t, p).value.Dir?
  }

  /** How two trees differ at a path: something is there on one side only, in a directory of both, or
      different things that are not both directories are there. */
  ghost predicate Differs(a: Tree, b: Tree, p: Path, c: Change)
  {
    match c
    case Removed => p != [] && At(a, p).Ok? && At(b, p).Err? && DirAt(b, p[..|p| - 1])
    case Added => p != [] && At(a, p).Err? && At(b, p).Ok? && DirAt(a, p[..|p| - 1])
    case Modified => At(a, p).Ok? && At(b, p).Ok? && At(a, p) != At(b, p) && !(DirAt(a, p) && DirAt(b, p))
  }

  /** Two directories differ below a name as its two subtrees do, or at the name itself. */
  lemma DiffersBelow(a: Tree, b: Tree, p: Path, c: Change)
    requires a.Dir? && b.Dir? && p != []
    ensures p[0] in a.entries && p[0] in b.entries ==> (Differs(a, b, p, c) <==> Differs(a.entries[p[0]], b.entries[p[0]], p[1..], c))
    ensures p[0] in a.entries && p[0] !in b.entries ==> (Differs(a, b, p, c) <==> p == [p[0]] && c == Removed)
    ensures p[0] !in a.entries && p[0] in b.entries ==> (Differs(a, b, p, c) <==> p == [p[0]] && c == Added)
    ensures p[0] !in a.entries && p[0] !in b.entries ==> !Differs(a, b, p, c)
  {
    var up := p[..|p| - 1];
    assert At(a, p) == if p[0] in a.entries then At(a.entries[p[0]], p[1..]) else Err(PathNotFound);
    assert At(b, p) == if p[0] in b.entries then At(b.entries[p[0]], p[1..]) else Err(PathNotFound);
    if |p| == 1 {
      assert p == [p[0]] && p[1..] == [] && up == [];
      assert forall t :: At(t, p[1..]) == Ok(t) && At(t, up) == Ok(t);
    } else {
      assert up[0] == p[0] && up[1..] == p[1..][..|p[1..]| - 1];
    }
  }

  ghost predicate NameDiffers(ma: ChildMap, mb: ChildMap, q: Path, c: Change)
  {
    && q != []
    && var n := q[0];
      if n in ma && n in mb then Differs(Denote(ma[n]), Denote(mb[n]), q[1..], c)
      else if n in ma then q == [n] && c == Removed
      else n in mb && q == [n] && c == Added
  }

  lemma DirDiffers(a: Hash, b: Hash, ma: ChildMap, mb: ChildMap, q: Path, c: Change)
    requires DirOf(a, ma) && DirOf(b, mb) && a.body.kind == Directory && b.body.kind == Directory
    ensures Differs(Denote(a), Denote(b), q, c) <==> NameDiffers(ma, mb, q, c)
  {
    hide Denote, Differs;
    DenoteDir(a, ma);
    DenoteDir(b, mb);
    var ta, tb := Denote(a), Denote(b);
    if q != [] { DiffersBelow(ta, tb, q, c); } else { NotAtDirs(ta, tb, c); }
  }

  lemma NotAtDirs(a: Tree, b: Tree, c: Change)
    requires a.Dir? && b.Dir?
    ensures !Differs(a, b, [], c)
  {
  }

  lemma AppendHas(a: Result<seq<DiffEntry>>, b: Result<seq<DiffEntry>>, e: DiffEntry)
    requires a.Ok? && b.Ok?
    ensures e in Append(a, b).value <==> e in a.value || e in b.value
  {
  }

  /** The entry at path prefix + q. */
  predicate Has(r: Result<seq<DiffEntry>>, prefix: Path, q: Path, c: Change)
  {
    r.Ok? && DiffEntry(prefix + q, c) in r.value
  }

  lemma {:induction false} NamesMean(s: State, o: Order, a: Hash, ma: ChildMap, mb: ChildMap, names: seq<string>, prefix: Path, q: Path, c: Change)
    requires Good(s) && Closed(s) && OrderOk(o) && DirOf(a, ma)
    requires (forall n :: n in ma ==> ma[n] in s.repo) && forall n :: n in mb ==> mb[n] in s.repo
    ensures FullDiffNames(s, o, a, ma, mb, names, prefix).Ok?
    ensures Has(FullDiffNames(s, o, a, ma, mb, names, prefix), prefix, q, c) <==> q != [] && q[0] in names && NameDiffers(ma, mb, q, c)
    decreases a.body, |names|
  {
    hide Good, Closed, OrderOk;
    if names != [] {
      var n := names[0];
      NamesMean(s, o, a, ma, mb, names[1..], prefix, q, c);
      var rest := FullDiffNames(s, o, a, ma, mb, names[1..], prefix);
      var here := HereOf(s, o, a, ma, mb, n, prefix);
      assert FullDiffNames(s, o, a, ma, mb, names, prefix) == Append(here, rest);
      assert here.Ok? && (DiffEntry(prefix + q, c) in here.value <==> q != [] && q[0] == n && NameDiffers(ma, mb, q, c)) by {
        if n in ma && n in mb {
          assert q != [] && q[0] == n ==> prefix + q == (prefix + [n]) + q[1..];
          EntriesMean(s, o, ma[n], mb[n], prefix + [n], if q != [] then q[1..] else [], c);
          OnlyBelow(s, o, ma[n], mb[n], prefix + [n], DiffEntry(prefix + q, c));
          assert DiffEntry(prefix + q, c) in here.value ==> StartsWith(prefix + q, prefix + [n]);
          StartsAt(prefix, q, n);
        } else {
          assert prefix + q == prefix + [n] <==> q == [n] by { SameTail(prefix, q, [n]); }
        }
      }
      AppendHas(here, rest, DiffEntry(prefix + q, c));
      assert q != [] ==> (q[0] in names <==> q[0] == n || q[0] in names[1..]);
    }
  }

  function HereOf(s: State, o: Order, a: Hash, ma: ChildMap, mb: ChildMap, n: string, prefix: Path): Result<seq<DiffEntry>>
    requires Good(s) && DirOf(a, ma)
  {
    if n in ma && n in mb then FullDiff(s, o, ma[n], mb[n], prefix + [n])
    else if n in ma then Ok([DiffEntry(prefix + [n], Removed)])
    else if n in mb then Ok([DiffEntry(prefix + [n], Added)])
    else Ok([])
  }

  predicate StartsWith(p: Path, prefix: Path)
  {
    prefix <= p
  }

  lemma StartsAt(prefix: Path, q: Path, n: string)
    ensures StartsWith(prefix + q, prefix + [n]) ==> q != [] && q[0] == n
  {
    if StartsWith(prefix + q, prefix + [n]) {
      assert (prefix + q)[|prefix|] == (prefix + [n])[|prefix|];
    }
  }

  lemma SameTail(prefix: Path, q: Path, r: Path)
    ensures prefix + q == prefix + r <==> q == r
  {
    assert (prefix + q)[|prefix|..] == q && (prefix + r)[|prefix|..] == r;
  }

  /** Every entry lies below where the walk began. */
  lemma {:induction false} OnlyBelow(s: State, o: Order, a: Hash, b: Hash, prefix: Path, e: DiffEntry)
    requires Good(s)
    ensures FullDiff(s, o, a, b, prefix).Ok? && e in FullDiff(s, o, a, b, prefix).value ==> StartsWith(e.path, prefix)
    decreases a, 0
  {
    if a in s.repo && b in s.repo && s.repo[a].body.kind == Directory && s.repo[b].body.kind == Directory && ChildrenOf(s, a).Ok? && ChildrenOf(s, b).Ok? {
      StoredChildren(s, a);
      var ma, mb := ChildrenOf(s, a).value, ChildrenOf(s, b).value;
      OnlyBelowNames(s, o, a, ma, mb, o(ma.Keys + mb.Keys), prefix, e);
    }
  }

  lemma {:induction false} OnlyBelowNames(s: State, o: Order, a: Hash, ma: ChildMap, mb: ChildMap, names: seq<string>, prefix: Path, e: DiffEntry)
    requires Good(s) && DirOf(a, ma)
    ensures FullDiffNames(s, o, a, ma, mb, names, prefix).Ok? && e in FullDiffNames(s, o, a, ma, mb, names, prefix).value ==> StartsWith(e.path, prefix)
    decreases a.body, |names|
  {
    hide Good;
    if names != [] {
      var n := names[0];
      OnlyBelowNames(s, o, a, ma, mb, names[1..], prefix, e);
      if n in ma && n in mb { OnlyBelow(s, o, ma[n], mb[n], prefix + [n], e); }
      var here, rest := HereOf(s, o, a, ma, mb, n, prefix), FullDiffNames(s, o, a, ma, mb, names[1..], prefix);
      assert FullDiffNames(s, o, a, ma, mb, names, prefix) == Append(here, rest);
      if here.Ok? && rest.Ok? { AppendHas(here, rest, e); }
    }
  }

  /** The entries of the full walk are exactly the differences of the two trees. */
  lemma {:induction false} EntriesMean(s: State, o: Order, a: Hash, b: Hash, prefix: Path, q: Path, c: Change)
    requires Good(s) && Closed(s) && OrderOk(o) && a in s.repo && b in s.repo
    ensures FullDiff(s, o, a, b, prefix).Ok?
    ensures Has(FullDiff(s, o, a, b, prefix), prefix, q, c) <==> Differs(Denote(a), Denote(b), q, c)
    decreases a, 0
  {
    hide Differs, Denote;
    if s.repo[a].body.kind == Directory && s.repo[b].body.kind == Directory {
      ClosedChildren(s, a);
      ClosedChildren(s, b);
      var ma, mb := ChildrenOf(s, a).value, ChildrenOf(s, b).value;
      NamesMean(s, o, a, ma, mb, o(ma.Keys + mb.Keys), prefix, q, c);
      DirDiffers(a, b, ma, mb, q, c);
    } else {
      LeafWalk(s, o, a, b, prefix, q, c);
    }
  }

  lemma LeafWalk(s: State, o: Order, a: Hash, b: Hash, prefix: Path, q: Path, c: Change)
    requires Good(s) && Closed(s) && a in s.repo && b in s.repo && !(s.repo[a].body.kind == Directory && s.repo[b].body.kind == Directory)
    ensures FullDiff(s, o, a, b, prefix).Ok?
    ensures Has(FullDiff(s, o, a, b, prefix), prefix, q, c) <==> Differs(Denote(a), Denote(b), q, c)
  {
    hide Differs;
    if s.repo[a].body.kind == Directory { ClosedChildren(s, a); }
    if s.repo[b].body.kind == Directory { ClosedChildren(s, b); }
    SameTail(prefix, q, []);
    assert prefix + [] == prefix;
    LeafDiffers(Denote(a), Denote(b), q, c);
  }

  lemma LeafDiffers(a: Tree, b: Tree, q: Path, c: Change)
    requires !(a.Dir? && b.Dir?)
    ensures Differs(a, b, q, c) <==> q == [] && c == Modified && a != b
  {
    if q != [] {
      if !a.Dir? { NothingInside(a, q); }
      if !b.Dir? { NothingInside(b, q); }
    }
  }

  lemma NothingInside(t: Tree, q: Path)
    requires !t.Dir? && q != []
    ensures At(t, q).Err? && !DirAt(t, q[..|q| - 1])
  {
  }

  /** Main result: the pruned diff is the full diff, its entries are exactly the differences of the two
      trees, and it is empty exactly when the trees are equal. */
  lemma DiffIsExact(s: State, o: Order, a: Hash, b: Hash)
    requires Good(s) && Closed(s) && OrderOk(o) && a in s.repo && b in s.repo
    ensures Diff(s, o, a, b, []) == FullDiff(s, o, a, b, []) && Diff(s, o, a, b, []).Ok?
    ensures forall p, c :: DiffEntry(p, c) in Diff(s, o, a, b, []).value <==> Differs(Denote(a), Denote(b), p, c)
    ensures Diff(s, o, a, b, []) == Ok([]) <==> Denote(a) == Denote(b)
  {
    hide Diff, FullDiff, Denote, Good, Closed, OrderOk, Differs;
    PruneLosesNothing(s, o, a, b, []);
    EmptyMeansEqual(s, o, a, b, []);
    forall p, c ensures DiffEntry(p, c) in FullDiff(s, o, a, b, []).value <==> Differs(Denote(a), Denote(b), p, c) {
      EntriesMean(s, o, a, b, [], p, c);
      assert [] + p == p;
    }
  }
}

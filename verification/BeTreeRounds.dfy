/** Why flushing everything ends: nodes are visited parents first, each round
    empties the highest level that had messages, and the height is logarithmic. */
module BeTreeRounds {
  import opened Options
  import opened BeTreeModel
  import opened SetSizes
  import opened BeTreeMessages
  import opened BeTreeContent
  import opened BeTreeSplit
  import opened BeTreeState

  // ---------------------------------------------------------------------
  // Visiting order
  // ---------------------------------------------------------------------

  /** No node comes after one of its descendants. */
  ghost predicate ParentsFirst(g: Map, ids: seq<nat>)
  {
    && (forall x :: 0 <= x < |ids| ==> ids[x] < |g|)
    && forall x, y :: 0 <= x < y < |ids| ==> NotBelow(g, ids[x], ids[y])
  }

  ghost predicate NotBelow(g: Map, a: nat, b: nat)
  {
    a < |g| && b < |g| && (g[a].level >= g[b].level || Apart(g[a], g[b]))
  }

  lemma ParentsFirstStays(g: Map, g': Map, ids: seq<nat>)
    requires ParentsFirst(g, ids) && Shrinks(g, g')
    ensures ParentsFirst(g', ids)
  {
    forall x, y | 0 <= x < y < |ids| ensures NotBelow(g', ids[x], ids[y]) {
      assert NotBelow(g, ids[x], ids[y]);
      if Apart(g[ids[x]], g[ids[y]]) { ApartMono(g[ids[x]], g[ids[y]], g'[ids[x]], g'[ids[y]]); }
    }
  }

  /** Node y lies below, or is, node x. */
  ghost predicate Covers(g: Map, x: nat, y: nat)
  {
    x < |g| && y < |g| && NonEmpty(g[y]) && g[y].level <= g[x].level && In(g[x], KeyIn(g[y]))
  }

  ghost predicate Covered(g: Map, stack: seq<nat>, y: nat)
  {
    exists x :: 0 <= x < |stack| && Covers(g, stack[x], y)
  }

  ghost predicate Done(g: Map, v: nat, t: nat)
  {
    v < |g| && t < |g| && (Apart(g[v], g[t]) || g[v].level > g[t].level)
  }

  /** State of the walk: what was visited, what is on the stack, what was listed. */
  ghost predicate Walk<V>(n: Arena<V>, g: Map, visited: set<nat>, stack: seq<nat>, out: seq<nat>)
  {
    && |n| == |g|
    && (forall x :: 0 <= x < |stack| ==> stack[x] < |g|)
    && (forall x, y :: 0 <= x < y < |stack| ==> Apart(g[stack[x]], g[stack[y]]))
    && (forall v, x :: v in visited && 0 <= x < |stack| ==> Done(g, v, stack[x]))
    && (forall v :: v in visited ==> v < |n| && (n[v].Internal? ==> v in out))
    && (forall x :: 0 <= x < |out| ==> out[x] in visited && out[x] < |n| && n[out[x]].Internal?)
    && ParentsFirst(g, out)
    && (forall y :: 0 <= y < |g| ==> y in visited || Covered(g, stack, y))
  }

  lemma WalkStart<V>(n: Arena<V>, g: Map, root: nat)
    requires StructOk(n, g, root)
    ensures Walk(n, g, {}, [root], [])
  {
    forall y | 0 <= y < |g| ensures Covered(g, [root], y) {
      assert NodeOk(n, g, root, y);
      LevelBelowRoot(n, g, root, y);
      assert Covers(g, [root][0], y);
    }
  }

  /** The node on top of the stack has not been visited. */
  lemma TopIsNew<V>(n: Arena<V>, g: Map, root: nat, visited: set<nat>, stack: seq<nat>, out: seq<nat>)
    requires StructOk(n, g, root) && Walk(n, g, visited, stack, out) && stack != []
    ensures stack[|stack| - 1] < |n| && stack[|stack| - 1] !in visited
  {
    var id := stack[|stack| - 1];
    assert NodeOk(n, g, root, id);
    assert id in visited ==> Done(g, id, stack[|stack| - 1]);
  }

  function Ids(cs: seq<Child>): (r: seq<nat>)
    ensures |r| == |cs| && forall x :: 0 <= x < |cs| ==> r[x] == cs[x].id
  {
    seq(|cs|, x requires 0 <= x < |cs| => cs[x].id)
  }

  /** Children lie in their parent's region, apart from each other. */
  lemma ChildRegions<V>(n: Arena<V>, g: Map, root: nat, id: nat, x: nat)
    requires StructOk(n, g, root) && id < |n| && x < |Kids(n[id])|
    ensures Kids(n[id])[x].id < |n| && Within(g[Kids(n[id])[x].id], g[id]) && g[Kids(n[id])[x].id].level + 1 == g[id].level
    ensures NonEmpty(g[Kids(n[id])[x].id])
  {
    assert ChildOk(n, g, id, x);
    var c := Kids(n[id])[x].id;
    assert NodeOk(n, g, root, c) && ParentOk(n, g, c, id);
  }

  lemma ChildrenApart<V>(n: Arena<V>, g: Map, root: nat, id: nat, x: nat, y: nat)
    requires StructOk(n, g, root) && id < |n| && x < y < |Kids(n[id])|
    ensures Kids(n[id])[x].id < |n| && Kids(n[id])[y].id < |n| && Apart(g[Kids(n[id])[x].id], g[Kids(n[id])[y].id])
  {
    ChildRegions(n, g, root, id, x);
    ChildRegions(n, g, root, id, y);
    DistinctChildren(n, g, root, id, x, y);
    var a, b := Kids(n[id])[x].id, Kids(n[id])[y].id;
    assert if a < b then Apart(g[a], g[b]) else Apart(g[b], g[a]);
  }

  /** Replacing a node on the stack by its children. */
  lemma StackStep<V>(n: Arena<V>, g: Map, root: nat, visited: set<nat>, stack: seq<nat>, out: seq<nat>, stack': seq<nat>)
    requires StructOk(n, g, root) && Walk(n, g, visited, stack, out) && stack != []
    requires stack' == stack[..|stack| - 1] + Ids(Kids(n[stack[|stack| - 1]]))
    ensures forall x :: 0 <= x < |stack'| ==> stack'[x] < |g|
    ensures forall x, y :: 0 <= x < y < |stack'| ==> Apart(g[stack'[x]], g[stack'[y]])
    ensures forall v, x :: v in visited + {stack[|stack| - 1]} && 0 <= x < |stack'| ==> Done(g, v, stack'[x])
  {
    var id := stack[|stack| - 1];
    var rest := |stack| - 1;
    forall x | 0 <= x < |stack'| ensures stack'[x] < |g| && (x >= rest ==> Within(g[stack'[x]], g[id]) && g[stack'[x]].level + 1 == g[id].level) {
      if x >= rest { ChildRegions(n, g, root, id, x - rest); }
    }
    forall x, y | 0 <= x < y < |stack'| ensures Apart(g[stack'[x]], g[stack'[y]]) {
      if x >= rest {
        ChildrenApart(n, g, root, id, x - rest, y - rest);
      } else if y >= rest {
        ApartMono(g[stack[x]], g[id], g[stack[x]], g[stack'[y]]);
      }
    }
    forall v, x | v in visited + {id} && 0 <= x < |stack'| ensures Done(g, v, stack'[x]) {
      if v in visited {
        assert Done(g, v, id);
        if x < rest {
          assert Done(g, v, stack[x]);
        } else if Apart(g[v], g[id]) {
          ApartMono(g[v], g[id], g[v], g[stack'[x]]);
        }
      } else if x < rest {
        assert Apart(g[stack[x]], g[id]);
      }
    }
  }

  /** What the node covered, it or its children cover. */
  lemma CoverStep<V>(n: Arena<V>, g: Map, root: nat, stack: seq<nat>, stack': seq<nat>, y: nat)
    requires StructOk(n, g, root) && stack != [] && stack[|stack| - 1] < |g| && y < |g|
    requires stack' == stack[..|stack| - 1] + Ids(Kids(n[stack[|stack| - 1]])) && Covered(g, stack, y)
    ensures y == stack[|stack| - 1] || Covered(g, stack', y)
  {
    var id := stack[|stack| - 1];
    var x :| 0 <= x < |stack| && Covers(g, stack[x], y);
    if x < |stack| - 1 {
      assert stack'[x] == stack[x];
    } else if g[y].level == g[id].level {
      OneNodePerKey(g, y, id, KeyIn(g[y]));
    } else {
      assert NodeOk(n, g, root, id);
      var k := KeyIn(g[y]);
      RouteCovers(n, g, root, id, k);
      var c := RouteFrom(n[id].children, k, 0);
      assert stack'[|stack| - 1 + c] == n[id].children[c].id;
      assert Covers(g, stack'[|stack| - 1 + c], y);
    }
  }

  lemma WalkStep<V>(n: Arena<V>, g: Map, root: nat, visited: set<nat>, stack: seq<nat>, out: seq<nat>, stack': seq<nat>, out': seq<nat>)
    requires StructOk(n, g, root) && Walk(n, g, visited, stack, out) && stack != []
    requires stack' == stack[..|stack| - 1] + Ids(Kids(n[stack[|stack| - 1]]))
    requires out' == if n[stack[|stack| - 1]].Internal? then out + [stack[|stack| - 1]] else out
    ensures Walk(n, g, visited + {stack[|stack| - 1]}, stack', out')
  {
    hide StructOk, Covered, Apart;
    var id := stack[|stack| - 1];
    StackStep(n, g, root, visited, stack, out, stack');
    forall y | 0 <= y < |g| ensures y in visited + {id} || Covered(g, stack', y) {
      if y !in visited { CoverStep(n, g, root, stack, stack', y); }
    }
    assert ParentsFirst(g, out') by { OutStep(n, g, visited, stack, out, out'); }
  }

  lemma OutStep<V>(n: Arena<V>, g: Map, visited: set<nat>, stack: seq<nat>, out: seq<nat>, out': seq<nat>)
    requires Walk(n, g, visited, stack, out) && stack != []
    requires out' == if n[stack[|stack| - 1]].Internal? then out + [stack[|stack| - 1]] else out
    ensures ParentsFirst(g, out')
  {
    hide Covered, Apart;
    forall x, y | 0 <= x < y < |out'| ensures NotBelow(g, out'[x], out'[y]) {
      assert out'[x] == out[x];
      if y < |out| {
        assert NotBelow(g, out[x], out[y]);
      } else {
        assert Done(g, out[x], stack[|stack| - 1]);
      }
    }
  }

  // ---------------------------------------------------------------------
  // Height
  // ---------------------------------------------------------------------

  function Pow2(k: nat): nat
  {
    if k == 0 then 1 else 2 * Pow2(k - 1)
  }

  ghost function AtLevel(g: Map, l: nat): set<nat>
  {
    set i: nat | i < |g| && g[i].level == l
  }

  /** Two one-to-one maps with separate images make the target at least twice as large. */
  lemma {:induction false} TwoFold(a: set<nat>, b: set<nat>, f: nat -> nat, g: nat -> nat)
    requires forall x :: x in a ==> f(x) in b && g(x) in b
    requires forall x, y :: x in a && y in a ==> f(x) != g(y)
    requires forall x, y :: x in a && y in a && x != y ==> f(x) != f(y) && g(x) != g(y)
    ensures |b| >= 2 * |a|
    decreases |a|
  {
    if a != {} {
      var x :| x in a;
      var rest := b - {f(x)} - {g(x)};
      assert |rest| == |b| - 2;
      TwoFold(a - {x}, rest, f, g);
    }
  }

  ghost predicate Branching<V>(n: Arena<V>)
  {
    forall i :: 0 <= i < |n| && n[i].Internal? ==> |n[i].children| >= 2
  }

  ghost function KidAt<V>(n: Arena<V>, i: nat, j: nat): nat
  {
    if i < |n| && j < |Kids(n[i])| then Kids(n[i])[j].id else 0
  }

  lemma KidParent<V>(n: Arena<V>, g: Map, root: nat, i: nat, j: nat)
    requires StructOk(n, g, root) && Branching(n) && i < |n| && g[i].level > 0 && j < 2
    ensures KidAt(n, i, j) < |n| && n[KidAt(n, i, j)].parent == Some(i) && g[KidAt(n, i, j)].level + 1 == g[i].level
    ensures KidAt(n, i, 0) != KidAt(n, i, 1)
  {
    assert NodeOk(n, g, root, i);
    assert ChildOk(n, g, i, j);
    DistinctChildren(n, g, root, i, 0, 1);
  }

  /** Each level has at least twice the nodes of the level above. */
  lemma Doubling<V>(n: Arena<V>, g: Map, root: nat, l: nat)
    requires StructOk(n, g, root) && Branching(n)
    ensures |AtLevel(g, l)| >= 2 * |AtLevel(g, l + 1)|
  {
    hide StructOk, Branching, KidAt;
    var up, down := AtLevel(g, l + 1), AtLevel(g, l);
    var f, h := (i: nat) => KidAt(n, i, 0), (i: nat) => KidAt(n, i, 1);
    SameSize(n, g, root);
    forall i | i in up ensures f(i) in down && h(i) in down && f(i) != h(i) && f(i) < |n| && h(i) < |n|
      && n[f(i)].parent == Some(i) && n[h(i)].parent == Some(i)
    {
      KidParent(n, g, root, i, 0);
      KidParent(n, g, root, i, 1);
    }
    TwoFold(up, down, f, h);
  }

  lemma SameSize<V>(n: Arena<V>, g: Map, root: nat)
    requires StructOk(n, g, root)
    ensures |n| == |g| && root < |n|
  {
  }

  lemma {:induction false} LevelSize<V>(n: Arena<V>, g: Map, root: nat, l: nat)
    requires StructOk(n, g, root) && Branching(n) && l <= g[root].level
    ensures |AtLevel(g, l)| >= Pow2(g[root].level - l)
    decreases g[root].level - l
  {
    if l < g[root].level {
      LevelSize(n, g, root, l + 1);
      Doubling(n, g, root, l);
    } else {
      assert root in AtLevel(g, l);
      SubsetSize({root}, AtLevel(g, l));
    }
  }

  lemma {:induction false} AtMostAll(g: Map, l: nat)
    ensures |AtLevel(g, l)| <= |g|
    decreases |g|
  {
    if g != [] {
      var t := g[..|g| - 1];
      AtMostAll(t, l);
      SubsetSize(AtLevel(g, l), AtLevel(t, l) + {|t|});
    }
  }

  /** A tree whose inner nodes have two or more children has height at most log2 of its size. */
  lemma HeightIsLogarithmic<V>(n: Arena<V>, g: Map, root: nat)
    requires StructOk(n, g, root) && Branching(n)
    ensures Pow2(g[root].level) <= |n|
  {
    LevelSize(n, g, root, 0);
    AtMostAll(g, 0);
  }

  lemma {:induction false} Pow2Monotone(a: nat, b: nat)
    requires a <= b
    ensures Pow2(a) <= Pow2(b)
    decreases b
  {
    if a < b { Pow2Monotone(a, b - 1); }
  }

  // ---------------------------------------------------------------------
  // Rounds
  // ---------------------------------------------------------------------

  /** No buffer at level l or above holds anything. */
  ghost predicate EmptyFrom<V>(s: View<V>, l: nat)
    requires |s.n| == |s.g|
  {
    forall i :: 0 <= i < |s.n| && s.g[i].level >= l ==> Buffer(s.n[i]) == []
  }

  /** A round in progress: level h + 1 and above are empty, and what level h still
      holds is in nodes to come. */
  ghost predicate Round<V>(s: View<V>, h: nat, ids: seq<nat>)
  {
    && |s.n| == |s.g| && EmptyFrom(s, h + 1) && ParentsFirst(s.g, ids)
    && forall y :: 0 <= y < |s.n| && s.g[y].level >= h && Buffer(s.n[y]) != [] ==> y in ids
  }

  lemma RoundStart<V>(s: View<V>, h: nat, ids: seq<nat>)
    requires |s.n| == |s.g| && EmptyFrom(s, h + 1) && ParentsFirst(s.g, ids)
    requires forall y :: 0 <= y < |s.n| && s.n[y].Internal? ==> y in ids
    ensures Round(s, h, ids)
  {
  }

  /** Before a node is flushed, nothing is buffered above it from level h up. */
  lemma RoundQuiet<V>(s: View<V>, t: View<V>, h: nat, ids: seq<nat>)
    requires Round(s, h, ids) && ids != [] && t.g == s.g && Disjoint(s.g)
    requires |t.n| == |s.n| && Buffer(t.n[ids[0]]) == [] && forall y :: 0 <= y < |s.n| && y != ids[0] ==> t.n[y] == s.n[y]
    ensures QuietAbove(t, ids[0], if s.g[ids[0]].level > h then s.g[ids[0]].level else h, false)
  {
    var d := ids[0];
    forall x | 0 < x < |ids| && Above(s.g, d, false, ids[x]) ensures ids[x] == d {
      assert NotBelow(s.g, ids[0], ids[x]);
      SameNode(s.g, d, ids[x]);
    }
    forall y | 0 <= y < |t.n| && t.g[y].level >= h && Above(t.g, d, false, y) ensures Buffer(t.n[y]) == [] {
      assert y in ids ==> y == d;
    }
  }

  lemma SameNode(g: Map, i: nat, j: nat)
    requires Disjoint(g) && i < |g| && j < |g| && g[i].level == g[j].level && !Apart(g[i], g[j])
    ensures i == j
  {
  }

  lemma RoundStep<V>(s: View<V>, t: View<V>, s': View<V>, h: nat, ids: seq<nat>)
    requires Round(s, h, ids) && ids != [] && Shrinks(s.g, s'.g) && |s'.n| == |s'.g| && |t.n| == |s.n|
    requires Buffer(t.n[ids[0]]) == [] && (forall y :: 0 <= y < |s.n| && y != ids[0] ==> t.n[y] == s.n[y])
    requires Calm(t, s', h)
    ensures Round(s', h, ids[1..])
  {
    ParentsFirstStays(s.g, s'.g, ids);
    forall x, y | 0 <= x < y < |ids[1..]| ensures NotBelow(s'.g, ids[1..][x], ids[1..][y]) {
      assert NotBelow(s'.g, ids[x + 1], ids[y + 1]);
    }
    assert ids == [ids[0]] + ids[1..];
  }
}

/** Where the root of a copied tree is looked up: a cell per node type in the transaction, an image-wide
    mirror for three of the types, and a superblock field for six, brought up to date at commit. Trees
    of one type share all of these. */
module RootCells {
  import opened Options

  /** The node types whose nodes are copied under a snapshot barrier. */
  predicate IsFrozen(ty: nat)
  {
    ty in {1, 2, 3, 5, 13}
  }

  /** The node types whose root is mirrored on the disk object. */
  predicate HasSlot(ty: nat)
  {
    ty in {1, 2, 5}
  }

  /** The node types whose root has a field in the superblock. */
  predicate HasField(ty: nat)
  {
    ty in {1, 2, 5, 7, 9, 13}
  }

  /** The transaction's cells; the mirror, in which 0 means that nothing was recorded; the fields written so far. */
  datatype Cells = Cells(tx: map<nat, nat>, mirror: map<nat, nat>, fields: map<nat, nat>)

  /** The root recorded for a type, where a caller takes the field if there is one. */
  function Recorded(c: Cells, ty: nat): Option<nat>
  {
    if ty in c.tx then Some(c.tx[ty])
    else if HasSlot(ty) && ty in c.mirror && c.mirror[ty] != 0 then Some(c.mirror[ty])
    else if HasField(ty) && ty in c.fields then Some(c.fields[ty])
    else None
  }

  function Moved(c: Cells, ty: nat, root: nat): Cells
  {
    c.(tx := c.tx[ty := root], mirror := if HasSlot(ty) then c.mirror[ty := root] else c.mirror)
  }

  /** A commit writes the moved roots to their fields; the next transaction starts with empty cells. */
  function Committed(c: Cells): Cells
  {
    Cells(map[], c.mirror, c.fields + map ty | ty in c.tx && HasField(ty) :: c.tx[ty])
  }

  class RootTable {
    var rootCells: map<nat, nat>
    var frozenRoots: map<nat, nat>
    var superblock: map<nat, nat>

    ghost function Now(): Cells
      reads this
    {
      Cells(rootCells, frozenRoots, superblock)
    }

    constructor ()
      ensures Now() == Cells(map[], map[], map[])
    {
      rootCells, frozenRoots, superblock := map[], map[], map[];
    }

    /** Records the new root of a tree of the given type. */
    method SetRootCell(ty: nat, root: nat)
      modifies this
      ensures Now() == Moved(old(Now()), ty, root)
    {
      rootCells := rootCells[ty := root];
      if HasSlot(ty) {
        frozenRoots := frozenRoots[ty := root];
      }
    }

    /** The transaction's cell, else the mirror, else what the caller holds. */
    method EffectiveRoot(ty: nat, default: nat) returns (root: nat)
      ensures HasField(ty) && ty in superblock && default == superblock[ty] ==> Recorded(Now(), ty) == Some(root)
      ensures !(HasField(ty) && ty in superblock) ==> root == Or(Recorded(Now(), ty), default)
    {
      if ty in rootCells {
        return rootCells[ty];
      }
      if HasSlot(ty) && ty in frozenRoots && frozenRoots[ty] != 0 {
        return frozenRoots[ty];
      }
      return default;
    }

    /** Writes the moved roots to the superblock and ends the transaction. */
    method Commit()
      modifies this
      ensures Now() == Committed(old(Now()))
    {
      superblock := superblock + map ty | ty in rootCells && HasField(ty) :: rootCells[ty];
      rootCells := map[];
    }
  }

  // ---------------------------------------------------------------------
  // When a tree finds its own root
  // ---------------------------------------------------------------------

  /** Trees by number: the type of each, and the root block its callers hold. */
  datatype Trees = Trees(types: seq<nat>, homes: seq<nat>)

  datatype Event =
    | Move(tree: nat, root: nat)
    | Commit

  /** Only trees of frozen types move, and to real blocks. */
  ghost predicate Possible(ts: Trees, es: seq<Event>)
  {
    forall x :: 0 <= x < |es| && es[x].Move? ==> es[x].tree < |ts.types| && IsFrozen(ts.types[es[x].tree]) && es[x].root > 0
  }

  ghost function Play(ts: Trees, es: seq<Event>): Cells
    requires Possible(ts, es)
  {
    if es == [] then Cells(map[], map[], map[]) else
      var c, e := Play(ts, es[..|es| - 1]), es[|es| - 1];
      match e
      case Move(t, root) => Moved(c, ts.types[t], root)
      case Commit => Committed(c)
  }

  /** Where tree t really is: its last move, if it has moved. */
  ghost function LastMove(es: seq<Event>, t: nat): Option<nat>
  {
    if es == [] then None
    else if es[|es| - 1].Move? && es[|es| - 1].tree == t then Some(es[|es| - 1].root)
    else LastMove(es[..|es| - 1], t)
  }

  function Or(r: Option<nat>, default: nat): nat
  {
    if r.Some? then r.value else default
  }

  /** Whatever happens, readers of tree t find the root of tree t. */
  ghost predicate FindsItself(ts: Trees, t: nat)
    requires t < |ts.types| == |ts.homes|
  {
    forall es :: Possible(ts, es) ==> Or(Recorded(Play(ts, es), ts.types[t]), ts.homes[t]) == Or(LastMove(es, t), ts.homes[t])
  }

  ghost predicate Alone(ts: Trees, t: nat)
    requires t < |ts.types|
  {
    forall u :: 0 <= u < |ts.types| && u != t ==> ts.types[u] != ts.types[t]
  }

  /** A move of a type with a slot or a field outlives its transaction. */
  predicate Lasting(ty: nat)
  {
    HasSlot(ty) || HasField(ty)
  }

  lemma {:induction false} AloneKeeps(ts: Trees, t: nat, es: seq<Event>)
    requires t < |ts.types| && Possible(ts, es) && HasSlot(ts.types[t]) && Alone(ts, t)
    ensures Recorded(Play(ts, es), ts.types[t]) == LastMove(es, t)
    ensures var c := Play(ts, es); ts.types[t] in c.tx ==> ts.types[t] in c.mirror && c.mirror[ts.types[t]] == c.tx[ts.types[t]]
    ensures var c := Play(ts, es); ts.types[t] in c.mirror ==> c.mirror[ts.types[t]] > 0
    ensures var c := Play(ts, es); ts.types[t] in c.fields ==> ts.types[t] in c.mirror
    decreases |es|
  {
    if es != [] {
      AloneKeeps(ts, t, es[..|es| - 1]);
    }
  }

  lemma {:induction false} FieldKeeps(ts: Trees, t: nat, es: seq<Event>)
    requires t < |ts.types| && Possible(ts, es) && HasField(ts.types[t]) && !HasSlot(ts.types[t]) && Alone(ts, t)
    ensures Recorded(Play(ts, es), ts.types[t]) == LastMove(es, t)
    decreases |es|
  {
    if es != [] {
      FieldKeeps(ts, t, es[..|es| - 1]);
    }
  }

  lemma {:induction false} UnfrozenKeeps(ts: Trees, t: nat, es: seq<Event>)
    requires t < |ts.types| && Possible(ts, es) && !IsFrozen(ts.types[t])
    ensures LastMove(es, t) == None
    ensures var c := Play(ts, es); ts.types[t] !in c.tx && ts.types[t] !in c.mirror && ts.types[t] !in c.fields
    decreases |es|
  {
    if es != [] {
      UnfrozenKeeps(ts, t, es[..|es| - 1]);
    }
  }

  /** A frozen tree whose type has neither loses its move with the transaction. */
  lemma MoveLost(ts: Trees, t: nat)
    requires t < |ts.types| == |ts.homes| && IsFrozen(ts.types[t]) && !Lasting(ts.types[t])
    ensures !FindsItself(ts, t)
  {
    var move := Move(t, ts.homes[t] + 1);
    var es := [move, Event.Commit];
    assert es[..1] == [move] && es[..1][..0] == [];
    assert Possible(ts, es[..1]) && Possible(ts, es);
    assert Play(ts, es[..1]) == Moved(Play(ts, es[..1][..0]), ts.types[t], ts.homes[t] + 1);
    assert Play(ts, es).tx == map[] && LastMove(es, t) == LastMove(es[..1], t) == Some(ts.homes[t] + 1);
  }

  /** The move of one frozen tree redirects every other tree of its type. */
  lemma MoveTaken(ts: Trees, t: nat, u: nat)
    requires t < |ts.types| == |ts.homes| && u < |ts.types| && u != t && ts.types[u] == ts.types[t] && IsFrozen(ts.types[t])
    ensures !FindsItself(ts, t)
  {
    var es := [Move(u, ts.homes[t] + 1)];
    assert es[..0] == [] && Possible(ts, es);
    assert Play(ts, es) == Moved(Play(ts, es[..0]), ts.types[u], ts.homes[t] + 1);
    assert LastMove(es, t) == LastMove(es[..0], t) == None;
  }

  /** Readers of a tree always find it if and only if its type is never copied, or its moves last and it is the only tree of its type. */
  lemma FindsItselfExactly(ts: Trees, t: nat)
    requires t < |ts.types| == |ts.homes|
    ensures FindsItself(ts, t) <==> !IsFrozen(ts.types[t]) || (Lasting(ts.types[t]) && Alone(ts, t))
  {
    hide Play;
    if !IsFrozen(ts.types[t]) || (Lasting(ts.types[t]) && Alone(ts, t)) {
      forall es | Possible(ts, es) ensures Or(Recorded(Play(ts, es), ts.types[t]), ts.homes[t]) == Or(LastMove(es, t), ts.homes[t]) {
        if !IsFrozen(ts.types[t]) {
          UnfrozenKeeps(ts, t, es);
        } else if HasSlot(ts.types[t]) {
          AloneKeeps(ts, t, es);
        } else {
          FieldKeeps(ts, t, es);
        }
      }
    } else if !Lasting(ts.types[t]) {
      MoveLost(ts, t);
    } else {
      var u :| 0 <= u < |ts.types| && u != t && ts.types[u] == ts.types[t];
      MoveTaken(ts, t, u);
    }
  }

  /** Among the types that are copied, only that of the per-inode extent trees is not lasting; those trees share it. */
  lemma OnlyExtentTrees(ty: nat)
    ensures IsFrozen(ty) && !Lasting(ty) <==> ty == 3
  {
  }
}

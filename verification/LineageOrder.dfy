/**
  The billing repair on locations.  Each processed target draws to itself everything on its lineage.
  Lineages form a preorder: a target is on its own lineage, and the lineage of anything on it is part
  of it.  They need not be acyclic.
 */
module LineageOrder {

  /** `up(t)` is the lineage of `t` as a set: `t` itself and all its ancestors. */
  ghost predicate Preorder(up: int -> set<int>) {
    && (forall t :: t in up(t))
    && (forall t, x :: x in up(t) ==> up(x) <= up(t))
  }

  /** Where a record at `x` is after the target `t` is processed. */
  function Draw(up: int -> set<int>, t: int, x: int): int {
    if x in up(t) then t else x
  }

  /** Where a record at `x` is after all targets are processed in turn. */
  function DrawAll(up: int -> set<int>, targets: seq<int>, x: int): int {
    if targets == [] then x else DrawAll(up, targets[1..], Draw(up, targets[0], x))
  }

  /** No target would move a record at `x`. */
  ghost predicate Settled(up: int -> set<int>, targets: seq<int>, x: int) {
    forall t :: t in targets ==> Draw(up, t, x) == x
  }

  /** A record that starts at `x` is settled after one run. */
  ghost predicate SettledFrom(up: int -> set<int>, targets: seq<int>, x: int) {
    Settled(up, targets, DrawAll(up, targets, x))
  }

  ghost predicate Mutual(up: int -> set<int>, a: int, b: int) {
    a in up(b) && b in up(a)
  }

  /** Whatever two targets share a cycle, a third target outside the cycle draws the cycle empty. */
  ghost predicate CyclesDrained(up: int -> set<int>, targets: seq<int>) {
    forall a, b :: a in targets && b in targets && a != b && Mutual(up, a, b) ==> Drained(up, targets, a)
  }

  ghost predicate Drained(up: int -> set<int>, targets: seq<int>, a: int) {
    exists s :: s in targets && a in up(s) && s !in up(a)
  }

  /** What holds of a record's location after some targets have been processed. */
  ghost predicate Located(up: int -> set<int>, processed: seq<int>, y: int) {
    && (y in processed || forall t :: t in processed ==> y !in up(t))
    && (forall t :: t in processed && y in up(t) ==> t in up(y))
  }

  lemma LocatedNext(up: int -> set<int>, processed: seq<int>, t: int, y: int)
    requires Preorder(up) && Located(up, processed, y)
    ensures Located(up, processed + [t], Draw(up, t, y))
  {
    var y' := Draw(up, t, y);
    forall s | s in processed + [t] && y' in up(s)
      ensures s in up(y')
    {
      if y in up(t) && s in processed {
        assert up(y) <= up(t) <= up(s);
      }
    }
  }

  lemma {:induction false} LocatedAfter(up: int -> set<int>, processed: seq<int>, rest: seq<int>, y: int)
    requires Preorder(up) && Located(up, processed, y)
    ensures Located(up, processed + rest, DrawAll(up, rest, y))
    decreases |rest|
  {
    if rest == [] {
      assert processed + rest == processed;
    } else {
      LocatedNext(up, processed, rest[0], y);
      LocatedAfter(up, processed + [rest[0]], rest[1..], Draw(up, rest[0], y));
      assert processed + [rest[0]] + rest[1..] == processed + rest;
    }
  }

  /** A cycle that no outside target draws from keeps the records that lie on it. */
  lemma {:induction false} CycleKeeps(up: int -> set<int>, targets: seq<int>, all: seq<int>, a: int, y: int)
    requires Preorder(up) && Mutual(up, a, y) && !Drained(up, all, a)
    requires forall t :: t in targets ==> t in all
    ensures Mutual(up, a, DrawAll(up, targets, y))
    decreases |targets|
  {
    if targets != [] {
      assert targets[0] in targets;
      CycleKeeps(up, targets[1..], all, a, Draw(up, targets[0], y));
    }
  }

  /**
    Convergence, exactly: one run settles every record, wherever it started, if and only if every
    cycle with two targets on it is drained by a target outside it.
   */
  lemma ConvergesIffDrained(up: int -> set<int>, targets: seq<int>)
    requires Preorder(up)
    ensures (forall x :: SettledFrom(up, targets, x)) <==> CyclesDrained(up, targets)
  {
    if CyclesDrained(up, targets) {
      forall x
        ensures SettledFrom(up, targets, x)
      {
        LocatedAfter(up, [], targets, x);
        assert [] + targets == targets;
        DrainedSettles(up, targets, DrawAll(up, targets, x));
      }
    }
    if !CyclesDrained(up, targets) {
      var a, b :| a in targets && b in targets && a != b && Mutual(up, a, b) && !Drained(up, targets, a);
      CycleKeeps(up, targets, targets, a, a);
      var y := DrawAll(up, targets, a);
      assert Draw(up, a, y) != y || Draw(up, b, y) != y;
      assert !SettledFrom(up, targets, a);
    }
  }

  lemma DrainedSettles(up: int -> set<int>, targets: seq<int>, y: int)
    requires Preorder(up) && CyclesDrained(up, targets) && Located(up, targets, y)
    ensures Settled(up, targets, y)
  {
    forall t | t in targets
      ensures Draw(up, t, y) == y
    {
      if y in up(t) && y != t {
        assert Mutual(up, y, t);
      }
    }
  }

  /** Without cycles among the targets, every prefix of a run leaves nothing on an ancestor of a processed target. */
  lemma AcyclicPrefixesSettle(up: int -> set<int>, targets: seq<int>, k: nat, x: int)
    requires Preorder(up) && k <= |targets|
    requires forall a, b :: a in targets && b in targets && Mutual(up, a, b) ==> a == b
    ensures SettledFrom(up, targets[..k], x)
  {
    assert forall t :: t in targets[..k] ==> t in targets;
    assert CyclesDrained(up, targets[..k]);
    ConvergesIffDrained(up, targets[..k]);
  }
}

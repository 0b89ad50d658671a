/** The column diff of the ORM's schema migration (geeorm/geeorm.go): which
    columns a table gains and loses when its model's fields change. */
module Orm {

  /** `a - b` as a list: the elements of `a` that do not occur in `b`, in their
      order in `a` and with their repetitions. */
  function Minus(a: seq<string>, b: seq<string>): (r: seq<string>)
    ensures |r| <= |a|
    ensures forall x :: x in r <==> x in a && x !in b
  {
    if a == [] then []
    else
      var last := a[|a| - 1];
      assert a == a[..|a| - 1] + [last];
      Minus(a[..|a| - 1], b) + (if last in b then [] else [last])
  }

  /** `difference`: a set of `b`'s elements, then one pass over `a` keeping the
      elements outside it. */
  method Difference(a: seq<string>, b: seq<string>) returns (diff: seq<string>)
    ensures diff == Minus(a, b)
  {
    var inB: map<string, bool> := map[];
    for i := 0 to |b|
      invariant forall v :: v in inB <==> v in b[..i]
    {
      assert b[..i + 1] == b[..i] + [b[i]];
      inB := inB[b[i] := true];
    }
    assert b[..|b|] == b;
    diff := [];
    for i := 0 to |a|
      invariant diff == Minus(a[..i], b)
    {
      assert a[..i + 1][..i] == a[..i];
      if a[i] !in inB {
        diff := diff + [a[i]];
      }
    }
    assert a[..|a|] == a;
  }

  /** The difference keeps the order of `a`: it distributes over joining. */
  lemma {:induction false} MinusAppend(a: seq<string>, c: seq<string>, b: seq<string>)
    ensures Minus(a + c, b) == Minus(a, b) + Minus(c, b)
    decreases |c|
  {
    if c == [] {
      assert a + c == a;
    } else {
      var init := c[..|c| - 1];
      assert (a + c)[..|a + c| - 1] == a + init;
      assert (a + c)[|a + c| - 1] == c[|c| - 1];
      MinusAppend(a, init, b);
    }
  }

  /** Each element outside `b` keeps every repetition it has in `a`; each
      element of `b` is dropped entirely. */
  lemma {:induction false} MinusCounts(a: seq<string>, b: seq<string>, x: string)
    ensures multiset(Minus(a, b))[x] == if x in b then 0 else multiset(a)[x]
  {
    if a != [] {
      var init := a[..|a| - 1];
      MinusCounts(init, b, x);
      assert a == init + [a[|a| - 1]];
    }
  }

  /** Subtracting nothing changes nothing. */
  lemma {:induction false} MinusNothing(a: seq<string>)
    ensures Minus(a, []) == a
  {
    if a != [] {
      MinusNothing(a[..|a| - 1]);
      assert a == a[..|a| - 1] + [a[|a| - 1]];
    }
  }

  /** A list minus itself is empty. */
  lemma MinusItself(a: seq<string>)
    ensures Minus(a, a) == []
  {
    if Minus(a, a) != [] {
      assert Minus(a, a)[0] in Minus(a, a);
    }
  }

  /** The column changes of `Migrate`: the model's fields the table lacks are
      added, the table's columns the model lacks are dropped. */
  datatype ColumnChanges = ColumnChanges(added: seq<string>, dropped: seq<string>)

  function MigrationPlan(fields: seq<string>, columns: seq<string>): (plan: ColumnChanges)
    ensures forall x :: x in plan.added <==> x in fields && x !in columns
    ensures forall x :: x in plan.dropped <==> x in columns && x !in fields
  {
    ColumnChanges(Minus(fields, columns), Minus(columns, fields))
  }

  /** Applying the plan to the table's columns leaves exactly the model's
      fields, as sets of names; nothing is both added and dropped. */
  lemma MigrationReachesModel(fields: seq<string>, columns: seq<string>)
    ensures var plan := MigrationPlan(fields, columns);
      && (forall x :: x in Minus(columns, plan.dropped) + plan.added <==> x in fields)
      && (forall x :: !(x in plan.added && x in plan.dropped))
  {
  }
}

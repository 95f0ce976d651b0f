// WHERE clauses that Go code assembles from conditions with numbered
// placeholders and a parallel argument list (conditions, args and argPos in
// internal/db/db.go).
module WhereClauses {
  import opened Sql

  datatype Arg = Text(s: string) | Num(n: int)

  function TextArg(v: Option<string>): Option<Arg> {
    if v.Some? then Some(Text(v.value)) else None
  }

  // A list query fetches at least one row.
  function EffectiveLimit(limit: int): nat {
    if limit <= 0 then 1 else limit
  }

  // A condition on a row of the table; arg is the placeholder number it uses,
  // 0 if none.
  datatype Cond<T> = Cond(test: T, arg: nat)

  // A condition with its placeholder filled in.
  datatype Test<T> = Test(test: T, value: Option<Arg>)

  function ArgAt(args: seq<Arg>, n: nat): Option<Arg> {
    if 1 <= n <= |args| then Some(args[n - 1]) else None
  }

  // What the database makes of the conditions and arguments together.
  function Bound<T>(conds: seq<Cond<T>>, args: seq<Arg>): seq<Test<T>> {
    if conds == [] then []
    else
      var last := conds[|conds| - 1];
      Bound(conds[..|conds| - 1], args) + [Test(last.test, ArgAt(args, last.arg))]
  }

  // Every placeholder refers to an argument that is already there.
  ghost predicate Numbered<T>(conds: seq<Cond<T>>, args: seq<Arg>) {
    forall i :: 0 <= i < |conds| ==> conds[i].arg <= |args|
  }

  lemma {:induction false} LaterArgsChangeNothing<T>(conds: seq<Cond<T>>, args: seq<Arg>, v: Arg)
    requires Numbered(conds, args)
    ensures Bound(conds, args + [v]) == Bound(conds, args)
  {
    if conds != [] {
      var init := conds[..|conds| - 1];
      assert forall i :: 0 <= i < |init| ==> init[i] == conds[i];
      LaterArgsChangeNothing(init, args, v);
    }
  }

  // Appending a condition with the next placeholder number, and its argument,
  // adds exactly that test.
  lemma AddWithArg<T>(conds: seq<Cond<T>>, args: seq<Arg>, test: T, v: Arg)
    requires Numbered(conds, args)
    ensures var conds', args' := conds + [Cond(test, |args| + 1)], args + [v];
            Numbered(conds', args') && Bound(conds', args') == Bound(conds, args) + [Test(test, Some(v))]
  {
    LaterArgsChangeNothing(conds, args, v);
    assert (conds + [Cond(test, |args| + 1)])[..|conds|] == conds;
  }

  lemma AddPlain<T>(conds: seq<Cond<T>>, args: seq<Arg>, test: T)
    requires Numbered(conds, args)
    ensures var conds' := conds + [Cond(test, 0)];
            Numbered(conds', args) && Bound(conds', args) == Bound(conds, args) + [Test(test, None)]
  {
    assert (conds + [Cond(test, 0)])[..|conds|] == conds;
  }

  // The row passes all tests; a test that is NULL for the row rejects it.
  predicate Selects<T, X>(eval: (T, Option<Arg>, X) -> Tri, tests: seq<Test<T>>, x: X) {
    tests == [] ||
    (eval(tests[0].test, tests[0].value, x) == Yes && Selects(eval, tests[1..], x))
  }

  lemma {:induction false} SelectsBoth<T, X>(eval: (T, Option<Arg>, X) -> Tri, a: seq<Test<T>>, b: seq<Test<T>>, x: X)
    ensures Selects(eval, a + b, x) <==> Selects(eval, a, x) && Selects(eval, b, x)
  {
    if a == [] {
      assert a + b == b;
    } else {
      assert (a + b)[1..] == a[1..] + b;
      SelectsBoth(eval, a[1..], b, x);
    }
  }

  lemma SelectsFour<T, X>(eval: (T, Option<Arg>, X) -> Tri, a: seq<Test<T>>, b: seq<Test<T>>, c: seq<Test<T>>,
                          d: seq<Test<T>>, x: X)
    ensures Selects(eval, a + b + c + d, x) <==>
              Selects(eval, a, x) && Selects(eval, b, x) && Selects(eval, c, x) && Selects(eval, d, x)
  {
    SelectsBoth(eval, a, b, x);
    SelectsBoth(eval, a + b, c, x);
    SelectsBoth(eval, a + b + c, d, x);
  }

  lemma SelectsOne<T, X>(eval: (T, Option<Arg>, X) -> Tri, test: Test<T>, x: X)
    ensures Selects(eval, [test], x) <==> eval(test.test, test.value, x) == Yes
  {
    assert [test][1..] == [];
  }

  // A condition that is only there when its filter is set.
  function Optional<T>(test: T, value: Option<Arg>): seq<Test<T>> {
    if value.Some? then [Test(test, value)] else []
  }

  lemma SelectsOptional<T, X>(eval: (T, Option<Arg>, X) -> Tri, test: T, value: Option<Arg>, x: X)
    ensures Selects(eval, Optional(test, value), x) <==> (value.Some? ==> eval(test, value, x) == Yes)
  {
    if value.Some? {
      assert Optional(test, value)[1..] == [];
    }
  }

  // The step every optional filter takes: append the condition with the next
  // placeholder number, append its argument, advance the number.
  method AppendOptional<T>(conditions: seq<Cond<T>>, args: seq<Arg>, argPos: nat, test: T, value: Option<Arg>)
    returns (conditions': seq<Cond<T>>, args': seq<Arg>, argPos': nat)
    requires Numbered(conditions, args) && argPos == |args| + 1
    ensures Numbered(conditions', args') && argPos' == |args'| + 1
    ensures Bound(conditions', args') == Bound(conditions, args) + Optional(test, value)
  {
    conditions', args', argPos' := conditions, args, argPos;
    if value.Some? {
      AddWithArg(conditions, args, test, value.value);
      conditions' := conditions + [Cond(test, argPos)];
      args' := args + [value.value];
      argPos' := argPos + 1;
    }
  }
}

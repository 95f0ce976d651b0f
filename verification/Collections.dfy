// Sums and counts over finite sets, as GROUP BY, SUM and COUNT need them.
module Collections {
  ghost predicate NoDuplicates<X>(xs: seq<X>) {
    forall i, j :: 0 <= i < j < |xs| ==> xs[i] != xs[j]
  }

  ghost function Pick<X>(s: set<X>): (x: X)
    requires s != {}
    ensures x in s
  {
    var x :| x in s;
    x
  }

  // SUM of f over the elements of s.
  ghost function SumSet<X>(s: set<X>, f: X -> real): real {
    if s == {} then 0.0 else var x := Pick(s); f(x) + SumSet(s - {x}, f)
  }

  ghost function SumSeq<X>(xs: seq<X>, f: X -> real): real {
    if xs == [] then 0.0 else f(xs[0]) + SumSeq(xs[1..], f)
  }

  ghost function SumReals(xs: seq<real>): real {
    if xs == [] then 0.0 else xs[0] + SumReals(xs[1..])
  }

  ghost function SumInts(xs: seq<int>): int {
    if xs == [] then 0 else xs[0] + SumInts(xs[1..])
  }

  // The order in which SumSet picks elements does not matter.
  lemma {:induction false} SumSetExtract<X>(s: set<X>, f: X -> real, x: X)
    requires x in s
    ensures SumSet(s, f) == f(x) + SumSet(s - {x}, f)
    decreases |s|
  {
    var y := Pick(s);
    if y != x {
      SumSetExtract(s - {y}, f, x);
      SumSetExtract(s - {x}, f, y);
      assert s - {y} - {x} == s - {x} - {y};
    }
  }

  lemma {:induction false} SumSetUnion<X>(a: set<X>, b: set<X>, f: X -> real)
    requires a !! b
    ensures SumSet(a + b, f) == SumSet(a, f) + SumSet(b, f)
    decreases |a|
  {
    if a == {} {
      assert a + b == b;
    } else {
      var x := Pick(a);
      SumSetExtract(a + b, f, x);
      assert a + b - {x} == (a - {x}) + b;
      SumSetUnion(a - {x}, b, f);
    }
  }

  // Only the values on the set matter.
  lemma {:induction false} SumSetSame<X>(s: set<X>, f: X -> real, g: X -> real)
    requires forall x :: x in s ==> f(x) == g(x)
    ensures SumSet(s, f) == SumSet(s, g)
    decreases |s|
  {
    if s != {} {
      SumSetSame(s - {Pick(s)}, f, g);
    }
  }

  // Summing along any duplicate-free enumeration of a set gives SumSet.
  lemma {:induction false} SumSeqIsSumSet<X>(xs: seq<X>, s: set<X>, f: X -> real)
    requires NoDuplicates(xs)
    requires forall x :: x in xs <==> x in s
    ensures SumSeq(xs, f) == SumSet(s, f)
  {
    if xs == [] {
      assert s == {};
    } else {
      assert xs[0] in s;
      SumSetExtract(s, f, xs[0]);
      forall x ensures x in xs[1..] <==> x in s - {xs[0]} {
        if x in s - {xs[0]} {
          var i :| 0 <= i < |xs| && xs[i] == x;
          assert xs[1..][i - 1] == x;
        }
      }
      SumSeqIsSumSet(xs[1..], s - {xs[0]}, f);
    }
  }

  lemma {:induction false} SizeOfEnumeration<X>(xs: seq<X>, s: set<X>)
    requires NoDuplicates(xs)
    requires forall x :: x in xs <==> x in s
    ensures |xs| == |s|
  {
    if xs == [] {
      assert s == {};
    } else {
      assert xs[0] in s;
      forall x ensures x in xs[1..] <==> x in s - {xs[0]} {
        if x in s - {xs[0]} {
          var i :| 0 <= i < |xs| && xs[i] == x;
          assert xs[1..][i - 1] == x;
        }
      }
      SizeOfEnumeration(xs[1..], s - {xs[0]});
    }
  }

  // The members of s that fall into group k.
  ghost function Group<X, G>(s: set<X>, g: X -> G, k: G): set<X> {
    set x | x in s && g(x) == k
  }

  // GROUP BY conserves sums: the group totals add up to the total.
  lemma {:induction false} SumByGroup<X, G>(s: set<X>, f: X -> real, g: X -> G, keys: seq<G>, totals: seq<real>)
    requires NoDuplicates(keys) && |totals| == |keys|
    requires forall x :: x in s ==> g(x) in keys
    requires forall i :: 0 <= i < |keys| ==> totals[i] == SumSet(Group(s, g, keys[i]), f)
    ensures SumReals(totals) == SumSet(s, f)
    decreases |keys|
  {
    if keys == [] {
      assert s == {};
    } else {
      var first := Group(s, g, keys[0]);
      var rest := s - first;
      assert s == first + rest;
      SumSetUnion(first, rest, f);
      forall i | 0 <= i < |keys[1..]|
        ensures totals[1..][i] == SumSet(Group(rest, g, keys[1..][i]), f)
      {
        assert Group(rest, g, keys[i + 1]) == Group(s, g, keys[i + 1]);
      }
      SumByGroup(rest, f, g, keys[1..], totals[1..]);
    }
  }

  // GROUP BY conserves counts.
  lemma {:induction false} CountByGroup<X, G>(s: set<X>, g: X -> G, keys: seq<G>, counts: seq<int>)
    requires NoDuplicates(keys) && |counts| == |keys|
    requires forall x :: x in s ==> g(x) in keys
    requires forall i :: 0 <= i < |keys| ==> counts[i] == |Group(s, g, keys[i])|
    ensures SumInts(counts) == |s|
    decreases |keys|
  {
    if keys == [] {
      assert s == {};
    } else {
      var first := Group(s, g, keys[0]);
      var rest := s - first;
      assert s == first + rest;
      forall i | 0 <= i < |keys[1..]|
        ensures counts[1..][i] == |Group(rest, g, keys[1..][i])|
      {
        assert Group(rest, g, keys[i + 1]) == Group(s, g, keys[i + 1]);
      }
      CountByGroup(rest, g, keys[1..], counts[1..]);
    }
  }

  // An injective image has as many elements as its source.
  lemma {:induction false} SizeOfImage<X, Y>(s: set<X>, h: X -> Y, t: set<Y>)
    requires forall x :: x in s ==> h(x) in t
    requires forall y :: y in t ==> exists x :: x in s && h(x) == y
    requires forall x, y :: x in s && y in s && h(x) == h(y) ==> x == y
    ensures |s| == |t|
    decreases |s|
  {
    if s == {} {
      assert t == {};
    } else {
      var x := Pick(s);
      SizeOfImage(s - {x}, h, t - {h(x)});
    }
  }
}

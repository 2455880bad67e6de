/** A filtering map over a sequence: the shape of every classifier in the capture jobs. */
module Sequences {
  import opened Wrappers

  function Optional<B>(o: Option<B>): seq<B> {
    if o.Some? then [o.value] else []
  }

  /** The results of f on the rows it accepts, in order. */
  function Collect<A, B>(rows: seq<A>, f: A -> Option<B>): seq<B> {
    if rows == [] then []
    else Collect(rows[..|rows| - 1], f) + Optional(f(rows[|rows| - 1]))
  }

  lemma CollectNext<A, B>(rows: seq<A>, i: nat, f: A -> Option<B>)
    requires i < |rows|
    ensures Collect(rows[..i + 1], f) == Collect(rows[..i], f) + Optional(f(rows[i]))
  {
    assert rows[..i + 1][..i] == rows[..i];
  }

  lemma {:induction false} CollectMembers<A(!new), B(!new)>(rows: seq<A>, f: A -> Option<B>)
    ensures forall b :: b in Collect(rows, f) <==> exists a :: a in rows && f(a) == Some(b)
  {
    if rows != [] {
      var before, last := rows[..|rows| - 1], rows[|rows| - 1];
      assert rows == before + [last];
      CollectMembers(before, f);
      forall b
        ensures b in Collect(rows, f) <==> exists a :: a in rows && f(a) == Some(b)
      {
        if f(last) == Some(b) {
          assert last in rows;
        }
      }
    }
  }

  /** Collecting twice is collecting once by the two functions in turn. */
  lemma {:induction false} CollectTwice<A, B, C>(rows: seq<A>, f: A -> Option<B>, g: B -> Option<C>, h: A -> Option<C>)
    requires forall a :: a in rows ==> h(a) == (if f(a).None? then None else g(f(a).value))
    ensures Collect(Collect(rows, f), g) == Collect(rows, h)
  {
    if rows != [] {
      var before, last := rows[..|rows| - 1], rows[|rows| - 1];
      assert rows == before + [last];
      CollectTwice(before, f, g, h);
      var once := Collect(rows, f);
      if f(last).Some? {
        assert once[..|once| - 1] == Collect(before, f);
      } else {
        assert once == Collect(before, f);
        assert Collect(rows, h) == Collect(before, h);
      }
    }
  }

  lemma {:induction false} PrefixCollected<A, B>(xs: seq<A>, i: nat, f: A -> Option<B>)
    requires i <= |xs|
    ensures Collect(xs[..i], f) <= Collect(xs, f)
    decreases |xs| - i
  {
    if i == |xs| {
      assert xs[..i] == xs;
    } else {
      CollectNext(xs, i, f);
      PrefixCollected(xs, i + 1, f);
    }
  }

  function Count<A>(rows: seq<A>, p: A -> bool): (n: nat)
    ensures n <= |rows|
  {
    if rows == [] then 0
    else Count(rows[..|rows| - 1], p) + if p(rows[|rows| - 1]) then 1 else 0
  }

  lemma {:induction false} CountSame<A, B>(a: seq<A>, p: A -> bool, b: seq<B>, q: B -> bool)
    requires |a| == |b| && forall i :: 0 <= i < |a| ==> p(a[i]) == q(b[i])
    ensures Count(a, p) == Count(b, q)
  {
    if a != [] {
      CountSame(a[..|a| - 1], p, b[..|b| - 1], q);
    }
  }

  lemma {:induction false} CountZero<A(!new)>(rows: seq<A>, p: A -> bool)
    ensures Count(rows, p) == 0 <==> forall a :: a in rows ==> !p(a)
  {
    if rows != [] {
      var before, last := rows[..|rows| - 1], rows[|rows| - 1];
      assert rows == before + [last];
      CountZero(before, p);
      assert last in rows;
    }
  }

  lemma CountNext<A>(rows: seq<A>, i: nat, p: A -> bool)
    requires i < |rows|
    ensures Count(rows[..i + 1], p) == Count(rows[..i], p) + if p(rows[i]) then 1 else 0
  {
    assert rows[..i + 1][..i] == rows[..i];
  }
}

/** Sequences as multisets. */
module Sequences {
  lemma FirstTakenOut<T>(a: seq<T>)
    requires a != []
    ensures multiset(a) == multiset{a[0]} + multiset(a[1..])
  {
    assert a == [a[0]] + a[1..];
  }

  lemma LastTakenOut<T>(a: seq<T>)
    requires a != []
    ensures multiset(a) == multiset(a[..|a| - 1]) + multiset{a[|a| - 1]}
  {
    assert a == a[..|a| - 1] + [a[|a| - 1]];
  }

  /** What remains after the first element of one is taken out of both. */
  lemma TakeOut<T>(a: seq<T>, b: seq<T>) returns (u: seq<T>, v: seq<T>)
    requires a != [] && multiset(a) == multiset(b)
    ensures b == u + [a[0]] + v && multiset(a[1..]) == multiset(u + v)
  {
    FirstTakenOut(a);
    assert a[0] in multiset(b);
    var i :| 0 <= i < |b| && b[i] == a[0];
    u, v := b[..i], b[i + 1..];
    assert b == u + [a[0]] + v;
    SameRest(a[0], multiset(a[1..]), u, v);
  }

  lemma SameRest<T>(x: T, rest: multiset<T>, u: seq<T>, v: seq<T>)
    requires multiset{x} + rest == multiset(u + [x] + v)
    ensures rest == multiset(u + v)
  {
    assert multiset(u + [x] + v) == multiset{x} + multiset(u + v);
    assert rest == (multiset{x} + rest) - multiset{x};
  }

  /** Equal first elements leave equal rests. */
  lemma RestsAlike<T>(a: seq<T>, b: seq<T>)
    requires a != [] && b != [] && a[0] == b[0] && multiset(a) == multiset(b)
    ensures multiset(a[1..]) == multiset(b[1..])
  {
    FirstTakenOut(a);
    FirstTakenOut(b);
    assert multiset(a[1..]) == multiset(a) - multiset{a[0]};
    assert multiset(b[1..]) == multiset(b) - multiset{b[0]};
  }

  lemma SameMembers<T>(a: seq<T>, b: seq<T>)
    requires multiset(a) == multiset(b)
    ensures |a| == |b| && forall r :: r in a <==> r in b
  {
    assert |multiset(a)| == |a| && |multiset(b)| == |b|;
    assert forall r :: r in a <==> r in multiset(a);
    assert forall r :: r in b <==> r in multiset(b);
  }
}

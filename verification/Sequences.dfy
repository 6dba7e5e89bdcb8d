/** Small things the other modules share. */
module Sequences {

  datatype Option<T> = None | Some(value: T)

  predicate NoDup<T(==)>(q: seq<T>) {
    forall i, j | 0 <= i < j < |q| :: q[i] != q[j]
  }

  /** The sequence without the first x. */
  function Without<T(==)>(q: seq<T>, x: T): seq<T> {
    if q == [] then [] else if q[0] == x then q[1..] else [q[0]] + Without(q[1..], x)
  }

  lemma {:induction false} WithoutMembers<T>(q: seq<T>, x: T, y: T)
    requires NoDup(q)
    ensures y in Without(q, x) <==> y in q && y != x
  {
    if q != [] {
      assert q == [q[0]] + q[1..];
      if q[0] != x { WithoutMembers(q[1..], x, y); }
    }
  }

  lemma {:induction false} WithoutNoDup<T>(q: seq<T>, x: T)
    requires NoDup(q)
    ensures NoDup(Without(q, x))
  {
    if q != [] && q[0] != x {
      WithoutNoDup(q[1..], x);
      WithoutMembers(q[1..], x, q[0]);
      assert q[0] !in q[1..];
    }
  }

  /** Before the first element that compares bigger. */
  function Insert<T>(q: seq<T>, x: T, compare: (T, T) -> int): seq<T> {
    if q == [] || compare(x, q[0]) < 0 then [x] + q else [q[0]] + Insert(q[1..], x, compare)
  }

  lemma {:induction false} InsertedMembers<T>(q: seq<T>, x: T, compare: (T, T) -> int, y: T)
    ensures y in Insert(q, x, compare) <==> y == x || y in q
  {
    if q != [] && compare(x, q[0]) >= 0 {
      InsertedMembers(q[1..], x, compare, y);
      assert q == [q[0]] + q[1..];
    }
  }
}

/** What the other modules share: optional values, results that can fail, and small facts about numbers. */
module Common {

  datatype Option<T> = None | Some(value: T)

  datatype Result<T, E> = Success(value: T) | Failure(error: E)

  function Min(a: int, b: int): (m: int)
    ensures m <= a && m <= b && (m == a || m == b)
  {
    if a < b then a else b
  }

  function Max(a: int, b: int): (m: int)
    ensures a <= m && b <= m && (m == a || m == b)
  {
    if a < b then b else a
  }

  /** The ceiling of a virtual epoch grows with the epoch. */
  lemma CeilingGrows(max: nat, v: nat, w: nat)
    requires v <= w
    ensures max * (v + 1) <= max * (w + 1)
  {}

  /** Picking an element of a set of numbers, as a loop over a map's keys does. */
  lemma SomeElement(s: set<int>)
    ensures s == {} || exists x :: x in s
  {
    if forall x :: x !in s {
      assert s == {};
    }
  }
}

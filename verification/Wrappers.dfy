/** What the models share. */
module Wrappers {
  datatype Option<+T> = None | Some(value: T)

  datatype Result<+T, +E> = Success(value: T) | Failure(error: E)

  /** What a server makes of a command: carried out and answered, not carried out, carried out with the answer lost. */
  datatype Reply = Answered | Refused | Lost
}

/** Facts about finite sets of numbers. */
module IntSets {
  lemma NonEmpty(s: set<int>)
    requires s != {}
    ensures exists x: int :: x in s
  {
    assert (forall x :: x !in s) ==> s == {};
  }

  /** A number outside the set. */
  lemma Unused(used: set<int>) returns (n: int)
    ensures n !in used
  {
    var rest := used;
    n := 0;
    while rest != {}
      invariant rest <= used
      invariant forall x :: x in used && x !in rest ==> x < n
    {
      NonEmpty(rest);
      var x: int :| x in rest;
      n := if x < n then n else x + 1;
      rest := rest - {x};
    }
  }
}

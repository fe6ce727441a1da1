/** Finite sets have a first member, for any total order. */
module Orders {

  ghost predicate TotalOn<T(!new)>(s: set<T>, before: (T, T) -> bool) {
    && (forall x, y :: x in s && y in s ==> before(x, y) || before(y, x))
    && (forall x, y, z :: x in s && y in s && z in s && before(x, y) && before(y, z) ==> before(x, z))
  }

  ghost predicate IsLeast<T(!new)>(s: set<T>, before: (T, T) -> bool, x: T) {
    x in s && forall y :: y in s ==> before(x, y)
  }

  lemma {:induction false} LeastExists<T(!new)>(s: set<T>, before: (T, T) -> bool) returns (least: T)
    requires s != {} && TotalOn(s, before)
    ensures IsLeast(s, before, least)
    decreases |s|
  {
    least :| least in s;
    if s != {least} {
      var x := LeastExists(s - {least}, before);
      least := if before(x, least) then x else least;
    }
  }
}

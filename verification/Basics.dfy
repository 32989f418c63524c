/** Two helpers without a home of their own. */
module Basics {
  function Min(a: int, b: int): int { if a < b then a else b }

  /** Picks a member of a non-empty set. */
  lemma SomeMember<T>(s: set<T>) returns (x: T)
    requires s != {}
    ensures x in s
  {
    x :| x in s;
  }
}

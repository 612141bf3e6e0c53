/**
 * The proteoform matcher's own logic: the tolerance test on two
 * modification-site coordinates, and `match`, whose database query is
 * disabled so that it maps every input to nothing.
 */
module MatcherProteoforms {
  import opened Wrappers
  import opened PapModel

  /** The sentinel the reference data uses for an unknown coordinate. */
  const UnsetCoordinate: int := -1

  /** A coordinate is unset when it is null or holds the sentinel. */
  predicate IsUnset(c: Option<int>) {
    c.None? || c.value == UnsetCoordinate
  }

  function Abs(x: int): nat {
    if x < 0 then -x else x
  }

  /** The sentinel rebound to null; any other coordinate kept. */
  function ClearSentinel(c: Option<int>): (r: Option<int>)
    ensures r.None? <==> IsUnset(c)
    ensures r.Some? ==> r == c
  {
    if c.Some? && c.value == UnsetCoordinate then None else c
  }

  /**
   * `matches(Long iC, Long rC)`: an unset coordinate on either side matches
   * anything; two set coordinates match when they are equal or lie at most
   * `margin` apart.
   */
  function Matches(iC: Option<int>, rC: Option<int>, margin: int): (ok: bool)
    ensures IsUnset(iC) || IsUnset(rC) ==> ok
    ensures !IsUnset(iC) && !IsUnset(rC) && margin >= 0 ==>
              (ok <==> Abs(iC.value - rC.value) <= margin)
  {
    var i := ClearSentinel(iC);
    var r := ClearSentinel(rC);
    if i.Some? && r.Some? && i.value != r.value && Abs(i.value - r.value) > margin then false
    else true
  }

  /** The sentinel behaves exactly like null, on either side. */
  lemma SentinelIsWildcard(c: Option<int>, margin: int)
    ensures Matches(Some(UnsetCoordinate), c, margin) && Matches(c, Some(UnsetCoordinate), margin)
    ensures Matches(None, c, margin) && Matches(c, None, margin)
  {
  }

  /** With both sites set and a non-negative margin, the test fails exactly beyond the margin. */
  lemma MismatchBeyondMargin(a: int, b: int, margin: int)
    requires margin >= 0 && a != UnsetCoordinate && b != UnsetCoordinate
    ensures !Matches(Some(a), Some(b), margin) <==> Abs(a - b) > margin
  {
  }

  /** The margin itself is still a match; one more is not. */
  lemma MarginIsInclusive(a: int, margin: int)
    requires margin >= 0
    requires a != UnsetCoordinate && a + margin != UnsetCoordinate && a + margin + 1 != UnsetCoordinate
    ensures Matches(Some(a), Some(a + margin), margin)
    ensures !Matches(Some(a), Some(a + margin + 1), margin)
  {
  }

  /** Which side is the input and which the reference does not matter. */
  lemma MatchesSymmetric(a: Option<int>, b: Option<int>, margin: int)
    ensures Matches(a, b, margin) == Matches(b, a, margin)
  {
  }

  /** A coordinate always matches itself. */
  lemma MatchesReflexive(c: Option<int>, margin: int)
    ensures Matches(c, c, margin)
  {
  }

  /** Tolerance is not transitive: it is not an equivalence relation. */
  lemma MatchesNotTransitive()
    ensures Matches(Some(10), Some(15), 5) && Matches(Some(15), Some(20), 5)
    ensures !Matches(Some(10), Some(20), 5)
  {
  }

  /**
   * `match(entities)`: the loop over the input proteoforms has its whole
   * body disabled, so the mapping it returns is always empty.
   */
  method Match(entities: set<Proteoform>) returns (mapping: map<Proteoform, set<string>>)
    ensures mapping == map[]
  {
    mapping := map[];
    var rest := entities;
    while rest != {}
      decreases |rest|
    {
      var iP :| iP in rest;
      rest := rest - {iP};
    }
  }
}

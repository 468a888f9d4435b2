/** When something holds along a run in which some steps give it and others take it
    away. */
module History {
  /** A property that some steps give and others take away, state by state. */
  ghost predicate Follows(has: seq<bool>, gives: seq<bool>, takes: seq<bool>) {
    && |has| == |gives| + 1 == |takes| + 1
    && forall n | 0 <= n < |gives| :: has[n + 1] <==> gives[n] || (has[n] && !takes[n])
  }

  ghost predicate NotTaken(takes: seq<bool>, i: nat, j: nat)
    requires j <= |takes|
  {
    forall n | i <= n < j :: !takes[n]
  }

  ghost predicate GivenIn(gives: seq<bool>, takes: seq<bool>, i: nat, j: nat)
    requires j <= |gives| == |takes|
  {
    exists m | i <= m < j :: gives[m] && NotTaken(takes, m + 1, j)
  }

  /** It holds at j exactly when it held at i and was not taken since, or was given
      since and not taken after that. */
  lemma {:induction false} HoldsIff(has: seq<bool>, gives: seq<bool>, takes: seq<bool>, i: nat, j: nat)
    requires Follows(has, gives, takes) && i <= j < |has|
    ensures has[j] <==> (has[i] && NotTaken(takes, i, j)) || GivenIn(gives, takes, i, j)
    decreases j
  {
    if i < j {
      HoldsIff(has, gives, takes, i, j - 1);
      assert has[j] <==> gives[j - 1] || (has[j - 1] && !takes[j - 1]);
      if gives[j - 1] {
        assert NotTaken(takes, j, j);
      } else if !takes[j - 1] && GivenIn(gives, takes, i, j - 1) {
        var m :| i <= m < j - 1 && gives[m] && NotTaken(takes, m + 1, j - 1);
        assert NotTaken(takes, m + 1, j);
      }
      if GivenIn(gives, takes, i, j) && !gives[j - 1] {
        var m :| i <= m < j && gives[m] && NotTaken(takes, m + 1, j);
        assert NotTaken(takes, m + 1, j - 1);
      }
    }
  }
}

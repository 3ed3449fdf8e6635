/** Which pages the placement uses, and how often, by the number of pages
    modulo 4.  A page is used once for each step and slot role that reads
    it; the plan puts each such use in the slot `Landing.IterationLanding`
    names, and holds nothing else. */
module Coverage {
  import opened Signature

  /** Step `k` runs and reads page `p` for slot role `role`. */
  ghost predicate Places(n: nat, p: int, k: nat, role: Role)
  {
    k < Iterations(n) && Source(n, k, role) == p
  }

  /** The step and role that would read page `p` from the start of the list:
      `i = 2k` goes front right, `i + 1` back left. */
  function LowStep(p: nat): (nat, Role)
  {
    (p / 2, if p % 2 == 0 then FrontRight else BackLeft)
  }

  /** The step and role that would read page `p` from the end of the list:
      `j = n - 1 - 2k` goes front left, `j - 1` back right. */
  function HighStep(n: nat, p: nat): (nat, Role)
    requires p < n
  {
    var d := n - 1 - p;
    (d / 2, if d % 2 == 0 then FrontLeft else BackRight)
  }

  /** With `K` steps, page `p` is read from the start of the list when
      `p < 2K` and from the end when `p >= n - 2K`, and by nothing else. */
  lemma {:induction false} PlacementsOf(n: nat, p: nat, k: nat, role: Role)
    requires p < n
    ensures Places(n, p, k, role) <==>
              || (p < 2 * Iterations(n) && (k, role) == LowStep(p))
              || (n - 2 * Iterations(n) <= p && (k, role) == HighStep(n, p))
  {
    match role
    case FrontLeft =>
    case FrontRight =>
    case BackRight =>
      if Source(n, k, role) == p {
        assert n - 1 - p == 2 * k + 1;
      }
    case BackLeft =>
  }

  /** Page `p` is used exactly once. */
  ghost predicate PlacedOnce(n: nat, p: nat)
  {
    exists k: nat, role :: Places(n, p, k, role) &&
      forall k': nat, role' :: Places(n, p, k', role') ==> k' == k && role' == role
  }

  /** Page `p` is used exactly twice, by step `k` in two different roles. */
  ghost predicate PlacedTwice(n: nat, p: nat, k: nat, r1: Role, r2: Role)
  {
    && r1 != r2 && Places(n, p, k, r1) && Places(n, p, k, r2)
    && forall k': nat, role' :: Places(n, p, k', role') ==> k' == k && (role' == r1 || role' == r2)
  }

  /** A page read from one end of the list only is used once. */
  lemma OnceFromOneEnd(n: nat, p: nat)
    requires p < n
    requires (p < 2 * Iterations(n)) != (n - 2 * Iterations(n) <= p)
    ensures PlacedOnce(n, p)
  {
    var w := if p < 2 * Iterations(n) then LowStep(p) else HighStep(n, p);
    PlacementsOf(n, p, w.0, w.1);
    forall k': nat, role' | Places(n, p, k', role')
      ensures k' == w.0 && role' == w.1
    {
      PlacementsOf(n, p, k', role');
    }
  }

  /** With a multiple of 4 pages every page is used exactly once. */
  lemma EveryPageOnce(n: nat, p: nat)
    requires n % 4 == 0 && p < n
    ensures PlacedOnce(n, p)
  {
    OnceFromOneEnd(n, p);
  }

  /** With 4m + 1 pages the middle page `n / 2` is never used and every
      other page is used once. */
  lemma MiddlePageDropped(n: nat, p: nat)
    requires n % 4 == 1 && p < n
    ensures (forall k: nat, role :: !Places(n, p, k, role)) <==> p == n / 2
    ensures p != n / 2 ==> PlacedOnce(n, p)
  {
    if p == n / 2 {
      forall k: nat, role
        ensures !Places(n, p, k, role)
      {
        PlacementsOf(n, p, k, role);
      }
    } else {
      OnceFromOneEnd(n, p);
    }
  }

  /** With 4m + 2 pages the last step reads the middle pair twice: page
      `n / 2 - 1` front right and back right, page `n / 2` back left and
      front left; every other page is used once. */
  lemma MiddlePairTwice(n: nat, p: nat)
    requires n % 4 == 2 && p < n
    ensures p == n / 2 - 1 ==> PlacedTwice(n, p, Iterations(n) - 1, FrontRight, BackRight)
    ensures p == n / 2 ==> PlacedTwice(n, p, Iterations(n) - 1, BackLeft, FrontLeft)
    ensures p != n / 2 - 1 && p != n / 2 ==> PlacedOnce(n, p)
  {
    if p == n / 2 - 1 || p == n / 2 {
      Twice(n, p);
    } else {
      OnceFromOneEnd(n, p);
    }
  }

  /** With 4m + 3 pages the last step reads the middle page `(n - 1) / 2`
      twice, on the back of the sheet; every other page is used once. */
  lemma MiddlePageTwiceOnBack(n: nat, p: nat)
    requires n % 4 == 3 && p < n
    ensures p == (n - 1) / 2 ==> PlacedTwice(n, p, Iterations(n) - 1, BackLeft, BackRight)
    ensures p != (n - 1) / 2 ==> PlacedOnce(n, p)
  {
    if p == (n - 1) / 2 {
      Twice(n, p);
    } else {
      OnceFromOneEnd(n, p);
    }
  }

  /** A page read from both ends is used twice, by its two end steps. */
  lemma Twice(n: nat, p: nat)
    requires p < n && p < 2 * Iterations(n) && n - 2 * Iterations(n) <= p
    requires LowStep(p).0 == HighStep(n, p).0
    ensures PlacedTwice(n, p, LowStep(p).0, LowStep(p).1, HighStep(n, p).1)
  {
    PlacementsOf(n, p, LowStep(p).0, LowStep(p).1);
    PlacementsOf(n, p, HighStep(n, p).0, HighStep(n, p).1);
    forall k': nat, role' | Places(n, p, k', role')
      ensures k' == LowStep(p).0 && (role' == LowStep(p).1 || role' == HighStep(n, p).1)
    {
      PlacementsOf(n, p, k', role');
    }
  }
}

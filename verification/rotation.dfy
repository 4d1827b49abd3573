/** The order in which a round-robin cursor visits the positions 0 .. n-1 of a
    backend list, and how often each position is visited. */
module Rotation {

  /** The positions returned by the first k selections over n backends when
      the cursor starts at 0 and advances by one, wrapping at n. */
  function Schedule(n: nat, k: nat): (s: seq<nat>)
    requires n > 0
    ensures |s| == k
  {
    if k == 0 then [] else Schedule(n, k - 1) + [(k - 1) % n]
  }

  /** Perfect rotation: selection j (0-based) lands on position j % n. */
  lemma {:induction false} ScheduleAt(n: nat, k: nat, j: nat)
    requires n > 0 && j < k
    ensures Schedule(n, k)[j] == j % n
  {
    if j < k - 1 {
      ScheduleAt(n, k - 1, j);
    }
  }

  /** A positive multiple of a positive number is at least that number. */
  lemma MulAtLeast(d: int, n: int)
    requires d >= 1 && n > 0
    ensures d * n >= n
  {
  }

  /** Euclidean division is determined by its quotient and remainder. */
  lemma DivModUnique(a: int, n: int, q: int, r: int)
    requires n > 0 && 0 <= r < n && a == q * n + r
    ensures a / n == q && a % n == r
  {
    var q', r' := a / n, a % n;
    assert a == q' * n + r' && 0 <= r' < n;
    if q' < q {
      assert (q - q') * n == r' - r;
      MulAtLeast(q - q', n);
    } else if q' > q {
      assert (q' - q) * n == r - r';
      MulAtLeast(q' - q, n);
    }
  }

  /** One more step of the cursor: the remainder grows by one, or wraps to 0
      while the quotient grows by one. */
  lemma StepDivMod(k: nat, n: nat)
    requires n > 0
    ensures k % n + 1 < n ==> (k + 1) / n == k / n && (k + 1) % n == k % n + 1
    ensures k % n + 1 == n ==> (k + 1) / n == k / n + 1 && (k + 1) % n == 0
  {
    var q, r := k / n, k % n;
    assert k == q * n + r;
    if r + 1 < n {
      DivModUnique(k + 1, n, q, r + 1);
    } else {
      assert k + 1 == (q + 1) * n + 0;
      DivModUnique(k + 1, n, q + 1, 0);
    }
  }

  /** Advancing a wrapped cursor equals wrapping the advanced count. */
  lemma StepCursor(k: nat, n: nat)
    requires n > 0
    ensures (k % n + 1) % n == (k + 1) % n
  {
    StepDivMod(k, n);
  }

  /** How the visit count of position i changes when the k-th selection
      (0-based), which lands on k % n, is made. */
  lemma CountStep(n: nat, k: nat, i: nat)
    requires 0 <= i < n
    ensures (k + 1) / n + (if i < (k + 1) % n then 1 else 0)
         == k / n + (if i < k % n then 1 else 0) + (if i == k % n then 1 else 0)
  {
    StepDivMod(k, n);
  }

  /** The first k selections visit position i either floor(k/n) or
      ceil(k/n) times: exactly one extra visit for each of the first k % n
      positions. */
  lemma {:induction false} ScheduleCount(n: nat, k: nat, i: nat)
    requires 0 <= i < n
    ensures multiset(Schedule(n, k))[i] == k / n + (if i < k % n then 1 else 0)
    ensures k / n <= multiset(Schedule(n, k))[i] <= k / n + 1
  {
    if k > 0 {
      var k': nat := k - 1;
      ScheduleCount(n, k', i);
      ScheduleStepCount(n, k', i);
      CountStep(n, k', i);
      assert k' + 1 == k;
    }
  }

  /** The k-th selection adds one visit, to position k % n. */
  lemma ScheduleStepCount(n: nat, k: nat, i: nat)
    requires 0 <= i < n
    ensures multiset(Schedule(n, k + 1))[i] == multiset(Schedule(n, k))[i] + (if i == k % n then 1 else 0)
  {
    var last: nat := k % n;
    assert Schedule(n, k + 1) == Schedule(n, k) + [last];
  }

  /** n*m selections from a fresh cursor visit every position exactly m times. */
  lemma FairFromStart(n: nat, m: nat, i: nat)
    requires 0 <= i < n
    ensures multiset(Schedule(n, n * m))[i] == m
  {
    var k: nat := n * m;
    FairWindow(n, 0, k, m, i);
    assert Schedule(n, k)[0..] == Schedule(n, k);
  }

  /** Later selections extend earlier ones: the schedule is one growing list. */
  lemma SchedulePrefix(n: nat, a: nat, b: nat)
    requires n > 0 && b <= a
    ensures Schedule(n, a)[..b] == Schedule(n, b)
  {
    forall j | 0 <= j < b
      ensures Schedule(n, a)[j] == Schedule(n, b)[j]
    {
      ScheduleAt(n, a, j);
      ScheduleAt(n, b, j);
    }
  }

  /** Adding whole rounds to a count leaves its remainder alone. */
  lemma AddRounds(n: nat, s: nat, m: nat)
    requires n > 0
    ensures (s + n * m) / n == s / n + m && (s + n * m) % n == s % n
  {
    var q, r := s / n, s % n;
    assert s == q * n + r;
    assert s + n * m == (q + m) * n + r;
    DivModUnique(s + n * m, n, q + m, r);
  }

  /** The visits of the first k selections are those of the first s plus
      those of selections s .. k-1. */
  lemma WindowCount(n: nat, s: nat, k: nat, i: nat)
    requires n > 0 && s <= k
    ensures multiset(Schedule(n, k))[i] == multiset(Schedule(n, s))[i] + multiset(Schedule(n, k)[s..])[i]
  {
    SchedulePrefix(n, k, s);
    SuffixCount(Schedule(n, k), s, i);
  }

  /** Occurrences in a sequence are those in a prefix plus those in the rest. */
  lemma SuffixCount(a: seq<nat>, s: nat, i: nat)
    requires s <= |a|
    ensures multiset(a)[i] == multiset(a[..s])[i] + multiset(a[s..])[i]
  {
    assert a == a[..s] + a[s..];
  }

  /** m more whole rounds add exactly m visits to every position. */
  lemma RoundsCount(n: nat, s: nat, m: nat, k: nat, i: nat)
    requires 0 <= i < n && k == s + n * m
    ensures multiset(Schedule(n, k))[i] == multiset(Schedule(n, s))[i] + m
  {
    ScheduleCount(n, s, i);
    ScheduleCount(n, k, i);
    AddRounds(n, s, m);
  }

  /** Any n*m consecutive selections s .. k-1, wherever they start, visit
      every position exactly m times. */
  lemma FairWindow(n: nat, s: nat, k: nat, m: nat, i: nat)
    requires 0 <= i < n && s <= k && k - s == n * m
    ensures multiset(Schedule(n, k)[s..])[i] == m
  {
    WindowCount(n, s, k, i);
    RoundsCount(n, s, m, k, i);
  }
}

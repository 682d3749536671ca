/**
 Most-recent-first logs with a length bound, in the two styles the page uses:
 push at the head and cut the list back to the bound (`unshift` then
 `slice(0, n)`), or push at the head and drop one tail element when the bound
 is exceeded (`unshift` then a single `pop`).
 */
module BoundedLog {

  function Min(a: int, b: int): int {
    if a <= b then a else b
  }

  /** `xs.slice(0, n)`: the first `n` elements, or all of them when there are fewer. */
  function Take<T>(xs: seq<T>, n: nat): (r: seq<T>)
    ensures |r| == Min(|xs|, n)
    ensures r == xs[..|r|]
  {
    if |xs| <= n then xs else xs[..n]
  }

  /** Push at the head, then keep at most `cap` entries. */
  function PushTruncate<T>(log: seq<T>, x: T, cap: nat): (r: seq<T>)
    requires cap >= 1
    ensures |r| == Min(|log| + 1, cap)
    ensures r[0] == x
    ensures r[1..] == log[..|r| - 1]
  {
    var pushed := [x] + log;
    if |pushed| > cap then
      assert pushed[1..] == log;
      pushed[..cap]
    else pushed
  }

  /** Push at the head, then drop a single tail element if the bound is exceeded. */
  function PushPopOnce<T>(log: seq<T>, x: T, bound: nat): (r: seq<T>)
    requires bound >= 1
    ensures |r| == if |log| + 1 > bound then |log| else |log| + 1
    ensures |log| <= bound ==> |r| <= bound
    ensures r[0] == x
    ensures r[1..] == log[..|r| - 1]
  {
    var pushed := [x] + log;
    if |pushed| > bound then
      assert pushed[1..] == log;
      pushed[..|pushed| - 1]
    else pushed
  }

  /** On a log already within its bound the two styles agree. */
  lemma PopOnceAgreesWithTruncate<T>(log: seq<T>, x: T, bound: nat)
    requires bound >= 1 && |log| <= bound
    ensures PushPopOnce(log, x, bound) == PushTruncate(log, x, bound)
  {
    var a := PushPopOnce(log, x, bound);
    var b := PushTruncate(log, x, bound);
    assert a == [a[0]] + a[1..];
    assert b == [b[0]] + b[1..];
  }

  /** A log that is already longer than its bound stays exactly that long
      under the pop style: only truncation brings it back. */
  lemma PopOnceKeepsOverlongLength<T>(log: seq<T>, x: T, bound: nat)
    requires bound >= 1 && |log| > bound
    ensures |PushPopOnce(log, x, bound)| == |log| > |PushTruncate(log, x, bound)|
  {
  }

  function Reverse<T>(xs: seq<T>): (r: seq<T>)
    ensures |r| == |xs|
    ensures forall i :: 0 <= i < |xs| ==> r[i] == xs[|xs| - 1 - i]
  {
    if xs == [] then [] else Reverse(xs[1..]) + [xs[0]]
  }

  /** Recording the entries `xs`, oldest first, one `PushTruncate` at a time. */
  function RecordAll<T>(log: seq<T>, xs: seq<T>, cap: nat): seq<T>
    requires cap >= 1
    decreases |xs|
  {
    if xs == [] then log else RecordAll(PushTruncate(log, xs[0], cap), xs[1..], cap)
  }

  /** Recording the entries `xs`, oldest first, one `PushPopOnce` at a time. */
  function RecordAllPopOnce<T>(log: seq<T>, xs: seq<T>, bound: nat): seq<T>
    requires bound >= 1
    decreases |xs|
  {
    if xs == [] then log else RecordAllPopOnce(PushPopOnce(log, xs[0], bound), xs[1..], bound)
  }

  lemma TakeOfTake<T>(a: seq<T>, b: seq<T>, n: nat)
    ensures Take(a + Take(b, n), n) == Take(a + b, n)
  {
    var l := Take(a + Take(b, n), n);
    var r := Take(a + b, n);
    assert |l| == |r|;
    forall i | 0 <= i < |l|
      ensures l[i] == r[i]
    {
      if i < |a| {
        assert l[i] == a[i] == r[i];
      } else {
        assert l[i] == Take(b, n)[i - |a|] == b[i - |a|] == r[i];
      }
    }
  }

  /** Started within its cap, after any run of records the log holds the newest `cap` entries, newest first. */
  lemma {:induction false} RecordAllKeepsNewest<T>(log: seq<T>, xs: seq<T>, cap: nat)
    requires cap >= 1 && |log| <= cap
    ensures RecordAll(log, xs, cap) == Take(Reverse(xs) + log, cap)
    decreases |xs|
  {
    if xs != [] {
      var pushed := PushTruncate(log, xs[0], cap);
      RecordAllKeepsNewest(pushed, xs[1..], cap);
      assert pushed == Take([xs[0]] + log, cap);
      TakeOfTake(Reverse(xs[1..]), [xs[0]] + log, cap);
      assert Reverse(xs) == Reverse(xs[1..]) + [xs[0]];
      assert Reverse(xs[1..]) + ([xs[0]] + log) == Reverse(xs) + log;
    }
  }

  /** From an empty log, `N` records leave `min(N, cap)` entries, the newest at index 0. */
  lemma RecordAllFromEmpty<T>(xs: seq<T>, cap: nat)
    requires cap >= 1
    ensures |RecordAll([], xs, cap)| == Min(|xs|, cap)
    ensures forall i :: 0 <= i < |RecordAll([], xs, cap)| ==> RecordAll([], xs, cap)[i] == xs[|xs| - 1 - i]
  {
    RecordAllKeepsNewest([], xs, cap);
    assert Reverse(xs) + [] == Reverse(xs);
  }

  /** Started within its bound, the pop style behaves exactly like truncation
      for any run of records, so it never exceeds the bound. */
  lemma {:induction false} PopOnceRunAgreesWithTruncate<T>(log: seq<T>, xs: seq<T>, bound: nat)
    requires bound >= 1 && |log| <= bound
    ensures RecordAllPopOnce(log, xs, bound) == RecordAll(log, xs, bound)
    ensures |RecordAllPopOnce(log, xs, bound)| <= bound
    decreases |xs|
  {
    if xs != [] {
      PopOnceAgreesWithTruncate(log, xs[0], bound);
      PopOnceRunAgreesWithTruncate(PushPopOnce(log, xs[0], bound), xs[1..], bound);
    }
  }
}

/** The fixed-window request counter that the IP limiter uses twice (once over a minute, once over
    five), seen as a function of the times at which requests arrived. A window is opened by a
    request and stays current until a request arrives more than `d` after its opening. */
module FixedWindow {

  ghost predicate Sorted(ts: seq<int>) {
    forall i, j :: 0 <= i <= j < |ts| ==> ts[i] <= ts[j]
  }

  lemma Precedes(ts: seq<int>, p: nat, i: nat)
    requires Sorted(ts) && p < |ts| && i < |ts| && ts[p] < ts[i]
    ensures p < i
  {
  }

  /** Index of the request that opened the window current after the last request. */
  function Start(ts: seq<int>, d: nat): (s: nat)
    requires |ts| > 0
    ensures s < |ts|
    ensures ts[|ts| - 1] - ts[s] <= d
  {
    var n := |ts| - 1;
    if n == 0 then 0
    else
      var s := Start(ts[..n], d);
      if ts[n] - ts[s] > d then n else s
  }

  /** The counter: how many requests the current window has received. */
  function Load(ts: seq<int>, d: nat): (l: nat)
    requires |ts| > 0
    ensures 1 <= l <= |ts|
  {
    |ts| - Start(ts, d)
  }

  /** A window after the first is opened only once the previous one has expired. */
  lemma {:induction false} OpenedAfterExpiry(ts: seq<int>, d: nat)
    requires |ts| > 0 && Start(ts, d) > 0
    ensures ts[Start(ts, d)] - ts[Start(ts[..Start(ts, d)], d)] > d
  {
    var n, s := |ts| - 1, Start(ts, d);
    if s < n {
      assert ts[..n][..s] == ts[..s];
      OpenedAfterExpiry(ts[..n], d);
    }
  }

  /** While requests keep falling in the current window, its opening request stays the same. */
  lemma {:induction false} StartStable(ts: seq<int>, d: nat, k: nat)
    requires |ts| > 0 && Start(ts, d) < k <= |ts|
    ensures Start(ts[..k], d) == Start(ts, d)
  {
    var n := |ts| - 1;
    if k == |ts| {
      assert ts[..k] == ts;
    } else {
      assert ts[..n][..k] == ts[..k];
      StartStable(ts[..n], d, k);
    }
  }

  // ---- How many requests fall in a closed span of time ----

  /** The number of requests made in the closed span [a, a + d]. */
  function Count(ts: seq<int>, a: int, d: nat): (c: nat) {
    if ts == [] then 0
    else Count(ts[..|ts| - 1], a, d) + (if a <= ts[|ts| - 1] <= a + d then 1 else 0)
  }

  /** Any l + 1 consecutive requests take longer than d. */
  ghost predicate Sparse(ts: seq<int>, l: nat, d: nat) {
    forall i, j :: 0 <= i && i + l == j && j < |ts| ==> ts[j] - ts[i] > d
  }

  /** The requests of a closed span are consecutive. */
  lemma {:induction false} CountIsInterval(ts: seq<int>, a: int, d: nat) returns (lo: nat, hi: nat)
    requires Sorted(ts)
    ensures lo <= hi <= |ts| && Count(ts, a, d) == hi - lo
    ensures forall k :: 0 <= k < |ts| ==> (lo <= k < hi <==> a <= ts[k] <= a + d)
  {
    if ts == [] {
      lo, hi := 0, 0;
    } else {
      var n := |ts| - 1;
      lo, hi := CountIsInterval(ts[..n], a, d);
      assert forall k :: 0 <= k < n ==> ts[..n][k] == ts[k];
      if a <= ts[n] <= a + d {
        if lo == hi {
          lo, hi := n, n + 1;
        } else {
          assert a <= ts[hi - 1];
          assert forall k :: hi - 1 <= k < n ==> ts[hi - 1] <= ts[k] <= ts[n];
          hi := n + 1;
        }
      }
    }
  }

  /** No closed span of length d holds more than l requests. */
  ghost predicate AtMost(ts: seq<int>, l: nat, d: nat) {
    forall a :: Count(ts, a, d) <= l
  }

  lemma AtMostIsSparse(ts: seq<int>, l: nat, d: nat)
    requires Sorted(ts)
    ensures AtMost(ts, l, d) <==> Sparse(ts, l, d)
  {
    if Sparse(ts, l, d) {
      forall a ensures Count(ts, a, d) <= l {
        var lo, hi := CountIsInterval(ts, a, d);
        assert lo + l < |ts| ==> ts[lo + l] - ts[lo] > d;
      }
    }
    if AtMost(ts, l, d) {
      forall i, j | 0 <= i && i + l == j && j < |ts| ensures ts[j] - ts[i] > d {
        var lo, hi := CountIsInterval(ts, ts[i], d);
        assert Count(ts, ts[i], d) <= l;
        assert ts[i] <= ts[j];
      }
    }
  }

  // ---- What the counter guarantees ----

  lemma SparseGap(ts: seq<int>, l: nat, d: nat, i: nat, k: nat)
    requires Sorted(ts) && Sparse(ts, l, d) && i < k <= |ts|
    ensures k - i > l ==> ts[k - 1] - ts[i] > d
  {
    if k - i > l {
      assert ts[i + l] <= ts[k - 1];
    }
  }

  /** Traffic with at most l requests in every closed span of length d never drives the counter past l. */
  lemma SparseNeverOverloads(ts: seq<int>, l: nat, d: nat, k: nat)
    requires Sorted(ts) && Sparse(ts, l, d) && 0 < k <= |ts|
    ensures Load(ts[..k], d) <= l
  {
    SparseGap(ts, l, d, Start(ts[..k], d), k);
  }

  /** 2l requests within a closed span of length d drive the counter past l before the span ends. */
  lemma DenseOverloads(ts: seq<int>, l: nat, d: nat, i: nat) returns (k: nat)
    requires Sorted(ts) && l >= 1
    requires i + 2 * l <= |ts| && ts[i + 2 * l - 1] - ts[i] <= d
    ensures i < k <= i + 2 * l && Load(ts[..k], d) > l
  {
    var m := i + 2 * l;
    k := m;
    var s := Start(ts[..m], d);
    if m - s <= l {
      assert ts[..m][..s] == ts[..s];
      OpenedAfterExpiry(ts[..m], d);
      var p := Start(ts[..s], d);
      assert ts[s] <= ts[m - 1];
      assert ts[p] < ts[i];
      Precedes(ts, p, i);
      k := s;
    }
  }

  /** How many of the requests i, .., j - 1 found the counter at most l, themselves included. */
  function Admitted(ts: seq<int>, d: nat, l: nat, i: nat, j: nat): (c: nat)
    requires i <= j <= |ts|
    decreases j
  {
    if i == j then 0
    else Admitted(ts, d, l, i, j - 1) + (if Load(ts[..j], d) <= l then 1 else 0)
  }

  lemma {:induction false} AdmittedSplit(ts: seq<int>, d: nat, l: nat, i: nat, m: nat, j: nat)
    requires i <= m <= j <= |ts|
    ensures Admitted(ts, d, l, i, j) == Admitted(ts, d, l, i, m) + Admitted(ts, d, l, m, j)
  {
    if m < j {
      AdmittedSplit(ts, d, l, i, m, j - 1);
    }
  }

  /** Within one window only its first l requests are admitted. */
  lemma {:induction false} AdmittedInWindow(ts: seq<int>, d: nat, l: nat, s: nat, i: nat, j: nat)
    requires s <= i <= j <= |ts|
    requires forall k :: i < k <= j ==> Start(ts[..k], d) == s
    ensures Admitted(ts, d, l, i, j) <= if s + l <= i then 0 else s + l - i
    ensures Admitted(ts, d, l, i, j) <= j - i
  {
    if i < j {
      AdmittedInWindow(ts, d, l, s, i, j - 1);
      assert Start(ts[..j], d) == s;
    }
  }

  /** A closed span of length d sees at most 2l - 1 admitted requests, whatever windows it straddles. */
  lemma AdmittedInSpan(ts: seq<int>, d: nat, l: nat, i: nat, j: nat)
    requires Sorted(ts) && l >= 1
    requires i < j <= |ts| && ts[j - 1] - ts[i] <= d
    ensures Admitted(ts, d, l, i, j) <= 2 * l - 1
  {
    var s := Start(ts[..j], d);
    forall k | s < k <= j ensures Start(ts[..k], d) == s {
      assert ts[..j][..k] == ts[..k];
      StartStable(ts[..j], d, k);
    }
    if s <= i {
      AdmittedInWindow(ts, d, l, s, i, j);
    } else {
      assert ts[..j][..s] == ts[..s];
      OpenedAfterExpiry(ts[..j], d);
      var p := Start(ts[..s], d);
      assert ts[s] <= ts[j - 1];
      Precedes(ts, p, i);
      forall k | i < k <= s ensures Start(ts[..k], d) == p {
        assert ts[..s][..k] == ts[..k];
        StartStable(ts[..s], d, k);
      }
      AdmittedInWindow(ts, d, l, p, i, s);
      AdmittedInWindow(ts, d, l, s, s, j);
      AdmittedSplit(ts, d, l, i, s, j);
    }
  }

  // ---- Both bounds are the best possible ----

  /** One request, l - 1 more at the last moment of its window, and l just after it. */
  function Straddle(l: nat, d: nat): (ts: seq<int>)
    requires l >= 1
    ensures |ts| == 2 * l
  {
    seq(2 * l, i => if i == 0 then 0 else if i < l then d else d + 1)
  }

  lemma {:induction false} StraddleStart(l: nat, d: nat, k: nat)
    requires l >= 1 && 1 <= k <= 2 * l
    ensures Start(Straddle(l, d)[..k], d) == if k <= l then 0 else l
  {
    if k > 1 {
      StraddleStart(l, d, k - 1);
      assert Straddle(l, d)[..k][..k - 1] == Straddle(l, d)[..k - 1];
    }
  }

  lemma StraddleIsSorted(l: nat, d: nat)
    requires l >= 1 && d >= 1
    ensures Sorted(Straddle(l, d)) && Straddle(l, d)[2 * l - 1] - Straddle(l, d)[1] <= 1
  {
  }

  lemma StraddleLoad(l: nat, d: nat, j: nat)
    requires l >= 1 && 1 <= j <= 2 * l
    ensures Load(Straddle(l, d)[..j], d) <= l
  {
    StraddleStart(l, d, j);
  }

  /** 2l - 1 requests within one tick, after a single earlier one, that the counter admits without exception. */
  lemma {:induction false} StraddleAdmitted(l: nat, d: nat, j: nat)
    requires l >= 1 && d >= 1 && 1 <= j <= 2 * l
    ensures Sorted(Straddle(l, d)) && Straddle(l, d)[2 * l - 1] - Straddle(l, d)[1] <= 1
    ensures Load(Straddle(l, d)[..j], d) <= l
    ensures Admitted(Straddle(l, d), d, l, 1, j) == j - 1
  {
    StraddleIsSorted(l, d);
    StraddleLoad(l, d, j);
    if j > 1 {
      StraddleAdmitted(l, d, j - 1);
    }
  }
}

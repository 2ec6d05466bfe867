/** lib/Parallelization/TaskExecutor.cpp, taskBatches: how many items each worker gets. */
module Batches {
  function SumTo(s: seq<nat>, k: nat): nat
    requires k <= |s|
  {
    if k == 0 then 0 else SumTo(s, k - 1) + s[k - 1]
  }

  function Sum(s: seq<nat>): nat {
    SumTo(s, |s|)
  }

  lemma {:induction false} SumToSame(a: seq<nat>, b: seq<nat>, k: nat)
    requires k <= |a| && k <= |b| && forall i | 0 <= i < k :: a[i] == b[i]
    ensures SumTo(a, k) == SumTo(b, k)
  {
    if k > 0 {
      SumToSame(a, b, k - 1);
    }
  }

  lemma SumAppend(s: seq<nat>, x: nat)
    ensures Sum(s + [x]) == Sum(s) + x
  {
    SumToSame(s + [x], s, |s|);
  }

  lemma DivModUnique(a: int, m: int, q: int, r: int)
    requires m > 0 && a == q * m + r && 0 <= r < m
    ensures a / m == q && a % m == r
  {
    var d := q - a / m;
    calc {
      d * m;
      q * m - (a / m) * m;
      a % m - r;
    }
  }

  /** The k-th quotient is rounded up. */
  function BatchSize(n: nat, m: nat, k: nat): nat
    requires k < m <= n
  {
    (n - k) / m + if (n - k) % m != 0 then 1 else 0
  }

  /** The first n % m batches have one item more than the others. */
  lemma BatchSizeIs(n: nat, m: nat, k: nat)
    requires k < m <= n
    ensures BatchSize(n, m, k) == n / m + if k < n % m then 1 else 0
  {
    var q, r := n / m, n % m;
    assert n == q * m + r;
    if k <= r {
      DivModUnique(n - k, m, q, r - k);
    } else {
      assert n - k == (q - 1) * m + (m + r - k);
      DivModUnique(n - k, m, q - 1, m + r - k);
    }
  }

  /** What k batches hold when the first r of them have q + 1 items and the others q. */
  function Prefix(q: nat, r: nat, k: nat): nat {
    k * q + if k < r then k else r
  }

  lemma PrefixStep(q: nat, r: nat, k: nat)
    ensures Prefix(q, r, k + 1) == Prefix(q, r, k) + q + if k < r then 1 else 0
  {
    assert (k + 1) * q == k * q + q;
  }

  lemma CeilingBounds(n: nat, m: nat, k: nat)
    requires k < m <= n
    ensures (BatchSize(n, m, k) - 1) * m < n - k <= BatchSize(n, m, k) * m
  {
    var q, r := (n - k) / m, (n - k) % m;
    assert n - k == q * m + r;
    if r != 0 {
      assert (q + 1) * m == q * m + m;
    } else {
      assert (q - 1) * m == q * m - m;
    }
  }

  /** The batch sizes are positive, cover all items, never grow and differ by at most one. */
  method TaskBatches(itemsCount: nat, tasks: nat) returns (result: seq<nat>)
    requires itemsCount >= tasks && (tasks > 0 || itemsCount == 0)
    ensures |result| == tasks && Sum(result) == itemsCount
    ensures forall k | 0 <= k < tasks :: result[k] >= 1 && (result[k] - 1) * tasks < itemsCount - k <= result[k] * tasks
    ensures forall j, k | 0 <= j < k < tasks :: result[k] <= result[j] <= result[k] + 1
  {
    result := [];
    var n, m := itemsCount, tasks;
    var q, r, start, end, s := 0, 0, 0, 0, 0;
    ghost var quotient := if m == 0 then 0 else n / m;
    ghost var remainder := if m == 0 then 0 else n % m;
    for k := 0 to m
      invariant |result| == k && s == end == Sum(result) == Prefix(quotient, remainder, k)
      invariant forall j | 0 <= j < k :: result[j] == BatchSize(n, m, j) == quotient + if j < remainder then 1 else 0
    {
      q := (n - k) / m;
      r := (n - k) % m;
      start := end;
      end := end + q + if r != 0 then 1 else 0;
      s := s + end - start;
      BatchSizeIs(n, m, k);
      PrefixStep(quotient, remainder, k);
      SumAppend(result, end - start);
      result := result + [end - start];
    }
    if m > 0 {
      WholePrefix(n, m);
    }
    forall k | 0 <= k < tasks
      ensures result[k] >= 1 && (result[k] - 1) * tasks < itemsCount - k <= result[k] * tasks
    {
      CeilingBounds(n, m, k);
    }
  }

  lemma WholePrefix(n: nat, m: nat)
    requires 0 < m <= n
    ensures Prefix(n / m, n % m, m) == n
  {
    assert n == (n / m) * m + n % m;
  }
}

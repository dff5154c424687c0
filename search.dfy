/** Value domain of the minimax searches: integers extended with the -inf and +inf the agents
    start their windows and running maxima from, and the correctness notion of an alpha-beta
    search with a window (alpha, beta). */
module Search {

  datatype ExtInt = NegInf | Fin(v: int) | PosInf

  predicate Le(a: ExtInt, b: ExtInt)
  {
    a.NegInf? || b.PosInf? || (a.Fin? && b.Fin? && a.v <= b.v)
  }

  predicate Lt(a: ExtInt, b: ExtInt) { !Le(b, a) }

  function Max(a: ExtInt, b: ExtInt): ExtInt { if Le(a, b) then b else a }

  function Min(a: ExtInt, b: ExtInt): ExtInt { if Le(a, b) then a else b }

  /** r is a fail-soft alpha-beta result for the true value v: at most alpha means v <= r,
      at least beta means v >= r, and strictly inside the window means r is exact. */
  predicate FailSoft(r: ExtInt, v: ExtInt, alpha: ExtInt, beta: ExtInt)
  {
    && (Le(r, alpha) ==> Le(v, r))
    && (Le(beta, r) ==> Le(r, v))
    && (Lt(alpha, r) && Lt(r, beta) ==> v == r)
  }

  /** With the full window, a fail-soft result is the exact value. */
  lemma FullWindow(r: ExtInt, v: ExtInt)
    requires FailSoft(r, v, NegInf, PosInf)
    ensures r == v
  {
  }

  /** The largest of vs[0..k]; -inf for none. */
  function PrefixMax(vs: seq<ExtInt>, k: nat): ExtInt
    requires k <= |vs|
  {
    if k == 0 then NegInf else Max(PrefixMax(vs, k - 1), vs[k - 1])
  }

  /** The smallest of vs[0..k]; +inf for none. */
  function PrefixMin(vs: seq<ExtInt>, k: nat): ExtInt
    requires k <= |vs|
  {
    if k == 0 then PosInf else Min(PrefixMin(vs, k - 1), vs[k - 1])
  }

  /** PrefixMax is an upper bound of the prefix that one of its elements attains. */
  lemma {:induction false} PrefixMaxSpec(vs: seq<ExtInt>, k: nat)
    requires k <= |vs|
    ensures forall i :: 0 <= i < k ==> Le(vs[i], PrefixMax(vs, k))
    ensures k > 0 ==> exists i :: 0 <= i < k && vs[i] == PrefixMax(vs, k)
  {
    if k > 0 {
      PrefixMaxSpec(vs, k - 1);
      if k == 1 {
        assert vs[0] == PrefixMax(vs, 1);
      } else if vs[k - 1] != PrefixMax(vs, k) {
        var i :| 0 <= i < k - 1 && vs[i] == PrefixMax(vs, k - 1);
        assert vs[i] == PrefixMax(vs, k);
      }
    }
  }

  /** PrefixMin is a lower bound of the prefix that one of its elements attains. */
  lemma {:induction false} PrefixMinSpec(vs: seq<ExtInt>, k: nat)
    requires k <= |vs|
    ensures forall i :: 0 <= i < k ==> Le(PrefixMin(vs, k), vs[i])
    ensures k > 0 ==> exists i :: 0 <= i < k && vs[i] == PrefixMin(vs, k)
  {
    if k > 0 {
      PrefixMinSpec(vs, k - 1);
      if k == 1 {
        assert vs[0] == PrefixMin(vs, 1);
      } else if vs[k - 1] != PrefixMin(vs, k) {
        var i :| 0 <= i < k - 1 && vs[i] == PrefixMin(vs, k - 1);
        assert vs[i] == PrefixMin(vs, k);
      }
    }
  }

  lemma {:induction false} PrefixMaxMono(vs: seq<ExtInt>, k: nat, n: nat)
    requires k <= n <= |vs|
    ensures Le(PrefixMax(vs, k), PrefixMax(vs, n))
  {
    if k < n {
      PrefixMaxMono(vs, k, n - 1);
    }
  }

  lemma {:induction false} PrefixMinMono(vs: seq<ExtInt>, k: nat, n: nat)
    requires k <= n <= |vs|
    ensures Le(PrefixMin(vs, n), PrefixMin(vs, k))
  {
    if k < n {
      PrefixMinMono(vs, k, n - 1);
    }
  }

  /** One step of a maximizing loop: the running maximum m (fail-soft for the true prefix
      maximum mv under the caller's window) meets a child result r that is fail-soft for the
      child's value v under the narrowed window (max(alpha, m), beta). */
  lemma MaxStep(alpha: ExtInt, beta: ExtInt, m: ExtInt, mv: ExtInt, r: ExtInt, v: ExtInt)
    requires Lt(Max(alpha, m), beta)
    requires FailSoft(m, mv, alpha, beta)
    requires FailSoft(r, v, Max(alpha, m), beta)
    ensures FailSoft(Max(m, r), Max(mv, v), alpha, beta)
    ensures Lt(m, r) && Lt(alpha, r) && Lt(r, beta) ==> v == r && Lt(mv, r)
  {
  }

  /** One step of a minimizing loop, the mirror image of MaxStep. */
  lemma MinStep(alpha: ExtInt, beta: ExtInt, m: ExtInt, mv: ExtInt, r: ExtInt, v: ExtInt)
    requires Lt(alpha, Min(beta, m))
    requires FailSoft(m, mv, alpha, beta)
    requires FailSoft(r, v, alpha, Min(beta, m))
    ensures FailSoft(Min(m, r), Min(mv, v), alpha, beta)
    ensures Lt(r, m) && Lt(alpha, r) && Lt(r, beta) ==> v == r && Lt(r, mv)
  {
  }

  /** A maximizing loop cut off at beta: the remaining children can only raise the true value. */
  lemma MaxCut(alpha: ExtInt, beta: ExtInt, m: ExtInt, mv: ExtInt, full: ExtInt)
    requires Lt(alpha, beta) && Le(beta, Max(alpha, m))
    requires FailSoft(m, mv, alpha, beta) && Le(mv, full)
    ensures FailSoft(m, full, alpha, beta)
  {
  }

  /** A minimizing loop cut off at alpha, the mirror image of MaxCut. */
  lemma MinCut(alpha: ExtInt, beta: ExtInt, m: ExtInt, mv: ExtInt, full: ExtInt)
    requires Lt(alpha, beta) && Le(Min(beta, m), alpha)
    requires FailSoft(m, mv, alpha, beta) && Le(full, mv)
    ensures FailSoft(m, full, alpha, beta)
  {
  }

  /** The invariant of a maximizing alpha-beta loop after the first i of the children whose
      true values are vs: a is alpha raised to the running maximum, the running maximum is
      fail-soft for the prefix maximum, and when it is exact it was set by child k, the first
      to reach it. found says whether any child has set it. */
  predicate MaxScan(vs: seq<ExtInt>, i: nat, alpha: ExtInt, beta: ExtInt, value: ExtInt, a: ExtInt, found: bool, k: int)
  {
    && i <= |vs| && a == Max(alpha, value)
    && (found ==> 0 <= k < i) && (!found ==> value == NegInf)
    && (Lt(alpha, beta) ==> FailSoft(value, PrefixMax(vs, i), alpha, beta))
    && (found && Lt(alpha, beta) && Lt(alpha, value) && Lt(value, beta) ==> vs[k] == value && Lt(PrefixMax(vs, k), value))
  }

  /** The invariant of a minimizing alpha-beta loop, the mirror image of MaxScan with c the
      lowered beta. */
  predicate MinScan(vs: seq<ExtInt>, i: nat, alpha: ExtInt, beta: ExtInt, value: ExtInt, c: ExtInt, found: bool, k: int)
  {
    && i <= |vs| && c == Min(beta, value)
    && (found ==> 0 <= k < i) && (!found ==> value == PosInf)
    && (Lt(alpha, beta) ==> FailSoft(value, PrefixMin(vs, i), alpha, beta))
    && (found && Lt(alpha, beta) && Lt(alpha, value) && Lt(value, beta) ==> vs[k] == value && Lt(value, PrefixMin(vs, k)))
  }

  /** A child searched with the narrowed window (a, beta) keeps MaxScan: a strictly larger
      result replaces the running maximum and its index, and raises a. */
  lemma MaxScanStep(vs: seq<ExtInt>, i: nat, alpha: ExtInt, beta: ExtInt, value: ExtInt, a: ExtInt, found: bool, k: int, eval: ExtInt)
    requires MaxScan(vs, i, alpha, beta, value, a, found, k) && i < |vs|
    requires Lt(alpha, beta) ==> Lt(a, beta) && FailSoft(eval, vs[i], a, beta)
    ensures MaxScan(vs, i + 1, alpha, beta, if Lt(value, eval) then eval else value, Max(a, eval),
                    found || Lt(value, eval), if Lt(value, eval) then i else k)
  {
    if Lt(alpha, beta) {
      MaxStep(alpha, beta, value, PrefixMax(vs, i), eval, vs[i]);
    }
  }

  /** A child searched with the narrowed window (alpha, c) keeps MinScan. */
  lemma MinScanStep(vs: seq<ExtInt>, i: nat, alpha: ExtInt, beta: ExtInt, value: ExtInt, c: ExtInt, found: bool, k: int, eval: ExtInt)
    requires MinScan(vs, i, alpha, beta, value, c, found, k) && i < |vs|
    requires Lt(alpha, beta) ==> Lt(alpha, c) && FailSoft(eval, vs[i], alpha, c)
    ensures MinScan(vs, i + 1, alpha, beta, if Lt(eval, value) then eval else value, Min(c, eval),
                    found || Lt(eval, value), if Lt(eval, value) then i else k)
  {
    if Lt(alpha, beta) {
      MinStep(alpha, beta, value, PrefixMin(vs, i), eval, vs[i]);
    }
  }

  /** A maximizing loop stopped once beta <= a: its running maximum is already fail-soft for
      the maximum over all children. */
  lemma MaxScanCut(vs: seq<ExtInt>, i: nat, alpha: ExtInt, beta: ExtInt, value: ExtInt, a: ExtInt, found: bool, k: int)
    requires MaxScan(vs, i, alpha, beta, value, a, found, k) && Lt(alpha, beta) && Le(beta, a)
    ensures FailSoft(value, PrefixMax(vs, |vs|), alpha, beta)
  {
    PrefixMaxMono(vs, i, |vs|);
    MaxCut(alpha, beta, value, PrefixMax(vs, i), PrefixMax(vs, |vs|));
  }

  /** A minimizing loop stopped once c <= alpha, the mirror image of MaxScanCut. */
  lemma MinScanCut(vs: seq<ExtInt>, i: nat, alpha: ExtInt, beta: ExtInt, value: ExtInt, c: ExtInt, found: bool, k: int)
    requires MinScan(vs, i, alpha, beta, value, c, found, k) && Lt(alpha, beta) && Le(c, alpha)
    ensures FailSoft(value, PrefixMin(vs, |vs|), alpha, beta)
  {
    PrefixMinMono(vs, i, |vs|);
    MinCut(alpha, beta, value, PrefixMin(vs, i), PrefixMin(vs, |vs|));
  }

  /* ---------------- Child value lists ---------------- */

  /** The values f(k), f(k + 1), ..., f(n - 1): a level's child values in move-list order. */
  function Tabulate<T>(n: nat, k: nat, f: nat -> T): (vs: seq<T>)
    ensures |vs| == if k <= n then n - k else 0
    decreases n - k
  {
    if k >= n then [] else [f(k)] + Tabulate(n, k + 1, f)
  }

  /** The entry for j in the list started at k is f(j). */
  lemma {:induction false} TabulateAt<T>(n: nat, k: nat, f: nat -> T, j: nat)
    requires k <= j < n
    ensures Tabulate(n, k, f)[j - k] == f(j)
    decreases j - k
  {
    if k < j {
      TabulateAt(n, k + 1, f, j);
    }
  }

  /* ---------------- Reals for expectimax ---------------- */

  /** vs[0] + ... + vs[k-1]. */
  function Sum(vs: seq<real>, k: nat): real
    requires k <= |vs|
  {
    if k == 0 then 0.0 else Sum(vs, k - 1) + vs[k - 1]
  }

  /** The average of a non-empty sequence. */
  function Mean(vs: seq<real>): real
    requires |vs| > 0
  {
    Sum(vs, |vs|) / (|vs| as real)
  }

  /** The largest of vs[0..k] (k >= 1). */
  function RMax(vs: seq<real>, k: nat): (r: real)
    requires 1 <= k <= |vs|
  {
    if k == 1 then vs[0] else if vs[k - 1] > RMax(vs, k - 1) then vs[k - 1] else RMax(vs, k - 1)
  }

  /** The smallest of vs[0..k] (k >= 1). */
  function RMin(vs: seq<real>, k: nat): (r: real)
    requires 1 <= k <= |vs|
  {
    if k == 1 then vs[0] else if vs[k - 1] < RMin(vs, k - 1) then vs[k - 1] else RMin(vs, k - 1)
  }

  lemma {:induction false} RMaxSpec(vs: seq<real>, k: nat)
    requires 1 <= k <= |vs|
    ensures forall i :: 0 <= i < k ==> vs[i] <= RMax(vs, k)
    ensures exists i :: 0 <= i < k && vs[i] == RMax(vs, k)
  {
    if k == 1 {
      assert vs[0] == RMax(vs, 1);
    } else {
      RMaxSpec(vs, k - 1);
      if vs[k - 1] != RMax(vs, k) {
        var i :| 0 <= i < k - 1 && vs[i] == RMax(vs, k - 1);
        assert vs[i] == RMax(vs, k);
      }
    }
  }

  lemma {:induction false} RMinSpec(vs: seq<real>, k: nat)
    requires 1 <= k <= |vs|
    ensures forall i :: 0 <= i < k ==> RMin(vs, k) <= vs[i]
  {
    if k > 1 {
      RMinSpec(vs, k - 1);
    }
  }

  /** k values in [lo, hi] sum to between k * lo and k * hi. */
  lemma {:induction false} SumBounds(vs: seq<real>, k: nat, lo: real, hi: real)
    requires k <= |vs|
    requires forall i :: 0 <= i < k ==> lo <= vs[i] <= hi
    ensures (k as real) * lo <= Sum(vs, k) <= (k as real) * hi
  {
    if k > 0 {
      SumBounds(vs, k - 1, lo, hi);
      var kr := (k - 1) as real;
      assert (k as real) * lo == kr * lo + lo;
      assert (k as real) * hi == kr * hi + hi;
    }
  }

  /** Dividing n * lo <= s <= n * hi by a positive n. */
  lemma DivBetween(s: real, n: real, lo: real, hi: real)
    requires n > 0.0 && n * lo <= s <= n * hi
    ensures lo <= s / n <= hi
  {
    var m := s / n;
    assert s == n * m;
  }

  /** The mean of a non-empty sequence lies between its minimum and its maximum. */
  lemma MeanBetween(vs: seq<real>)
    requires |vs| >= 1
    ensures RMin(vs, |vs|) <= Mean(vs) <= RMax(vs, |vs|)
  {
    RMinSpec(vs, |vs|);
    RMaxSpec(vs, |vs|);
    SumBounds(vs, |vs|, RMin(vs, |vs|), RMax(vs, |vs|));
    DivBetween(Sum(vs, |vs|), |vs| as real, RMin(vs, |vs|), RMax(vs, |vs|));
  }

  /** Every element in [lo, hi] puts the maximum, the minimum and the mean in [lo, hi]. */
  lemma {:induction false} BoundsOfRMinMax(vs: seq<real>, k: nat, lo: real, hi: real)
    requires 1 <= k <= |vs|
    requires forall i :: 0 <= i < |vs| ==> lo <= vs[i] <= hi
    ensures lo <= RMin(vs, k) && RMax(vs, k) <= hi
  {
    if k > 1 {
      BoundsOfRMinMax(vs, k - 1, lo, hi);
    }
  }

  /** The invariant of a maximizing loop over real values after the first i of vs, where a
      value replaces the running maximum only when strictly larger: found says whether any
      value has been seen, value is the maximum so far and k the first index reaching it. */
  predicate RMaxScan(vs: seq<real>, i: nat, found: bool, value: real, k: int)
  {
    && i <= |vs| && (found <==> i > 0)
    && (found ==> 0 <= k < i && value == RMax(vs, i) && vs[k] == value && forall j :: 0 <= j < k ==> vs[j] < value)
  }

  lemma RMaxScanStep(vs: seq<real>, i: nat, found: bool, value: real, k: int)
    requires RMaxScan(vs, i, found, value, k) && i < |vs|
    ensures RMaxScan(vs, i + 1, true, if !found || vs[i] > value then vs[i] else value,
                     if !found || vs[i] > value then i else k)
  {
    if found && vs[i] > value {
      RMaxSpec(vs, i);
    }
  }
}

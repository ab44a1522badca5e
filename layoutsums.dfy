/**
 * Arithmetic behind executeShifts and moveSubtree
 * (frontend/app/utils/graphLayout.ts:211-234), stated over the per-child
 * `change` and `shift` values of one parent, listed left to right.
 */
module LayoutSums {

  /** The values `vals[ks[0]], vals[ks[1]], ...`: one field of a parent's children. */
  function Gather(vals: seq<real>, ks: seq<int>): (r: seq<real>)
    requires forall k :: 0 <= k < |ks| ==> 0 <= ks[k] < |vals|
    ensures |r| == |ks|
    ensures forall k {:trigger r[k]} :: 0 <= k < |ks| ==> r[k] == vals[ks[k]]
  {
    seq(|ks|, k requires 0 <= k < |ks| => vals[ks[k]])
  }

  /** `s[k] + s[k + 1] + ... + s[|s| - 1]`. */
  function SuffixSum(s: seq<real>, k: nat): real
    decreases |s| - k
  {
    if k >= |s| then 0.0 else s[k] + SuffixSum(s, k + 1)
  }

  /**
   * What executeShifts adds to the prelim and mod of child `k`: the running
   * `shift` of its reverse loop when it reaches `k`, that is the sum over the
   * later children `l` of `sh[l] + SuffixSum(ch, l)`.
   */
  function Applied(ch: seq<real>, sh: seq<real>, k: int): real
    requires |ch| == |sh| && -1 <= k
    decreases |sh| - k
  {
    if k + 1 >= |sh| then 0.0 else sh[k + 1] + SuffixSum(ch, k + 1) + Applied(ch, sh, k + 1)
  }

  /** Changing one entry moves exactly the suffix sums that include it. */
  lemma {:induction false} SuffixSumUpdate(s: seq<real>, i: nat, x: real, k: nat)
    requires i < |s|
    ensures SuffixSum(s[i := x], k) == SuffixSum(s, k) + (if k <= i then x - s[i] else 0.0)
    decreases |s| - k
  {
    if k < |s| {
      SuffixSumUpdate(s, i, x, k + 1);
    }
  }

  /**
   * moveSubtree takes `q` from the right sibling `i` and gives it to an
   * earlier sibling `j`: no suffix sum of the changes grows.
   */
  lemma {:induction false} MoveLowersSuffixes(ch: seq<real>, j: nat, i: nat, q: real, k: nat)
    requires j < i < |ch| && q > 0.0
    ensures SuffixSum(ch[i := ch[i] - q][j := ch[j] + q], k) <= SuffixSum(ch, k)
  {
    var mid := ch[i := ch[i] - q];
    SuffixSumUpdate(ch, i, ch[i] - q, k);
    SuffixSumUpdate(mid, j, ch[j] + q, k);
  }

  /**
   * The separation step: if child `k + 1` sits one unit plus its own
   * accumulated shift above child `k`, and the changes from `k + 1` on sum to
   * at most 0, then after executeShifts it is still at least one unit above.
   */
  lemma {:induction false} ShiftsKeepSeparation(p: seq<real>, ch: seq<real>, sh: seq<real>, k: nat)
    requires |p| == |ch| == |sh| && k + 1 < |p|
    requires p[k + 1] == p[k] + 1.0 + sh[k + 1]
    requires SuffixSum(ch, k + 1) <= 0.0
    ensures (p[k + 1] + Applied(ch, sh, k + 1)) - (p[k] + Applied(ch, sh, k)) >= 1.0
  {
  }

  lemma {:induction false} SuffixSumZero(s: seq<real>, k: nat)
    requires forall l :: 0 <= l < |s| ==> s[l] == 0.0
    ensures SuffixSum(s, k) == 0.0
    decreases |s| - k
  {
    if k < |s| {
      SuffixSumZero(s, k + 1);
    }
  }

  /** With no recorded changes or shifts executeShifts moves nothing. */
  lemma {:induction false} AppliedZero(ch: seq<real>, sh: seq<real>, k: int)
    requires |ch| == |sh| && -1 <= k
    requires forall l :: 0 <= l < |ch| ==> ch[l] == 0.0 && sh[l] == 0.0
    ensures Applied(ch, sh, k) == 0.0
    decreases |sh| - k
  {
    if k + 1 < |sh| {
      SuffixSumZero(ch, k + 1);
      AppliedZero(ch, sh, k + 1);
    }
  }

  /** Gathering after updating two distinct listed entries is updating the gathered values. */
  lemma {:induction false} GatherMove(vals: seq<real>, ks: seq<int>, i: nat, j: nat, a: real, b: real)
    requires forall k :: 0 <= k < |ks| ==> 0 <= ks[k] < |vals|
    requires i < |ks| && j < |ks|
    requires forall k :: 0 <= k < |ks| && k != i ==> ks[k] != ks[i]
    requires forall k :: 0 <= k < |ks| && k != j ==> ks[k] != ks[j]
    ensures Gather(vals[ks[i] := a][ks[j] := b], ks) == Gather(vals, ks)[i := a][j := b]
  {
  }

  /**
   * moveSubtree from child `j` to a later child `i` of the same parent
   * (entries `ks[j]` and `ks[i]` of the change values) lowers no suffix sum.
   */
  lemma {:induction false} MoveKeepsSuffixes(before: seq<real>, after: seq<real>, ks: seq<int>, j: nat, i: nat, q: real)
    requires forall k :: 0 <= k < |ks| ==> 0 <= ks[k] < |before|
    requires j < i < |ks| && q > 0.0
    requires forall k :: 0 <= k < |ks| && k != i ==> ks[k] != ks[i]
    requires forall k :: 0 <= k < |ks| && k != j ==> ks[k] != ks[j]
    requires after == before[ks[i] := before[ks[i]] - q][ks[j] := before[ks[j]] + q]
    ensures |after| == |before|
    ensures SuffixesBelow(Gather(after, ks), Gather(before, ks))
  {
    var g := Gather(before, ks);
    var h := g[i := g[i] - q][j := g[j] + q];
    GatherMove(before, ks, i, j, before[ks[i]] - q, before[ks[j]] + q);
    assert Gather(after, ks) == h;
    forall k: nat
      ensures SuffixSum(h, k) <= SuffixSum(g, k)
    {
      MoveLowersSuffixes(g, j, i, q, k);
    }
  }

  /** No suffix sum of `a` exceeds the corresponding suffix sum of `b`. */
  ghost predicate SuffixesBelow(a: seq<real>, b: seq<real>) {
    forall k: nat :: SuffixSum(a, k) <= SuffixSum(b, k)
  }

  lemma {:induction false} SuffixesBelowTrans(a: seq<real>, b: seq<real>, c: seq<real>)
    requires SuffixesBelow(a, b) && SuffixesBelow(b, c)
    ensures SuffixesBelow(a, c)
  {
  }

  /** Every suffix sum of `s` is at most 0. */
  ghost predicate NonPositiveSuffixes(s: seq<real>) {
    forall k: nat :: SuffixSum(s, k) <= 0.0
  }

  /** Staying below all-zero changes leaves every suffix sum at most 0. */
  lemma {:induction false} BelowZero(a: seq<real>, b: seq<real>)
    requires SuffixesBelow(a, b)
    requires forall l :: 0 <= l < |b| ==> b[l] == 0.0
    ensures NonPositiveSuffixes(a)
  {
    forall k: nat
      ensures SuffixSum(a, k) <= 0.0
    {
      SuffixSumZero(b, k);
    }
  }

  /**
   * The children as firstWalk leaves them before executeShifts: each child
   * one unit plus its own shift above the previous one, and no suffix sum of
   * the changes positive. After executeShifts they are still at least one
   * unit apart.
   */
  lemma {:induction false} ShiftsSpread(p: seq<real>, ch: seq<real>, sh: seq<real>)
    requires |p| == |ch| == |sh|
    requires Gapped(p, sh, |p|)
    requires NonPositiveSuffixes(ch)
    ensures forall k :: 0 <= k < |p| - 1 ==> (p[k + 1] + Applied(ch, sh, k + 1)) - (p[k] + Applied(ch, sh, k)) >= 1.0
  {
    forall k | 0 <= k < |p| - 1
      ensures (p[k + 1] + Applied(ch, sh, k + 1)) - (p[k] + Applied(ch, sh, k)) >= 1.0
    {
      assert p[k + 1] == p[k] + 1.0 + sh[k + 1];
      assert SuffixSum(ch, k + 1) <= 0.0;
      ShiftsKeepSeparation(p, ch, sh, k);
    }
  }

  /** Each of the first `n` entries after the first sits one unit plus its own shift after the previous one. */
  ghost predicate Gapped(p: seq<real>, sh: seq<real>, n: int) {
    forall j :: 0 < j < n && j < |p| && j < |sh| ==> p[j] == p[j - 1] + 1.0 + sh[j]
  }

  /** Gaps kept on an unchanged prefix extend by one more gap. */
  lemma {:induction false} GappedExtend(p0: seq<real>, s0: seq<real>, p1: seq<real>, s1: seq<real>, k: nat)
    requires |p0| == |s0| == |p1| == |s1| && k < |p1|
    requires Gapped(p0, s0, k)
    requires forall j :: 0 <= j < k ==> p1[j] == p0[j] && s1[j] == s0[j]
    requires k > 0 ==> p1[k] == p1[k - 1] + 1.0 + s1[k]
    ensures Gapped(p1, s1, k + 1)
  {
  }

  /**
   * The state of executeShifts' reverse loop (graphLayout.ts:226-233) over the
   * children `ks`, before it visits child `i`: the running shift and change
   * sum what the later children recorded, those children have gained what
   * Applied says, and nothing else has changed.
   */
  ghost predicate ShiftState(ks: seq<int>, prelim: seq<real>, mod: seq<real>, ch: seq<real>, sh: seq<real>,
                             p: seq<real>, m: seq<real>, i: int, runShift: real, runChange: real)
    requires |ch| == |sh| == |ks| && -1 <= i < |ks|
    requires |p| == |m| == |prelim| == |mod|
    requires forall k :: 0 <= k < |ks| ==> 0 <= ks[k] < |prelim|
  {
    && runShift == Applied(ch, sh, i) && runChange == SuffixSum(ch, i + 1)
    && (forall x :: 0 <= x < |prelim| && x !in ks ==> p[x] == prelim[x] && m[x] == mod[x])
    && (forall k :: 0 <= k <= i ==> p[ks[k]] == prelim[ks[k]] && m[ks[k]] == mod[ks[k]])
    && (forall k :: i < k < |ks| ==> p[ks[k]] == prelim[ks[k]] + Applied(ch, sh, k) && m[ks[k]] == mod[ks[k]] + Applied(ch, sh, k))
  }

  /** One round of that loop, at child `i`. */
  lemma {:induction false} ShiftStep(ks: seq<int>, prelim: seq<real>, mod: seq<real>, ch: seq<real>, sh: seq<real>,
                  p: seq<real>, m: seq<real>, i: int, runShift: real, runChange: real,
                  p': seq<real>, m': seq<real>, runShift': real, runChange': real)
    requires |ch| == |sh| == |ks| && 0 <= i < |ks|
    requires |p| == |m| == |prelim| == |mod|
    requires forall k :: 0 <= k < |ks| ==> 0 <= ks[k] < |prelim|
    requires forall j, k :: 0 <= j < k < |ks| ==> ks[j] < ks[k]
    requires ShiftState(ks, prelim, mod, ch, sh, p, m, i, runShift, runChange)
    requires p' == p[ks[i] := p[ks[i]] + runShift] && m' == m[ks[i] := m[ks[i]] + runShift]
    requires runChange' == runChange + ch[i] && runShift' == runShift + sh[i] + runChange'
    ensures |p'| == |m'| == |prelim|
    ensures ShiftState(ks, prelim, mod, ch, sh, p', m', i - 1, runShift', runChange')
  {
    var child := ks[i];
    assert child in ks;
    forall k | 0 <= k < |ks| && k != i
      ensures ks[k] != child
    {
      if k < i { assert ks[k] < ks[i]; } else { assert ks[i] < ks[k]; }
    }
  }

  /**
   * The reverse loop of executeShifts (graphLayout.ts:226-233) over the
   * children `ks` of one parent, listed left to right, whose changes and
   * shifts are `ch` and `sh`: child `k` gains, in prelim and mod, what
   * Applied says; no other entry changes.
   */
  method ShiftLoop(ks: seq<int>, prelim: seq<real>, mod: seq<real>, change: seq<real>, shift: seq<real>,
                   ghost ch: seq<real>, ghost sh: seq<real>)
    returns (p: seq<real>, m: seq<real>)
    requires |prelim| == |mod| == |change| == |shift| && |ch| == |sh| == |ks|
    requires forall k :: 0 <= k < |ks| ==> 0 <= ks[k] < |prelim| && ch[k] == change[ks[k]] && sh[k] == shift[ks[k]]
    requires forall j, k :: 0 <= j < k < |ks| ==> ks[j] < ks[k]
    ensures |p| == |prelim| && |m| == |mod|
    ensures forall x :: 0 <= x < |prelim| && x !in ks ==> p[x] == prelim[x] && m[x] == mod[x]
    ensures forall k :: 0 <= k < |ks| ==>
              p[ks[k]] == prelim[ks[k]] + Applied(ch, sh, k) && m[ks[k]] == mod[ks[k]] + Applied(ch, sh, k)
  {
    p, m := prelim, mod;
    var runShift := 0.0;
    var runChange := 0.0;
    var i := |ks| - 1;
    while i >= 0
      invariant -1 <= i < |ks| && |p| == |prelim| && |m| == |mod|
      invariant ShiftState(ks, prelim, mod, ch, sh, p, m, i, runShift, runChange)
    {
      var child := ks[i];
      ghost var p0, m0, s0, c0 := p, m, runShift, runChange;
      p := p[child := p[child] + runShift];
      m := m[child := m[child] + runShift];
      runChange := runChange + change[child];
      runShift := runShift + shift[child] + runChange;
      ShiftStep(ks, prelim, mod, ch, sh, p0, m0, i, s0, c0, p, m, runShift, runChange);
      i := i - 1;
    }
  }
}

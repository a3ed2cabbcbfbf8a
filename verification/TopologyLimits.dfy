/**
 The limits of the power domains: how many CPUs are beneath each one, and the
 first of them.
 */
module TopologyLimits {
  import opened Folding
  import opened TopologyTree
  import opened Words

  function Signed(v: int): int { if v == PWR_DOMAIN_INIT then -1 else v }

  // The parents stored in the nodes are those of the tree.
  ghost predicate Linked(ns: seq<Node>, par: seq<int>, plat: seq<int>, m: int) {
    Parents(par, plat, m) && |ns| == |par| < TWO32 && forall x :: 0 <= x < |ns| ==> ns[x].parent == par[x] % TWO32
  }

  // ---- the state after some CPUs -------------------------------------------

  // The markers start as -1 for the lowest level, and as 0 for all others.
  function MarkerAt(par: seq<int>, base: int, k: int, c: int): int {
    if c == 0 then if k == 0 then PWR_DOMAIN_INIT else 0 else Up(par, base + c - 1, k + 1)
  }

  // Node 0 looks met from the start if its level is not the lowest one.
  predicate Overlooked(a: int, m: int) { a == 0 && 2 <= m }

  // The limits of node `a`, `n` levels above the CPUs, after `c` CPUs.  Only the
  // presence of its first CPU is recorded.
  ghost predicate LimitsOk(ns: seq<Node>, par: seq<int>, base: int, m: int, n: int, a: int, c: int) {
    && 0 <= a < |ns| && ns[a].ncpus == Count(par, base, a, n, c)
    && var f := FirstCpu(par, base, a, n, c);
       if Overlooked(a, m) || f < 0 then ns[a].cpuStart == 0 && !ns[a].present
       else 0 <= base + f < |ns| && ns[a].cpuStart == base + f && ns[a].present == ns[base + f].present
  }

  // What one CPU does to a domain it is beneath.
  function Counted(ns: seq<Node>, a: int, base: int, c: int, fresh_: bool): seq<Node>
    requires 0 <= a < |ns| && 0 <= base + c < |ns|
  {
    var n := ns[a];
    var met := if fresh_ then n.(cpuStart := base + c, present := n.present || ns[base + c].present) else n;
    ns[a := met.(ncpus := met.ncpus + 1)]
  }

  lemma CountedOk(ns: seq<Node>, par: seq<int>, plat: seq<int>, m: int, n: int, a: int, c: int, fresh_: bool)
    requires Parents(par, plat, m) && |ns| == |par| < TWO32 && 1 <= n <= m
    requires 0 <= c < First(plat, m + 1) - First(plat, m)
    requires a == Up(par, First(plat, m) + c, n) && LimitsOk(ns, par, First(plat, m), m, n, a, c)
    requires fresh_ <==> a != MarkerAt(par, First(plat, m), n - 1, c)
    ensures 0 <= First(plat, m) + c < |ns|
    ensures LimitsOk(Counted(ns, a, First(plat, m), c, fresh_), par, First(plat, m), m, n, a, c + 1)
  {
    hide Up, First;
    var base := First(plat, m);
    FirstMonotone(plat, 0, m);
    UpDepth(par, plat, m, base + c, n);
    FirstMonotone(plat, m - n + 1, m);
    FirstCpuIs(par, base, a, n, c);
    assert Beneath(par, base, a, n, c);
    if c > 0 {
      MetBefore(par, plat, m, n, c, a);
      if a == 0 && fresh_ { NodeZeroFirst(par, plat, m, n, c); }
    } else if n < m {
      FirstMonotone(plat, 1, m - n);
      TopNodes(plat, m, base + c, n, par);
    }
  }

  // A node that is not at the top is not node 0.
  lemma TopNodes(plat: seq<int>, m: int, x: int, n: int, par: seq<int>)
    requires Parents(par, plat, m) && 0 <= n < m && AtDepth(plat, m, x)
    ensures Up(par, x, n) > 0
  {
    UpDepth(par, plat, m, x, n);
    UpDepth(par, plat, m, x, m);
    FirstMonotone(plat, 1, m - n);
    FirstMonotone(plat, 0, 1);
  }

  // If node 0 is above any CPU, it is above the first one.
  lemma NodeZeroFirst(par: seq<int>, plat: seq<int>, m: int, n: int, c: int)
    requires Parents(par, plat, m) && 1 <= n <= m && 0 < c < First(plat, m + 1) - First(plat, m)
    requires Up(par, First(plat, m) + c, n) == 0
    ensures Up(par, First(plat, m) + c - 1, n) == 0
  {
    var base := First(plat, m);
    UpMonotone(par, plat, m, base + c - 1, base + c, n);
    UpDepth(par, plat, m, base + c - 1, n);
  }

  // Other domains are not affected.
  lemma OthersOk(ns: seq<Node>, par: seq<int>, base: int, m: int, n: int, b: int, a: int, c: int, fresh_: bool)
    requires LimitsOk(ns, par, base, m, n, b, c) && b != a && 0 <= a < base && 0 <= c && base + c < |ns| && 0 <= base
    ensures LimitsOk(Counted(ns, a, base, c, fresh_), par, base, m, n, b, c)
    ensures !Beneath(par, base, b, n, c) ==> LimitsOk(Counted(ns, a, base, c, fresh_), par, base, m, n, b, c + 1)
  {
    FirstCpuIs(par, base, b, n, c);
  }

  // All domains, those of the levels above `j` having counted CPU `c` already.
  ghost predicate AllOk(ns: seq<Node>, par: seq<int>, plat: seq<int>, m: int, c: int, j: int) {
    forall d, a {:trigger AtDepth(plat, d, a)} :: 0 <= d < m && AtDepth(plat, d, a) ==>
      LimitsOk(ns, par, First(plat, m), m, m - d, a, if m - d - 1 > j then c + 1 else c)
  }

  lemma AllCounted(ns: seq<Node>, par: seq<int>, plat: seq<int>, m: int, c: int, j: int, fresh_: bool)
    requires Parents(par, plat, m) && |ns| == |par| < TWO32 && 0 <= j < m
    requires 0 <= c < First(plat, m + 1) - First(plat, m)
    requires AllOk(ns, par, plat, m, c, j)
    requires var a := Up(par, First(plat, m) + c, j + 1); fresh_ <==> a != MarkerAt(par, First(plat, m), j, c)
    ensures var a := Up(par, First(plat, m) + c, j + 1);
      0 <= a < First(plat, m) && 0 <= First(plat, m) + c < |ns|
        && AllOk(Counted(ns, a, First(plat, m), c, fresh_), par, plat, m, c, j - 1)
  {
    hide Up, First;
    var base := First(plat, m);
    var a := Up(par, base + c, j + 1);
    FirstMonotone(plat, 0, m);
    UpDepth(par, plat, m, base + c, j + 1);
    FirstMonotone(plat, m - j, m);
    var ns' := Counted(ns, a, base, c, fresh_);
    forall d, b {:trigger AtDepth(plat, d, b)} | 0 <= d < m && AtDepth(plat, d, b)
      ensures LimitsOk(ns', par, base, m, m - d, b, if m - d - 1 > j - 1 then c + 1 else c)
    {
      OneDomain(ns, par, plat, m, c, j, fresh_, d, b);
    }
  }

  lemma OneDomain(ns: seq<Node>, par: seq<int>, plat: seq<int>, m: int, c: int, j: int, fresh_: bool, d: int, b: int)
    requires Parents(par, plat, m) && |ns| == |par| < TWO32 && 0 <= j < m
    requires 0 <= c < First(plat, m + 1) - First(plat, m)
    requires AllOk(ns, par, plat, m, c, j) && 0 <= d < m && AtDepth(plat, d, b)
    requires 0 <= First(plat, m) && AtDepth(plat, m - j - 1, Up(par, First(plat, m) + c, j + 1))
    requires 0 <= Up(par, First(plat, m) + c, j + 1) < First(plat, m) && First(plat, m) + c < |ns|
    requires fresh_ <==> Up(par, First(plat, m) + c, j + 1) != MarkerAt(par, First(plat, m), j, c)
    ensures var ns' := Counted(ns, Up(par, First(plat, m) + c, j + 1), First(plat, m), c, fresh_);
      LimitsOk(ns', par, First(plat, m), m, m - d, b, if m - d - 1 > j - 1 then c + 1 else c)
  {
    hide Up;
    var base := First(plat, m);
    var a := Up(par, base + c, j + 1);
    assert LimitsOk(ns, par, base, m, m - d, b, if m - d - 1 > j then c + 1 else c);
    if b == a {
      SameDepth(plat, d, m - j - 1, a);
      CountedOk(ns, par, plat, m, j + 1, a, c, fresh_);
    } else {
      OtherDomain(ns, par, base, m, c, j, fresh_, m - d, b, a);
    }
  }

  lemma OtherDomain(ns: seq<Node>, par: seq<int>, base: int, m: int, c: int, j: int, fresh_: bool, n: int, b: int,
      a: int)
    requires LimitsOk(ns, par, base, m, n, b, if n - 1 > j then c + 1 else c)
    requires b != a && 0 <= a < base && 0 <= c && base + c < |ns| && a == Up(par, base + c, j + 1)
    ensures LimitsOk(Counted(ns, a, base, c, fresh_), par, base, m, n, b, if n - 1 > j - 1 then c + 1 else c)
  {
    if n - 1 > j {
      StillOk(ns, par, base, m, n, b, a, c, fresh_);
    } else {
      OthersOk(ns, par, base, m, n, b, a, c, fresh_);
      assert n == j + 1 ==> !Beneath(par, base, b, n, c);
    }
  }

  lemma StillOk(ns: seq<Node>, par: seq<int>, base: int, m: int, n: int, b: int, a: int, c: int, fresh_: bool)
    requires LimitsOk(ns, par, base, m, n, b, c + 1) && b != a && 0 <= a < base && 0 <= c && base + c < |ns|
    ensures LimitsOk(Counted(ns, a, base, c, fresh_), par, base, m, n, b, c + 1)
  {
    FirstCpuIs(par, base, b, n, c + 1);
  }

  lemma SameDepth(plat: seq<int>, d: int, e: int, x: int)
    requires (forall i :: 0 <= i < |plat| ==> 0 <= plat[i]) && 0 <= d && 0 <= e && AtDepth(plat, d, x)
    requires AtDepth(plat, e, x)
    ensures d == e
  {
    if d < e { FirstMonotone(plat, d + 1, e); }
    if e < d { FirstMonotone(plat, e + 1, d); }
  }

  // ---- for the loops -------------------------------------------------------

  lemma ParentStored(ns: seq<Node>, par: seq<int>, plat: seq<int>, m: int, x: int, i: int)
    requires Linked(ns, par, plat, m) && AtDepth(plat, m, x) && 0 <= i <= m
    ensures 0 <= Up(par, x, i) < |ns|
    ensures i < m ==> ns[Up(par, x, i)].parent == Up(par, x, i + 1)
  {
    UpDepth(par, plat, m, x, i);
    if i < m {
      UpDepth(par, plat, m, x, i + 1);
    }
  }

  lemma CountedLinked(ns: seq<Node>, par: seq<int>, plat: seq<int>, m: int, a: int, base: int, c: int, fresh_: bool)
    requires Linked(ns, par, plat, m) && 0 <= a < |ns| && 0 <= base + c < |ns|
    ensures Linked(Counted(ns, a, base, c, fresh_), par, plat, m)
    ensures Counted(ns, a, base, c, fresh_) == Counted(ns, a, base + c, 0, fresh_)
  {
  }

  // Linked and AllOk, kept folded.
  ghost predicate Halfway(ns: seq<Node>, par: seq<int>, plat: seq<int>, m: int, c: int, j: int) {
    forall k {:trigger Look(k)} :: Look(k) ==> Linked(ns, par, plat, m) && AllOk(ns, par, plat, m, c, j)
  }

  lemma HalfwayNext(ns: seq<Node>, par: seq<int>, plat: seq<int>, m: int, c: int, j: int, a: int, marker: int,
      cpuNode: int)
    requires Halfway(ns, par, plat, m, c, j) && 0 <= j < m && 0 <= c < First(plat, m + 1) - First(plat, m)
    requires cpuNode == First(plat, m) + c
    requires a == Up(par, cpuNode, j + 1) && marker == MarkerAt(par, First(plat, m), j, c)
    ensures 0 <= a < |ns| && a < First(plat, m) && 0 <= cpuNode < |ns|
    ensures Halfway(Counted(ns, a, cpuNode, 0, a != marker), par, plat, m, c, j - 1)
  {
    assert Look(0);
    AllCounted(ns, par, plat, m, c, j, a != marker);
    CountedLinked(ns, par, plat, m, a, First(plat, m), c, a != marker);
  }

  lemma NextCpuStarts(ns: seq<Node>, par: seq<int>, plat: seq<int>, m: int, c: int)
    requires Halfway(ns, par, plat, m, c, -1)
    ensures Halfway(ns, par, plat, m, c + 1, m - 1)
  {
    assert Look(0);
    forall d, a {:trigger AtDepth(plat, d, a)} | 0 <= d < m && AtDepth(plat, d, a)
      ensures LimitsOk(ns, par, First(plat, m), m, m - d, a, c + 1)
    {
      assert LimitsOk(ns, par, First(plat, m), m, m - d, a, if m - d - 1 > -1 then c + 1 else c);
    }
  }
}

/**
 The tree a platform's power domain description stands for.

 The description lists numbers of children, breadth first, beginning with the
 number of top nodes: entry k + 1 belongs to node k, so the children of node p
 are the nodes [Sum(p + 1), Sum(p + 2)), and the top nodes those of "node -1".
 */
module TopologyTree {
  const PWR_DOMAIN_INIT: int := 0xFFFF_FFFF
  const INVALID_MPID: int := 0xFFFF_FFFF

  datatype Node = Node(cpuStart: int, ncpus: int, mpidr: int, parent: int, level: int, present: bool)

  // Number of nodes whose parents are in front of node k - 1.
  function Sum(plat: seq<int>, k: int): int
    decreases k
  {
    if k <= 0 then 0 else Sum(plat, k - 1) + (if k - 1 < |plat| then plat[k - 1] else 0)
  }

  // First node at a depth below the top.
  function First(plat: seq<int>, depth: int): int
    decreases depth
  {
    if depth <= 0 then 0 else Sum(plat, First(plat, depth - 1) + 1)
  }

  // CPUs are at depth `m`; every node above them has its number of children.
  predicate Described(plat: seq<int>, m: int) {
    1 <= m && (forall i :: 0 <= i < |plat| ==> 0 <= plat[i] < 256) && |plat| == First(plat, m) + 1
  }

  lemma {:induction false} SumMonotone(plat: seq<int>, a: int, b: int)
    requires (forall i :: 0 <= i < |plat| ==> 0 <= plat[i]) && a <= b
    ensures Sum(plat, a) <= Sum(plat, b) && 0 <= Sum(plat, a)
    decreases if b > a then b - a else 0, if b > 0 then b else 0
  {
    if b > a {
      SumMonotone(plat, a, b - 1);
    } else if b > 0 {
      SumMonotone(plat, b - 1, b - 1);
    }
  }

  lemma {:induction false} FirstMonotone(plat: seq<int>, a: int, b: int)
    requires (forall i :: 0 <= i < |plat| ==> 0 <= plat[i]) && a <= b
    ensures 0 <= First(plat, a) <= First(plat, b)
    decreases if b > a then b - a else 0, if b > 0 then b else 0
  {
    if b > a && b > 0 {
      FirstMonotone(plat, a, b - 1);
      FirstStep(plat, b);
    } else if b > 0 {
      FirstMonotone(plat, b - 1, b - 1);
      SumMonotone(plat, First(plat, b - 1) + 1, First(plat, b - 1) + 1);
    }
  }

  lemma {:induction false} FirstStep(plat: seq<int>, d: int)
    requires (forall i :: 0 <= i < |plat| ==> 0 <= plat[i]) && 1 <= d
    ensures 0 <= First(plat, d - 1) <= First(plat, d)
    decreases d
  {
    if d == 1 {
      SumMonotone(plat, 0, 1);
    } else {
      FirstStep(plat, d - 1);
      SumMonotone(plat, First(plat, d - 2) + 1, First(plat, d - 1) + 1);
    }
  }

  // Node p, or the top for -1, is the parent of node x.
  predicate IsParent(plat: seq<int>, p: int, x: int) {
    -1 <= p && Sum(plat, p + 1) <= x < Sum(plat, p + 2)
  }

  // Parents are in the order of their children, and unique.
  lemma ParentMonotone(plat: seq<int>, p: int, x: int, q: int, y: int)
    requires forall i :: 0 <= i < |plat| ==> 0 <= plat[i]
    requires IsParent(plat, p, x) && IsParent(plat, q, y) && x <= y
    ensures p <= q && (x == y ==> p == q)
  {
    if q < p { SumMonotone(plat, q + 2, p + 1); }
    if x == y && p < q { SumMonotone(plat, p + 2, q + 1); }
  }

  predicate AtDepth(plat: seq<int>, d: int, x: int) {
    First(plat, d) <= x < First(plat, d + 1)
  }

  // The parent of a node is one level up.
  lemma ParentDepth(plat: seq<int>, d: int, p: int, x: int)
    requires forall i :: 0 <= i < |plat| ==> 0 <= plat[i]
    requires 1 <= d && AtDepth(plat, d, x) && IsParent(plat, p, x)
    ensures AtDepth(plat, d - 1, p)
  {
    if p < First(plat, d - 1) { SumMonotone(plat, p + 2, First(plat, d - 1) + 1); }
    if p >= First(plat, d) { SumMonotone(plat, First(plat, d) + 1, p + 1); }
  }

  // ---- ancestors -----------------------------------------------------------

  ghost predicate Parents(par: seq<int>, plat: seq<int>, m: int) {
    Described(plat, m) && |par| == First(plat, m + 1) && forall x :: 0 <= x < |par| ==> IsParent(plat, par[x], x)
  }

  // The ancestor `n` levels up.
  function Up(par: seq<int>, x: int, n: int): int
    decreases n
  {
    if n <= 0 then x
    else
      var y := Up(par, x, n - 1);
      if 0 <= y < |par| then par[y] else -1
  }

  lemma {:induction false} UpDepth(par: seq<int>, plat: seq<int>, m: int, x: int, n: int)
    requires Parents(par, plat, m) && AtDepth(plat, m, x) && 0 <= n <= m
    ensures AtDepth(plat, m - n, Up(par, x, n)) && 0 <= Up(par, x, n) < |par|
    decreases n
  {
    FirstMonotone(plat, 0, m - n);
    FirstMonotone(plat, m - n + 1, m + 1);
    if n > 0 {
      UpDepth(par, plat, m, x, n - 1);
      ParentDepth(plat, m - n + 1, Up(par, x, n), Up(par, x, n - 1));
    }
  }

  lemma {:induction false} UpMonotone(par: seq<int>, plat: seq<int>, m: int, x: int, y: int, n: int)
    requires Parents(par, plat, m) && AtDepth(plat, m, x) && AtDepth(plat, m, y) && x <= y && 0 <= n <= m
    ensures Up(par, x, n) <= Up(par, y, n)
    decreases n
  {
    if n > 0 {
      UpDepth(par, plat, m, x, n - 1);
      UpDepth(par, plat, m, y, n - 1);
      UpMonotone(par, plat, m, x, y, n - 1);
      ParentMonotone(plat, Up(par, x, n), Up(par, x, n - 1), Up(par, y, n), Up(par, y, n - 1));
    }
  }

  // ---- the CPUs beneath a node ---------------------------------------------

  // CPU `k` is beneath node `a`, which is `n` levels up.
  predicate Beneath(par: seq<int>, base: int, a: int, n: int, k: int) {
    Up(par, base + k, n) == a
  }

  // How many of the first `c` CPUs are beneath a node, and the first of them,
  // or -1.
  function Count(par: seq<int>, base: int, a: int, n: int, c: int): int
    decreases c
  {
    if c <= 0 then 0 else Count(par, base, a, n, c - 1) + (if Beneath(par, base, a, n, c - 1) then 1 else 0)
  }

  function FirstCpu(par: seq<int>, base: int, a: int, n: int, c: int): int
    decreases c
  {
    if c <= 0 then -1
    else
      var f := FirstCpu(par, base, a, n, c - 1);
      if f >= 0 then f else if Beneath(par, base, a, n, c - 1) then c - 1 else -1
  }

  lemma {:induction false} FirstCpuIs(par: seq<int>, base: int, a: int, n: int, c: int)
    requires 0 <= c
    ensures var f := FirstCpu(par, base, a, n, c);
      if f < 0 then f == -1 && forall k :: 0 <= k < c ==> !Beneath(par, base, a, n, k)
      else f < c && Beneath(par, base, a, n, f) && forall k :: 0 <= k < f ==> !Beneath(par, base, a, n, k)
    decreases c
  {
    if c > 0 {
      FirstCpuIs(par, base, a, n, c - 1);
    }
  }

  // What lies between two CPUs beneath a node is beneath it.
  lemma Between(par: seq<int>, plat: seq<int>, m: int, a: int, n: int, i: int, k: int, j: int)
    requires Parents(par, plat, m) && 0 <= n <= m && 0 <= i <= k <= j < First(plat, m + 1) - First(plat, m)
    requires Beneath(par, First(plat, m), a, n, i) && Beneath(par, First(plat, m), a, n, j)
    ensures Beneath(par, First(plat, m), a, n, k)
  {
    var base := First(plat, m);
    UpMonotone(par, plat, m, base + i, base + k, n);
    UpMonotone(par, plat, m, base + k, base + j, n);
  }

  // A node that has been met was met with the last CPU.
  lemma MetBefore(par: seq<int>, plat: seq<int>, m: int, n: int, c: int, a: int)
    requires Parents(par, plat, m) && 0 <= n <= m && 0 < c < First(plat, m + 1) - First(plat, m)
    requires Beneath(par, First(plat, m), a, n, c)
    ensures FirstCpu(par, First(plat, m), a, n, c) >= 0 <==> Beneath(par, First(plat, m), a, n, c - 1)
  {
    var base := First(plat, m);
    FirstCpuIs(par, base, a, n, c);
    var f := FirstCpu(par, base, a, n, c);
    if f >= 0 {
      Between(par, plat, m, a, n, f, c - 1, c);
    }
  }

  // The CPUs beneath a node are consecutive: its first CPU and as many as it
  // counts.
  lemma {:induction false} CpusConsecutive(par: seq<int>, plat: seq<int>, m: int, a: int, n: int, c: int)
    requires Parents(par, plat, m) && 0 <= n <= m && 0 <= c <= First(plat, m + 1) - First(plat, m)
    ensures FirstCpu(par, First(plat, m), a, n, c) < 0 <==> Count(par, First(plat, m), a, n, c) == 0
    ensures forall k :: 0 <= k < c ==>
      (Beneath(par, First(plat, m), a, n, k) <==>
        InRun(FirstCpu(par, First(plat, m), a, n, c), Count(par, First(plat, m), a, n, c), k))
    ensures 0 <= Count(par, First(plat, m), a, n, c)
    ensures FirstCpu(par, First(plat, m), a, n, c) >= 0 ==>
      FirstCpu(par, First(plat, m), a, n, c) + Count(par, First(plat, m), a, n, c) <= c
    decreases c
  {
    hide Parents, First, Beneath, Described;
    var base := First(plat, m);
    if c > 0 {
      CpusConsecutive(par, plat, m, a, n, c - 1);
      FirstCpuIs(par, base, a, n, c - 1);
      var f, z := FirstCpu(par, base, a, n, c - 1), Count(par, base, a, n, c - 1);
      if f >= 0 && Beneath(par, base, a, n, c - 1) && f + z < c - 1 {
        assert !InRun(f, z, f + z);
        Between(par, plat, m, a, n, f, f + z, c - 1);
        assert false;
      }
    }
  }

  predicate InRun(f: int, z: int, k: int) { 0 <= f <= k < f + z }
}

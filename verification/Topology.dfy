/**
 The power domain topology: building the node array from the platform's
 description, and the limits of every domain (plat/common/plat_topology.c).
 */
module Topology {
  import opened Folding
  import opened TopologyTree
  import opened TopologyLimits
  import opened Words

  // What populate_power_domain_tree stores of node x at a depth.
  ghost predicate Placed(n: Node, plat: seq<int>, m: int, mpidrs: seq<int>, d: int, x: int) {
    && n.level == m - d
    && (exists p :: IsParent(plat, p, x) && n.parent == p % TWO32)
    && (if d == m then
          && 0 <= x - First(plat, m) < |mpidrs|
          && n.mpidr == mpidrs[x - First(plat, m)] && n.present == (n.mpidr != INVALID_MPID) && n.cpuStart == x
            && n.ncpus == 1
        else n.cpuStart == 0 && n.ncpus == 0 && !n.present)
  }

  // The platform has one MPIDR per CPU and room for all nodes.
  ghost predicate Fits(plat: seq<int>, m: int, mpidrs: seq<int>, nodes: int) {
    Described(plat, m) && nodes == First(plat, m + 1) && |mpidrs| == First(plat, m + 1) - First(plat, m)
      && nodes < TWO32
  }

  class Tree {
    const m: nat
    const nodes: array<Node>
    const startIdx: array<int>

    constructor (maxLevel: nat, count: nat)
      ensures m == maxLevel && nodes.Length == count && startIdx.Length == maxLevel + 1 && fresh(nodes)
      ensures fresh(startIdx)
      ensures forall x :: 0 <= x < count ==> nodes[x] == Node(0, 0, 0, 0, 0, false)
    {
      m := maxLevel;
      nodes := new Node[count](_ => Node(0, 0, 0, 0, 0, false));
      startIdx := new int[maxLevel + 1](_ => 0);
    }

    // The innermost loop: the children of one parent.
    method PlaceChildren(plat: seq<int>, mpidrs: seq<int>, ghost d: int, numLevel: int, nodeIndex: int, parentIdx: int)
      returns (j: int)
      requires Fits(plat, m, mpidrs, nodes.Length) && 0 <= d <= m && numLevel == m - d && startIdx.Length == m + 1
      requires numLevel == 0 ==> startIdx[0] == First(plat, m)
      requires 0 <= parentIdx < |plat| && nodeIndex == Sum(plat, parentIdx) && First(plat, d) <= nodeIndex
      requires Sum(plat, parentIdx + 1) <= First(plat, d + 1) <= nodes.Length
      requires forall x :: nodeIndex <= x < nodes.Length && 0 <= x ==> nodes[x] == Node(0, 0, 0, 0, 0, false)
      modifies nodes
      ensures j == Sum(plat, parentIdx + 1) && nodeIndex <= j
      ensures forall x :: nodeIndex <= x < j && 0 <= x < nodes.Length ==> Placed(nodes[x], plat, m, mpidrs, d, x)
      ensures forall x :: 0 <= x < nodes.Length && !(nodeIndex <= x < j) ==> nodes[x] == old(nodes[x])
    {
      FirstMonotone(plat, 0, d);
      var numChildren := plat[parentIdx];
      j := nodeIndex;
      while j < nodeIndex + numChildren
        invariant nodeIndex <= j <= nodeIndex + numChildren
        invariant forall x :: nodeIndex <= x < j && 0 <= x < nodes.Length ==> Placed(nodes[x], plat, m, mpidrs, d, x)
        invariant forall x :: 0 <= x < nodes.Length && !(nodeIndex <= x < j) ==> nodes[x] == old(nodes[x])
      {
        assert IsParent(plat, parentIdx - 1, j);
        nodes[j] := nodes[j].(parent := (parentIdx - 1) % TWO32, level := numLevel);
        if numLevel == 0 {
          var cpuId := j - startIdx[0];
          nodes[j] := nodes[j].(mpidr := mpidrs[cpuId]);
          if nodes[j].mpidr != INVALID_MPID {
            nodes[j] := nodes[j].(present := true);
          }
          nodes[j] := nodes[j].(cpuStart := j, ncpus := 1);
        }
        j := j + 1;
      }
    }

    // The loop over the parents of one level.
    method PopulateLevel(plat: seq<int>, mpidrs: seq<int>, ghost d: int, numLevel: int, nodeIndex0: int, atLevel: int,
        parentIdx0: int)
      returns (nodeIndex: int, nextLevel: int, parentIdx: int)
      requires Fits(plat, m, mpidrs, nodes.Length) && 0 <= d <= m && numLevel == m - d && startIdx.Length == m + 1
      requires numLevel == 0 ==> startIdx[0] == First(plat, m)
      requires nodeIndex0 == First(plat, d) && parentIdx0 == ParentsFrom(plat, d)
      requires atLevel == First(plat, d) + 1 - parentIdx0
      requires forall x :: First(plat, d) <= x < nodes.Length && 0 <= x ==> nodes[x] == Node(0, 0, 0, 0, 0, false)
      modifies nodes
      ensures nodeIndex == First(plat, d + 1) && nextLevel == First(plat, d + 1) - First(plat, d)
      ensures parentIdx == First(plat, d) + 1
      ensures forall x :: First(plat, d) <= x < First(plat, d + 1) && 0 <= x < nodes.Length ==>
        Placed(nodes[x], plat, m, mpidrs, d, x)
      ensures forall x :: 0 <= x < nodes.Length && !(First(plat, d) <= x < First(plat, d + 1)) ==>
        nodes[x] == old(nodes[x])
    {
      LevelBounds(plat, m, d);
      nodeIndex, nextLevel, parentIdx := nodeIndex0, 0, parentIdx0;
      var i := 0;
      while i < atLevel
        invariant 0 <= i <= atLevel && parentIdx == parentIdx0 + i
        invariant First(plat, d) <= nodeIndex == Sum(plat, parentIdx) && nextLevel == nodeIndex - First(plat, d)
        invariant forall x :: First(plat, d) <= x < nodeIndex && 0 <= x < nodes.Length ==>
          Placed(nodes[x], plat, m, mpidrs, d, x)
        invariant forall x :: 0 <= x < nodes.Length && !(First(plat, d) <= x < nodeIndex) ==> nodes[x] == old(nodes[x])
      {
        SumMonotone(plat, parentIdx + 1, First(plat, d) + 1);
        nodeIndex := PlaceChildren(plat, mpidrs, d, numLevel, nodeIndex, parentIdx);
        nextLevel := nextLevel + plat[parentIdx];
        parentIdx := parentIdx + 1;
        i := i + 1;
      }
    }

    // populate_power_domain_tree.
    method Populate(plat: seq<int>, mpidrs: seq<int>)
      requires Fits(plat, m, mpidrs, nodes.Length) && startIdx.Length == m + 1
      requires forall x :: 0 <= x < nodes.Length ==> nodes[x] == Node(0, 0, 0, 0, 0, false)
      modifies nodes, startIdx
      ensures forall d :: 0 <= d <= m ==> startIdx[m - d] == First(plat, d)
      ensures forall d, x {:trigger AtDepth(plat, d, x)} ::
        0 <= d <= m && AtDepth(plat, d, x) && 0 <= x < nodes.Length ==>
        Placed(nodes[x], plat, m, mpidrs, d, x)
    {
      hide Placed;
      var numLevel, atLevel, nodeIndex, parentIdx: int := m, 1, 0, 0;
      ghost var d := 0;
      while numLevel >= 0
        invariant 0 <= d <= m + 1 && numLevel == m - d
        invariant nodeIndex == First(plat, d) && parentIdx == ParentsFrom(plat, d)
        invariant atLevel == First(plat, d) + 1 - parentIdx
        invariant forall e :: 0 <= e < d ==> startIdx[m - e] == First(plat, e)
        invariant forall e, x {:trigger AtDepth(plat, e, x)} ::
          0 <= e < d && AtDepth(plat, e, x) && 0 <= x < nodes.Length ==>
          Placed(nodes[x], plat, m, mpidrs, e, x)
        invariant forall x :: First(plat, d) <= x < nodes.Length && 0 <= x ==> nodes[x] == Node(0, 0, 0, 0, 0, false)
      {
        startIdx[numLevel] := nodeIndex;
        EarlierDepths(plat, d);
        nodeIndex, atLevel, parentIdx := PopulateLevel(plat, mpidrs, d, numLevel, nodeIndex, atLevel, parentIdx);
        numLevel, d := numLevel - 1, d + 1;
      }
    }

    // get_parent_pwr_domain_nodes: the ancestors of a CPU, lowest first.
    method GetParents(cpuNode: int, endLvl: int, nodeIndex: array<int>, ghost par: seq<int>, ghost plat: seq<int>)
      requires Linked(nodes[..], par, plat, m) && AtDepth(plat, m, cpuNode) && endLvl == m == nodeIndex.Length
      modifies nodeIndex
      ensures forall k :: 0 <= k < m ==> nodeIndex[k] == Up(par, cpuNode, k + 1)
    {
      FirstMonotone(plat, 0, m);
      var parentNode := nodes[cpuNode].parent;
      ParentStored(nodes[..], par, plat, m, cpuNode, 0);
      var i := 1;
      while i <= endLvl
        invariant 1 <= i <= m + 1 && (i <= m ==> parentNode == Up(par, cpuNode, i))
        invariant forall k :: 0 <= k < i - 1 ==> nodeIndex[k] == Up(par, cpuNode, k + 1)
      {
        nodeIndex[i - 1] := parentNode;
        ParentStored(nodes[..], par, plat, m, cpuNode, i);
        parentNode := nodes[parentNode].parent;
        i := i + 1;
      }
    }

    // The body of the inner loop of update_pwrlvl_limits, for one domain.
    method CountIn(j: int, a: int, cpuNode: int, isPresent: bool, nodesIdx: array<int>)
      requires 0 <= j < nodesIdx.Length && 0 <= a < nodes.Length && 0 <= cpuNode < nodes.Length
      requires isPresent == nodes[cpuNode].present
      modifies nodes, nodesIdx
      ensures nodes[..] == Counted(old(nodes[..]), a, cpuNode, 0, a != old(nodesIdx[j]))
      ensures nodesIdx[..] == old(nodesIdx[..])[j := a]
    {
      if a != nodesIdx[j] {
        nodesIdx[j] := a;
        nodes[a] := nodes[a].(cpuStart := cpuNode);
        if !nodes[a].present {
          nodes[a] := nodes[a].(present := isPresent);
        }
      }
      nodes[a] := nodes[a].(ncpus := nodes[a].ncpus + 1);
    }

    // The inner loop of update_pwrlvl_limits.
    method CountCpu(c: int, nodesIdx: array<int>, tempIndex: array<int>, ghost par: seq<int>, ghost plat: seq<int>)
      requires Halfway(nodes[..], par, plat, m, c, m - 1) && startIdx.Length == m + 1 && startIdx[0] == First(plat, m)
      requires 0 <= c < First(plat, m + 1) - First(plat, m) && nodesIdx.Length == m == tempIndex.Length
      requires nodesIdx != tempIndex && nodesIdx != startIdx && tempIndex != startIdx
      requires forall k :: 0 <= k < m ==> nodesIdx[k] == MarkerAt(par, First(plat, m), k, c)
      modifies nodes, nodesIdx, tempIndex
      ensures Halfway(nodes[..], par, plat, m, c + 1, m - 1) && forall k :: 0 <= k < m ==>
        nodesIdx[k] == MarkerAt(par, First(plat, m), k, c + 1)
      ensures forall x :: First(plat, m) <= x < nodes.Length && 0 <= x ==> nodes[x] == old(nodes[x])
    {
      var cpuNode := c + startIdx[0];
      assert Linked(nodes[..], par, plat, m) by { assert Look(0); }
      FirstMonotone(plat, 0, m);
      GetParents(cpuNode, m, tempIndex, par, plat);
      var isPresent := nodes[cpuNode].present;
      CountLevels(c, cpuNode, isPresent, nodesIdx, tempIndex, par, plat);
      NextCpuStarts(nodes[..], par, plat, m, c);
    }

    method CountLevels(c: int, cpuNode: int, isPresent: bool, nodesIdx: array<int>, tempIndex: array<int>,
        ghost par: seq<int>, ghost plat: seq<int>)
      requires Halfway(nodes[..], par, plat, m, c, m - 1) && nodesIdx.Length == m == tempIndex.Length
      requires nodesIdx != tempIndex
      requires 0 <= c < First(plat, m + 1) - First(plat, m) && cpuNode == First(plat, m) + c
      requires 0 <= cpuNode < nodes.Length
      requires isPresent == nodes[cpuNode].present
      requires forall k :: 0 <= k < m ==>
        nodesIdx[k] == MarkerAt(par, First(plat, m), k, c) && tempIndex[k] == Up(par, cpuNode, k + 1)
      modifies nodes, nodesIdx
      ensures Halfway(nodes[..], par, plat, m, c, -1) && forall k :: 0 <= k < m ==> nodesIdx[k] == tempIndex[k]
      ensures forall x :: First(plat, m) <= x < nodes.Length && 0 <= x ==> nodes[x] == old(nodes[x])
    {
      hide First, Halfway, MarkerAt;
      ghost var base := First(plat, m);
      var j := m - 1;
      while j >= 0
        invariant -1 <= j < m && Halfway(nodes[..], par, plat, m, c, j)
        invariant forall k :: 0 <= k < m ==> nodesIdx[k] == if k > j then tempIndex[k] else MarkerAt(par, base, k, c)
        invariant forall x :: base <= x < nodes.Length && 0 <= x ==> nodes[x] == old(nodes[x])
      {
        HalfwayNext(nodes[..], par, plat, m, c, j, tempIndex[j], nodesIdx[j], cpuNode);
        CountIn(j, tempIndex[j], cpuNode, isPresent, nodesIdx);
        j := j - 1;
      }
    }

    // update_pwrlvl_limits.
    method UpdateLimits(ghost par: seq<int>, ghost plat: seq<int>, coreCount: int)
      requires Halfway(nodes[..], par, plat, m, 0, m - 1) && startIdx.Length == m + 1 && startIdx[0] == First(plat, m)
      requires 0 <= coreCount == First(plat, m + 1) - First(plat, m)
      modifies nodes
      ensures Halfway(nodes[..], par, plat, m, coreCount, m - 1)
      ensures forall x :: First(plat, m) <= x < nodes.Length && 0 <= x ==> nodes[x] == old(nodes[x])
    {
      hide First, Halfway;
      var nodesIdx := new int[m](k => if k == 0 then PWR_DOMAIN_INIT else 0);
      var tempIndex := new int[m](_ => 0);
      var c := 0;
      while c < coreCount
        invariant 0 <= c <= coreCount && Halfway(nodes[..], par, plat, m, c, m - 1)
        invariant forall k :: 0 <= k < m ==> nodesIdx[k] == MarkerAt(par, First(plat, m), k, c)
        invariant forall x :: First(plat, m) <= x < nodes.Length && 0 <= x ==> nodes[x] == old(nodes[x])
      {
        CountCpu(c, nodesIdx, tempIndex, par, plat);
        c := c + 1;
      }
    }

    // The search loops of the iterators.
    method NextPresent(from: int, to: int) returns (r: int)
      requires 0 <= from && to <= nodes.Length < TWO32
      ensures IsNext(nodes[..], from, to, r)
    {
      r := from;
      while r < to
        invariant from <= r && (r <= to || r == from) && forall x :: from <= x < r ==> !nodes[x].present
      {
        if nodes[r].present {
          return;
        }
        r := r + 1;
      }
      r := PWR_DOMAIN_INIT;
    }

    // tftf_topology_next_cpu.
    method NextCpu(cpuNode: int) returns (r: int)
      requires startIdx.Length > 0 && 0 <= startIdx[0] < nodes.Length < TWO32
      requires cpuNode == PWR_DOMAIN_INIT || startIdx[0] <= cpuNode < nodes.Length
      ensures IsNext(nodes[..], if cpuNode == PWR_DOMAIN_INIT then startIdx[0] else cpuNode + 1, nodes.Length, r)
    {
      var node := cpuNode;
      if node == PWR_DOMAIN_INIT {
        node := startIdx[0];
        if nodes[node].present {
          return node;
        }
      }
      r := NextPresent(node + 1, nodes.Length);
    }

    // tftf_get_next_cpu_in_pwr_domain, for a domain whose limits are recorded.
    method NextCpuInDomain(domain: int, cpuNode: int) returns (r: int)
      requires 0 <= domain < nodes.Length < TWO32 && 0 < nodes[domain].ncpus
      requires 0 <= nodes[domain].cpuStart && nodes[domain].cpuStart + nodes[domain].ncpus <= nodes.Length
      requires cpuNode == PWR_DOMAIN_INIT || 0 <= cpuNode < nodes.Length
      ensures IsNext(nodes[..], if cpuNode == PWR_DOMAIN_INIT then nodes[domain].cpuStart else cpuNode + 1,
                     nodes[domain].cpuStart + nodes[domain].ncpus, r)
    {
      var node := cpuNode;
      if node == PWR_DOMAIN_INIT {
        node := nodes[domain].cpuStart;
        if nodes[node].present {
          return node;
        }
      }
      var cpuEndNode := nodes[domain].cpuStart + nodes[domain].ncpus - 1;
      r := NextPresent(node + 1, cpuEndNode + 1);
    }

    // for_each_cpu_in_power_domain, on the tree that is set up: the iterator visits
    // exactly the present CPUs beneath a domain, in order.
    method CpusInDomain(domain: int, n: int, ghost par: seq<int>, ghost plat: seq<int>) returns (visited: seq<int>)
      requires Linked(nodes[..], par, plat, m) && 0 <= First(plat, m)
      requires AllOk(nodes[..], par, plat, m, First(plat, m + 1) - First(plat, m), m - 1)
      requires 0 < n <= m && AtDepth(plat, m - n, domain) && 0 <= domain < nodes.Length == First(plat, m + 1)
      requires !Overlooked(domain, m) && 0 < nodes[domain].ncpus
      ensures forall i, j :: 0 <= i < j < |visited| ==> visited[i] < visited[j]
      ensures forall x :: x in visited <==> IsPresentBeneath(nodes[..], par, First(plat, m), domain, n, x)
    {
      hide First, AllOk, Linked, Beneath;
      ghost var from, to := nodes[domain].cpuStart, nodes[domain].cpuStart + nodes[domain].ncpus;
      DomainRange(nodes[..], par, plat, m, n, domain);
      visited := [];
      var cpu := NextCpuInDomain(domain, PWR_DOMAIN_INIT);
      while cpu != PWR_DOMAIN_INIT
        invariant forall i, j :: 0 <= i < j < |visited| ==> visited[i] < visited[j]
        invariant cpu != PWR_DOMAIN_INIT ==> from <= cpu < to && nodes[cpu].present
        invariant forall i :: 0 <= i < |visited| ==> IsPresentIn(nodes[..], from, UpTo(cpu, to), visited[i])
        invariant forall x :: IsPresentIn(nodes[..], from, UpTo(cpu, to), x) ==> x in visited
        decreases if cpu == PWR_DOMAIN_INIT then 0 else nodes.Length - cpu
      {
        visited := visited + [cpu];
        cpu := NextCpuInDomain(domain, cpu);
      }
    }

    // tftf_init_topology, on nodes that are all zero.
    method Init(plat: seq<int>, mpidrs: seq<int>) returns (ghost par: seq<int>)
      requires Fits(plat, m, mpidrs, nodes.Length) && startIdx.Length == m + 1
      requires forall x :: 0 <= x < nodes.Length ==> nodes[x] == Node(0, 0, 0, 0, 0, false)
      modifies nodes, startIdx
      ensures forall d :: 0 <= d <= m ==> startIdx[m - d] == First(plat, d)
      ensures Linked(nodes[..], par, plat, m) && AllOk(nodes[..], par, plat, m, |mpidrs|, m - 1)
      ensures 0 <= First(plat, m) && nodes.Length == First(plat, m) + |mpidrs|
      ensures forall x :: First(plat, m) <= x < nodes.Length ==> CpuNode(nodes[x], x, mpidrs[x - First(plat, m)])
    {
      Populate(plat, mpidrs);
      par := ParentsOf(nodes[..]);
      PlacedLinked(nodes[..], plat, m, mpidrs);
      FirstMonotone(plat, 0, m);
      CpusPlaced(nodes[..], plat, m, mpidrs);
      var coreCount := |mpidrs|;
      UpdateLimits(par, plat, coreCount);
      assert Linked(nodes[..], par, plat, m) && AllOk(nodes[..], par, plat, m, coreCount, m - 1) by { assert Look(0); }
    }
  }

  // The first present node in a range, or none.
  predicate IsNext(ns: seq<Node>, from: int, to: int, r: int)
    requires 0 <= from && to <= |ns|
  {
    if r == PWR_DOMAIN_INIT then forall x :: from <= x < to ==> !ns[x].present
    else from <= r < to && ns[r].present && forall x :: from <= x < r ==> !ns[x].present
  }

  function ParentsOf(ns: seq<Node>): (par: seq<int>)
    ensures |par| == |ns| && forall x :: 0 <= x < |ns| ==> par[x] == Signed(ns[x].parent)
  {
    seq(|ns|, x requires 0 <= x < |ns| => Signed(ns[x].parent))
  }

  ghost predicate AllPlaced(ns: seq<Node>, plat: seq<int>, m: int, mpidrs: seq<int>) {
    forall d, x {:trigger AtDepth(plat, d, x)} :: 0 <= d <= m && AtDepth(plat, d, x) && 0 <= x < |ns| ==>
      Placed(ns[x], plat, m, mpidrs, d, x)
  }

  // Every node is at some depth.
  lemma {:induction false} DepthOf(plat: seq<int>, x: int, d: int) returns (e: int)
    requires (forall i :: 0 <= i < |plat| ==> 0 <= plat[i]) && 0 <= d && 0 <= x < First(plat, d)
    ensures 0 <= e < d && AtDepth(plat, e, x)
    decreases d
  {
    if d > 0 && First(plat, d - 1) <= x {
      e := d - 1;
    } else {
      e := DepthOf(plat, x, d - 1);
    }
  }

  lemma PlacedParent(n: Node, plat: seq<int>, m: int, mpidrs: seq<int>, d: int, x: int)
    requires Described(plat, m) && 0 <= d <= m && AtDepth(plat, d, x) && Placed(n, plat, m, mpidrs, d, x)
    requires First(plat, m + 1) < TWO32
    ensures IsParent(plat, Signed(n.parent), x) && n.parent == Signed(n.parent) % TWO32
  {
    hide Sum;
    var p :| IsParent(plat, p, x) && n.parent == p % TWO32;
    FirstMonotone(plat, d, m + 1);
    FirstMonotone(plat, 0, d);
    if d == 0 {
      if p >= 0 { SumMonotone(plat, 1, p + 1); }
    } else {
      ParentDepth(plat, d, p, x);
    }
  }

  // What populate stores is a tree of which nothing has been counted yet.
  lemma PlacedLinked(ns: seq<Node>, plat: seq<int>, m: int, mpidrs: seq<int>)
    requires Fits(plat, m, mpidrs, |ns|) && AllPlaced(ns, plat, m, mpidrs)
    ensures Halfway(ns, ParentsOf(ns), plat, m, 0, m - 1)
  {
    var par := ParentsOf(ns);
    forall x | 0 <= x < |ns|
      ensures IsParent(plat, par[x], x) && ns[x].parent == par[x] % TWO32
    {
      var d := DepthOf(plat, x, m + 1);
      PlacedParent(ns[x], plat, m, mpidrs, d, x);
    }
    forall d, a {:trigger AtDepth(plat, d, a)} | 0 <= d < m && AtDepth(plat, d, a)
      ensures LimitsOk(ns, par, First(plat, m), m, m - d, a, 0)
    {
      FirstMonotone(plat, 0, d);
      FirstMonotone(plat, d + 1, m + 1);
      assert Placed(ns[a], plat, m, mpidrs, d, a);
    }
  }

  predicate CpuNode(n: Node, x: int, mpidr: int) {
    n.cpuStart == x && n.ncpus == 1 && n.mpidr == mpidr && n.level == 0 && n.present == (mpidr != INVALID_MPID)
  }

  lemma CpusPlaced(ns: seq<Node>, plat: seq<int>, m: int, mpidrs: seq<int>)
    requires Fits(plat, m, mpidrs, |ns|) && AllPlaced(ns, plat, m, mpidrs) && 0 <= First(plat, m)
    ensures forall x :: First(plat, m) <= x < |ns| ==> CpuNode(ns[x], x, mpidrs[x - First(plat, m)])
  {
    forall x | First(plat, m) <= x < |ns|
      ensures CpuNode(ns[x], x, mpidrs[x - First(plat, m)])
    {
      assert AtDepth(plat, m, x);
    }
  }

  // After the set-up, the CPUs beneath a domain are the ones from its first CPU
  // on, as many as it counts.  For a node 0 above the lowest domain level this
  // fails: its first CPU is not recorded.
  lemma DomainLimits(ns: seq<Node>, par: seq<int>, plat: seq<int>, m: int, count: int, n: int, a: int, first: int)
    requires Linked(ns, par, plat, m) && count == First(plat, m + 1) - First(plat, m)
    requires AllOk(ns, par, plat, m, count, m - 1)
    requires 0 < n <= m && AtDepth(plat, m - n, a) && 0 <= a < |ns| && first == ns[a].cpuStart - First(plat, m)
    ensures ns[a].ncpus == Count(par, First(plat, m), a, n, count)
    ensures forall k :: (0 <= k < count && !Overlooked(a, m)) ==>
      (Beneath(par, First(plat, m), a, n, k) <==> InRun(first, ns[a].ncpus, k))
    ensures 0 <= ns[a].ncpus <= count
    ensures !Overlooked(a, m) && 0 < ns[a].ncpus ==> 0 <= first && first + ns[a].ncpus <= count
    ensures !Overlooked(a, m) && 0 < ns[a].ncpus ==>
      0 <= ns[a].cpuStart < |ns| && ns[a].present == ns[ns[a].cpuStart].present
    ensures Overlooked(a, m) && 0 < ns[a].ncpus ==> ns[a].cpuStart == 0 < First(plat, m) && !ns[a].present
  {
    hide First;
    var base := First(plat, m);
    FirstMonotone(plat, m, m + 1);
    assert LimitsOk(ns, par, base, m, m - (m - n), a, count);
    CpusConsecutive(par, plat, m, a, n, count);
    if Overlooked(a, m) { FirstMonotone(plat, 1, m); FirstMonotone(plat, m - n + 1, m); }
  }

  // Where a walk over a range has come to.
  function UpTo(cpu: int, to: int): int { if cpu == PWR_DOMAIN_INIT then to else cpu }

  predicate IsPresentIn(ns: seq<Node>, from: int, to: int, x: int) {
    from <= x < to && 0 <= x < |ns| && ns[x].present
  }

  // Node `x` is a present CPU beneath domain `a`, `n` levels above.
  ghost predicate IsPresentBeneath(ns: seq<Node>, par: seq<int>, base: int, a: int, n: int, x: int) {
    base <= x < |ns| && 0 <= x && Beneath(par, base, a, n, x - base) && ns[x].present
  }

  // The nodes of the recorded run of a domain are the CPUs beneath it.
  lemma DomainRange(ns: seq<Node>, par: seq<int>, plat: seq<int>, m: int, n: int, a: int)
    requires Linked(ns, par, plat, m) && AllOk(ns, par, plat, m, First(plat, m + 1) - First(plat, m), m - 1)
    requires 0 < n <= m && AtDepth(plat, m - n, a) && 0 <= a < |ns| == First(plat, m + 1) && 0 <= First(plat, m)
    requires !Overlooked(a, m) && 0 < ns[a].ncpus
    ensures 0 <= ns[a].cpuStart && ns[a].cpuStart + ns[a].ncpus <= |ns| < TWO32
    ensures forall x ::
      IsPresentBeneath(ns, par, First(plat, m), a, n, x) <==>
        IsPresentIn(ns, ns[a].cpuStart, ns[a].cpuStart + ns[a].ncpus, x)
  {
    hide First, AllOk, Beneath;
    var base, count := First(plat, m), First(plat, m + 1) - First(plat, m);
    var first := ns[a].cpuStart - base;
    DomainLimits(ns, par, plat, m, count, n, a, first);
    FirstMonotone(plat, m, m + 1);
    forall x
      ensures IsPresentBeneath(ns, par, base, a, n, x) <==>
        IsPresentIn(ns, ns[a].cpuStart, ns[a].cpuStart + ns[a].ncpus, x)
    {
      assert 0 <= x - base < count ==> (Beneath(par, base, a, n, x - base) <==> InRun(first, ns[a].ncpus, x - base));
    }
  }

  // First entry of the description that belongs to a parent of this depth.
  function ParentsFrom(plat: seq<int>, d: int): int {
    if d <= 0 then 0 else First(plat, d - 1) + 1
  }

  lemma LevelBounds(plat: seq<int>, m: int, d: int)
    requires Described(plat, m) && 0 <= d <= m
    ensures Sum(plat, ParentsFrom(plat, d)) == First(plat, d)
    ensures 0 <= ParentsFrom(plat, d) <= First(plat, d) + 1 <= |plat|
    ensures 0 <= First(plat, d) <= First(plat, d + 1) == Sum(plat, First(plat, d) + 1) <= First(plat, m + 1)
  {
    FirstMonotone(plat, d, m);
    FirstMonotone(plat, d + 1, m + 1);
    FirstMonotone(plat, d, d + 1);
    if d > 0 { FirstMonotone(plat, d - 1, d); }
  }

  // Nodes of smaller depths come first.
  lemma EarlierDepths(plat: seq<int>, d: int)
    requires (forall i :: 0 <= i < |plat| ==> 0 <= plat[i]) && 0 <= d
    ensures forall e, x {:trigger AtDepth(plat, e, x)} :: 0 <= e < d && AtDepth(plat, e, x) ==> x < First(plat, d)
    ensures 0 <= First(plat, d) <= First(plat, d + 1)
  {
    FirstMonotone(plat, d, d + 1);
    forall e, x {:trigger AtDepth(plat, e, x)} | 0 <= e < d && AtDepth(plat, e, x)
      ensures x < First(plat, d)
    {
      FirstMonotone(plat, e + 1, d);
    }
  }
}

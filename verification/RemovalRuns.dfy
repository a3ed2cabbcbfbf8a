/**
 Runs of removals: which counts keep the pool in order whatever is removed.
 */
module RemovalRuns {
  import opened Folding
  import opened Tables
  import opened Counts
  import opened Regions
  import opened TableState
  import opened Accounting
  import opened PoolOrder
  import opened Context

  // A context: its state, translation and list.
  datatype Snapshot = Snapshot(st: State, T: Trans, L: seq<Region>)

  ghost predicate InOrder(c: Snapshot) {
    Good(c.st, c.T, c.L) && c.st.dynamic
  }

  // c' is c without a dynamic region.
  ghost predicate RemovesOne(c: Snapshot, c': Snapshot) {
    InOrder(c) && exists p: nat ::
      p < |c.L| && IsDynamic(c.L[p]) && c'.L == Delete(c.L, p) && RemoveSuccess(c.st, c'.st, c.T, c'.T, c.L, p)
  }

  ghost predicate RemovalRun(run: seq<Snapshot>) {
    0 < |run| && forall i :: 0 <= i < |run| - 1 ==> RemovesOne(run[i], run[i + 1])
  }

  lemma OneRemoved(c: Snapshot, c': Snapshot)
    requires RemovesOne(c, c')
    ensures Steady(c.st, c.L) ==> InOrder(c')
    ensures InOrder(c') <==> !Stale(c'.st)
    ensures InOrder(c') ==> (Steady(c'.st, c'.L) <==> Steady(c.st, c.L))
  {
    hide Good, Steady, Stale, Unseating;
    assert Look(0);
  }

  // In order and with static regions only, a pool cannot be made stale.
  lemma StaticsSteady(c: Snapshot)
    requires InOrder(c) && forall q :: q in c.L ==> !IsDynamic(q)
    ensures Steady(c.st, c.L)
  {
    assert Look(0);
    forall k: nat, s: nat
      ensures !Loose(c.st.tabs, c.st.cnt, c.L, k, s)
    {
      if Loose(c.st.tabs, c.st.cnt, c.L, k, s) {
        var lo, hi := PlaceLo(c.st.tabs.place[s]), PlaceHi(c.st.tabs.place[s]);
        assert !StaticMeets(c.L, lo, hi) && c.st.cnt[s] > 0;
        NoneMeet(c.L, lo, hi);
      }
    }
  }

  // It ends where no dynamic region is left, or where the pool is out of order.
  ghost predicate Complete(run: seq<Snapshot>)
    requires 0 < |run|
  {
    InOrder(run[|run| - 1]) ==> forall q :: q in run[|run| - 1].L ==> !IsDynamic(q)
  }

  // Removals keep a pool with harmless counts in order, whichever they are and in
  // whichever order.  With other counts, removing the dynamic regions one by one
  // ends with a stale table.
  lemma {:induction false} SteadyRun(run: seq<Snapshot>)
    requires RemovalRun(run) && InOrder(run[0])
    ensures Steady(run[0].st, run[0].L) ==> InOrder(run[|run| - 1]) && Steady(run[|run| - 1].st, run[|run| - 1].L)
    ensures Complete(run) ==> (InOrder(run[|run| - 1]) <==> Steady(run[0].st, run[0].L))
    ensures Complete(run) ==> (Stale(run[|run| - 1].st) <==> !Steady(run[0].st, run[0].L))
    decreases |run|
  {
    hide Good, Steady, Stale, RemovesOne, InOrder;
    InOrderFresh(run[0]);
    if |run| == 1 {
      if forall q :: q in run[0].L ==> !IsDynamic(q) {
        StaticsSteady(run[0]);
      }
    } else {
      assert RemovesOne(run[0], run[1]);
      OneRemoved(run[0], run[1]);
      if InOrder(run[1]) {
        assert RemovalRun(run[1..]) by {
          forall i | 0 <= i < |run[1..]| - 1
            ensures RemovesOne(run[1..][i], run[1..][i + 1])
          {
            assert RemovesOne(run[i + 1], run[i + 2]);
          }
        }
        SteadyRun(run[1..]);
      } else {
        Broken(run);
      }
    }
  }

  lemma InOrderFresh(c: Snapshot)
    requires InOrder(c)
    ensures !Stale(c.st)
  {
    assert Look(0);
    if Stale(c.st) {
      StaleUnready(c.st, c.T);
    }
  }

  // A run ends where the pool is out of order.
  lemma Broken(run: seq<Snapshot>)
    requires RemovalRun(run) && 1 < |run| && !InOrder(run[1])
    ensures |run| == 2
  {
    assert 2 < |run| ==> RemovesOne(run[1], run[2]);
  }
}

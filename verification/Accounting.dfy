/**
 The region counts of the pool against the list of regions, over additions and
 removals, successful or not.
 */
module Accounting {
  import opened Folding
  import opened Geometry
  import opened Tables
  import opened Mapping
  import opened Counts
  import opened Regions
  import opened Denotation
  import opened TableState
  import opened MapLoop
  import opened UnmapState
  import opened UnmapLoop
  import BreakBeforeMake

  // Listed regions meeting table `s`.
  function Users(t: Tabs, L: seq<Region>, s: nat): int
    requires s in t.place
  {
    Meeting(L, PlaceLo(t.place[s]), PlaceHi(t.place[s]))
  }

  // Every linked table counts at least the listed regions that meet it.
  ghost predicate Accounted(t: Tabs, cnt: seq<int>, L: seq<Region>) {
    |cnt| == |t.subs| && Sized(t) &&
    forall s {:trigger t.place[s]} :: s in t.place && s < |cnt| ==> cnt[s] >= Users(t, L, s)
  }

  // Every linked table counts exactly the listed regions that meet it.
  ghost predicate Exact(t: Tabs, cnt: seq<int>, L: seq<Region>) {
    |cnt| == |t.subs| && Sized(t) &&
    forall s {:trigger t.place[s]} :: s in t.place && s < |cnt| ==> cnt[s] == Users(t, L, s)
  }

  lemma NoUsers(L: seq<Region>, T: Trans, p: Place)
    requires Denotes(T, L) && Vacant(p, T) && 0 <= p.level <= 3 && forall q :: q in L ==> 0 < q.size
    ensures Meeting(L, PlaceLo(p), PlaceHi(p)) == 0
  {
    Monotone(p.level, 512 * p.num, 512 * p.num + 512);
    forall i | 0 <= i < |L|
      ensures !Meets(L[i], PlaceLo(p), PlaceHi(p))
    {
      NotUsed(L, T, PlaceLo(p), PlaceHi(p), i);
    }
    NoneMeet(L, PlaceLo(p), PlaceHi(p));
  }

  lemma NotUsed(L: seq<Region>, T: Trans, lo: int, hi: int, i: int)
    requires Denotes(T, L) && (forall va :: lo <= va < hi ==> va !in T) && lo < hi
    requires 0 <= i < |L| && 0 < L[i].size
    ensures !Meets(L[i], lo, hi)
  {
    var x := if L[i].baseVa > lo then L[i].baseVa else lo;
    FirstIsFirst(L, x);
    assert First(L, x).Some? <==> x in T;
  }

  lemma {:induction false} NoneMeet(L: seq<Region>, lo: int, hi: int)
    requires forall i :: 0 <= i < |L| ==> !Meets(L[i], lo, hi)
    ensures Meeting(L, lo, hi) == 0
  {
    if L != [] {
      NoneMeet(L[..|L| - 1], lo, hi);
    }
  }

  // L' lists the regions of L and R.
  ghost predicate Adds(L: seq<Region>, L': seq<Region>, R: Region) {
    forall lo, hi {:trigger Meeting(L', lo, hi)} :: Meeting(L', lo, hi) == Meeting(L, lo, hi) + One(Meets(R, lo, hi))
  }

  lemma InsertAdds(L: seq<Region>, L': seq<Region>, p: nat)
    requires p < |L'| && L == Delete(L', p)
    ensures Adds(L, L', L'[p])
  {
    forall lo, hi
      ensures Meeting(L', lo, hi) == Meeting(L, lo, hi) + One(Meets(L'[p], lo, hi))
    {
      MeetingDelete(L', p, lo, hi);
    }
  }

  lemma AppendAdds(L: seq<Region>, R: Region)
    ensures Adds(L, L + [R], R)
  {
    assert (L + [R])[..|L + [R]| - 1] == L;
  }

  // Counts at the start of a mapping: zero for free tables.
  function StartCounts(st: State): seq<int> {
    if st.dynamic then st.cnt else seq(|st.tabs.subs|, _ => 0)
  }

  // ---- one region more -----------------------------------------------------

  lemma TopPre(st: State, T: Trans, R: Region)
    requires Ready(st, T, Base) && Mappable(T, R) && R.baseVa < RefHi(st.tabs, Base)
    ensures RegionPre(st, T, StartCounts(st), R, Base) && RefLo(st.tabs, Base) == 0
  {
    Values(st.tabs.baseLevel, 0);
    UptoStart(T, R, 0);
    var c0 := StartCounts(st);
    forall s | s in st.tabs.place
      ensures !Seen(st.tabs.place[s], R, 0, st.tabs.baseLevel - 1, 0)
    {
    }
  }

  // The count of a linked table, 0 for another one.
  function CountOf(st: State, s: nat): int {
    if s in st.tabs.place && s < |st.cnt| then st.cnt[s] else 0
  }

  // After a mapping that succeeded.
  ghost predicate Grown(st: State, st': State, T: Trans, R: Region) {
    && Ready(st', Upto(T, R, R.EndVa()), Base) && Extends(st.tabs, st'.tabs, T, R) && st'.dynamic == st.dynamic
    && (st.dynamic ==> forall s {:trigger st'.tabs.place[s]} :: s in st'.tabs.place && s < |st'.cnt| ==>
          st'.cnt[s] == CountOf(st, s) + One(Meets(R, PlaceLo(st'.tabs.place[s]), PlaceHi(st'.tabs.place[s]))))
  }

  lemma TopMapped(st: State, st': State, T: Trans, R: Region, end: int, to: int)
    requires Ready(st, T, Base) && Mappable(T, R) && R.EndVa() <= RefHi(st.tabs, Base) && st'.dynamic == st.dynamic
    requires RegionPost(st.tabs, st', T, StartCounts(st), R, st.tabs.baseLevel, 0, RefHi(st.tabs, Base), end, to)
    ensures end == R.EndVa() - 1 <==> end != to
    ensures end == R.EndVa() - 1 ==> Grown(st, st', T, R)
  {
    hide Agree, Upto, Compatible, Vacant, Lo, Unique, Parents, Children, LeafFor, FreshZero, Stuck;
    assert Extends(st.tabs, st'.tabs, T, R) by { assert Look(0); }
    assert Mapped(st', T, StartCounts(st), R, 0, RefHi(st.tabs, Base), st.tabs.baseLevel - 1, end, to) by {
      assert Look(0);
    }
    AlignedEnd(R);
    if end != to && st.dynamic {
      assert to == R.EndVa();
      forall s | s in st'.tabs.place && s < |st'.cnt|
        ensures st'.cnt[s] == CountOf(st, s) + One(Meets(R, PlaceLo(st'.tabs.place[s]), PlaceHi(st'.tabs.place[s])))
      {
        assert Seen(st'.tabs.place[s], R, to, st.tabs.baseLevel - 1, 0) ==
          Meets(R, PlaceLo(st'.tabs.place[s]), PlaceHi(st'.tabs.place[s]));
      }
    }
  }

  lemma AlignedEnd(R: Region)
    requires Aligned4K(R)
    ensures R.EndVa() % 0x1000 == 0 && (R.EndVa() - 1) % 0x1000 != 0
  {
  }

  lemma GrownUsers(st: State, st': State, T: Trans, R: Region, L: seq<Region>, L': seq<Region>, s: nat)
    requires Grown(st, st', T, R) && Denotes(T, L) && Adds(L, L', R) && (forall q :: q in L ==> 0 < q.size)
    requires st.dynamic
    requires |st.cnt| == |st.tabs.subs| && Sized(st.tabs)
    requires s in st'.tabs.place
    ensures s < |st'.cnt|
    ensures s in st.tabs.place ==>
      s < |st.cnt| && st'.cnt[s] - Users(st'.tabs, L', s) == st.cnt[s] - Users(st.tabs, L, s)
    ensures s !in st.tabs.place ==> st'.cnt[s] == Users(st'.tabs, L', s)
  {
    var p := st'.tabs.place[s];
    assert Meeting(L', PlaceLo(p), PlaceHi(p)) ==
      Meeting(L, PlaceLo(p), PlaceHi(p)) + One(Meets(R, PlaceLo(p), PlaceHi(p)));
    if s !in st.tabs.place {
      NoUsers(L, T, p);
    }
  }

  // A successful addition keeps the accounts, and exact accounts exact.
  lemma GrownAccounted(st: State, st': State, T: Trans, R: Region, L: seq<Region>, L': seq<Region>)
    requires Grown(st, st', T, R) && Denotes(T, L) && Adds(L, L', R) && (forall q :: q in L ==> 0 < q.size)
    requires st.dynamic
    requires Tree(st.tabs) && Accounted(st.tabs, st.cnt, L)
    ensures Accounted(st'.tabs, st'.cnt, L')
    ensures Exact(st.tabs, st.cnt, L) ==> Exact(st'.tabs, st'.cnt, L')
  {
    var t, t' := st.tabs, st'.tabs;
    forall s | s in t'.place
      ensures s < |st'.cnt| && st'.cnt[s] >= Users(t', L', s)
      ensures Exact(t, st.cnt, L) ==> st'.cnt[s] == Users(t', L', s)
    {
      GrownUsers(st, st', T, R, L, L', s);
    }
  }

  // Every table above a linked table is linked as well, so a table that is new
  // has only new tables below it.
  lemma OldAbove(t: Tabs, t': Tabs, k: nat, s: nat)
    requires Tree(t) && Sized(t') && Unique(t') && t'.baseLevel == t.baseLevel
    requires forall j :: j in t.place ==> j in t'.place && t'.place[j] == t.place[j]
    requires k in t.place && s in t'.place && s !in t.place
    ensures !Inside(t.place[k], t'.place[s].level, t'.place[s].num)
  {
    if Inside(t.place[k], t'.place[s].level, t'.place[s].num) {
      AboveLinked(t, k, t'.place[s].level, t'.place[s].num);
      assert false;
    }
  }

  lemma SameNumber(level: int, a: int, b: int)
    requires 0 <= level <= 3 && TableLo(level, b) <= TableLo(level, a) < TableHi(level, b)
    ensures a == b
  {
    Monotone(level, 512 * b, 512 * a);
    Monotone(level, 512 * a, 512 * b);
    Monotone(level, 512 * a, 512 * b + 512);
  }

  lemma {:induction false} AboveLinked(t: Tabs, k: nat, level: int, n: int)
    requires Tree(t) && k in t.place && t.baseLevel < level && Inside(t.place[k], level, n)
    ensures exists j :: j in t.place && t.place[j].level == level && t.place[j].num == n
    decreases t.place[k].level
  {
    var p := t.place[k];
    hide Lo, Unique, Children;
    if p.level == level {
      SameNumber(level, p.num, n);
    } else {
      var q, j := LinkOf(t, k);
      LevelBounds(t, q);
      InsideAbove(At(t, q), Num(t, q, j), p, level, n);
      AboveLinked(t, q.idx, level, n);
    }
  }

  // If a table is inside another one of an upper level, so is the table above it.
  lemma InsideAbove(u: Place, e: int, p: Place, level: int, n: int)
    requires 0 <= level <= u.level <= 2 && p.level == u.level + 1 && p.num == e && 512 * u.num <= e < 512 * u.num + 512
    requires Inside(p, level, n)
    ensures Inside(u, level, n)
  {
    InTable(u.level, u.num, e);
    TablesNest(level, 512 * n, 512 * n + 512, u.level, u.num);
  }

  // ---- one region less -----------------------------------------------------

  lemma TopDrainPre(st: State, J: Job, L: seq<Region>)
    requires Ready(st, J.T, Base) && st.dynamic && Owners(J) && J.R.baseVa < RefHi(st.tabs, Base)
    requires J.home == st.tabs.place && J.c0 == st.cnt && J.rows == st.tabs.subs
    requires Enough(st.tabs, J) && (J.tidy ==> Nested(st.tabs, J))
    ensures DrainPre(st, J, Base) && RefLo(st.tabs, Base) == 0
  {
    hide Owned, Lo, Agree, Without, Children, Parents, Unique, Meeting, Enough, Nested;
    Values(st.tabs.baseLevel, 0);
    WithoutStart(J);
    forall s | s in st.tabs.place
      ensures !Left(st.tabs.place[s], J.R, 0, st.tabs.baseLevel - 1, 0)
    {
    }
  }

  lemma WithoutStart(J: Job)
    requires 0 <= J.R.baseVa
    ensures Without(J.T, J.R, 0) == J.T
  {
  }

  lemma JobAccounts(st: State, J: Job, L: seq<Region>)
    requires Accounted(st.tabs, st.cnt, L) && Adds(J.L, L, J.R) && J.c0 == st.cnt
    ensures Enough(st.tabs, J)
  {
    forall s | s in st.tabs.place
      ensures Due(st.tabs, J, s) == Users(st.tabs, L, s)
    {
    }
  }

  // The counts once a region has been unmapped everywhere.
  lemma TopDrained(t: Tabs, st: State, J: Job)
    requires Sized(t) && J.R.EndVa() <= RefHi(t, Base)
    requires DrainPost(t, st, J, Base, t.baseLevel, 0, RefHi(t, Base))
    ensures Tree(st.tabs) && Agree(st.tabs, Without(J.T, J.R, J.R.EndVa())) && BreakBeforeMake.Settled(st.trace)
    ensures Shrinks(t, st.tabs) && Enough(st.tabs, J) && st.dynamic && |st.cnt| == |st.tabs.subs| && Untouched(st, J)
    ensures Residue(st, J, Base)
    ensures forall s {:trigger st.tabs.place[s]} :: s in st.tabs.place && s < |st.cnt| && s < |J.c0| ==>
      st.cnt[s] == J.c0[s] - One(Meets(J.R, PlaceLo(st.tabs.place[s]), PlaceHi(st.tabs.place[s])))
    ensures J.tidy ==> Ready(st, Without(J.T, J.R, J.R.EndVa()), Base)
  {
    hide Untouched, Nested, Residue, Enough, Agree, Clean, Booked, Unique;
    assert Shrinks(t, st.tabs) && Draining(st, J, RefHi(t, Base), t.baseLevel - 1, 0, Base) by { assert Look(0); }
    assert Without(J.T, J.R, RefHi(t, Base)) == Without(J.T, J.R, J.R.EndVa());
    forall s | s in st.tabs.place
      ensures Left(st.tabs.place[s], J.R, RefHi(t, Base), t.baseLevel - 1, 0)
           == Meets(J.R, PlaceLo(st.tabs.place[s]), PlaceHi(st.tabs.place[s]))
    {
    }
  }

  // A removal keeps the accounts, and exact accounts exact.
  lemma DrainedAccounted(t: Tabs, st: State, J: Job)
    requires Sized(t) && J.R.EndVa() <= RefHi(t, Base)
    requires DrainPost(t, st, J, Base, t.baseLevel, 0, RefHi(t, Base))
    ensures Accounted(st.tabs, st.cnt, J.L)
    ensures (forall s {:trigger t.place[s]} :: s in t.place && s < |J.c0| ==> J.c0[s] == Due(t, J, s)) ==>
      Exact(st.tabs, st.cnt, J.L)
  {
    hide Draining, Untouched, Unique, Booked, Residue;
    TopDrained(t, st, J);
    var t' := st.tabs;
    forall s | s in t'.place
      ensures s < |st.cnt| && st.cnt[s] - Users(t', J.L, s) == J.c0[s] - Due(t', J, s) && Due(t', J, s) == Due(t, J, s)
    {
      assert t'.place[s] == t.place[s];
    }
  }

  // ---- an addition that ran out of tables ----------------------------------

  // The part of R that was mapped, as the source describes it to the unmapper.
  function Rollback(R: Region, f: int): Region {
    Region(0, R.baseVa, f - R.baseVa, 0, 0)
  }

  ghost predicate Failed(st: State, st': State, T: Trans, R: Region, f: int) {
    && Ready(st', Upto(T, R, f), Base) && Extends(st.tabs, st'.tabs, T, R) && st'.dynamic && st.dynamic
    && f % 0x1000 == 0 && 0 <= f < R.EndVa() && Stuck(st'.tabs, R, f) && Exhausted(st')
    && forall s {:trigger st'.tabs.place[s]} :: s in st'.tabs.place && s < |st'.cnt| ==>
         st'.cnt[s] == CountOf(st, s) + One(SeenAtFailure(st'.tabs.place[s], R, f))
  }

  lemma TopFailed(st: State, st': State, T: Trans, R: Region, end: int, to: int)
    requires Ready(st, T, Base) && Mappable(T, R) && R.EndVa() <= RefHi(st.tabs, Base) && st.dynamic && st'.dynamic
    requires RegionPost(st.tabs, st', T, StartCounts(st), R, st.tabs.baseLevel, 0, RefHi(st.tabs, Base), end, to)
    requires end != R.EndVa() - 1
    ensures end == to && Failed(st, st', T, R, end)
  {
    TopMapped(st, st', T, R, end, to);
    assert Extends(st.tabs, st'.tabs, T, R) by { assert Look(0); }
    assert Mapped(st', T, StartCounts(st), R, 0, RefHi(st.tabs, Base), st.tabs.baseLevel - 1, end, to) by {
      assert Look(0);
    }
  }

  lemma FailUsers(st: State, st': State, T: Trans, R: Region, f: int, L: seq<Region>, s: nat)
    requires Failed(st, st', T, R, f) && Denotes(T, L) && (forall q :: q in L ==> 0 < q.size)
    requires |st.cnt| == |st.tabs.subs| && Sized(st.tabs)
    requires s in st'.tabs.place
    ensures s < |st'.cnt|
    ensures s in st.tabs.place ==>
      (s < |st.cnt|
        && st'.cnt[s] - Users(st'.tabs, L, s) ==
          st.cnt[s] - Users(st.tabs, L, s) + One(SeenAtFailure(st'.tabs.place[s], R, f)))
    ensures s !in st.tabs.place ==> st'.cnt[s] - Users(st'.tabs, L, s) == One(SeenAtFailure(st'.tabs.place[s], R, f))
  {
    if s !in st.tabs.place {
      NoUsers(L, T, st'.tabs.place[s]);
    }
  }

  // A table that starts at `f`, below one that starts in front of it.
  ghost predicate Astride(t: Tabs, f: int, k: nat, s: nat) {
    && k in t.place && s in t.place && Inside(t.place[k], t.place[s].level, t.place[s].num)
    && PlaceLo(t.place[k]) == f && PlaceLo(t.place[s]) < f
  }

  // Such a table at the address where the mapping stopped, below a new table.
  ghost predicate Orphan(t: Tabs, t': Tabs, f: int, k: nat, s: nat) {
    Astride(t', f, k, s) && s !in t.place
  }

  ghost predicate Orphans(t: Tabs, t': Tabs, f: int) {
    exists k, s :: Orphan(t, t', f, k, s)
  }

  // The overcount of a table before the addition, 0 for a new one.
  function Slack(st: State, L: seq<Region>, s: nat): int {
    if s in st.tabs.place && s < |st.cnt| then st.cnt[s] - Users(st.tabs, L, s) else 0
  }

  lemma SlackHolds(st: State, st': State, T: Trans, R: Region, f: int, L: seq<Region>, k: nat, s: nat)
    requires Failed(st, st', T, R, f) && Tree(st.tabs) && Accounted(st.tabs, st.cnt, L)
    requires k in st'.tabs.place && s in st'.tabs.place
    requires Inside(st'.tabs.place[k], st'.tabs.place[s].level, st'.tabs.place[s].num)
    ensures 0 <= Slack(st, L, k) && 0 <= Slack(st, L, s) && (k in st.tabs.place ==> s in st.tabs.place)
  {
    if k in st.tabs.place && s !in st.tabs.place {
      OldAbove(st.tabs, st'.tabs, k, s);
    }
  }

  lemma InsideHolds(t: Tabs, k: nat, s: nat)
    requires Sized(t) && k in t.place && s in t.place && Inside(t.place[k], t.place[s].level, t.place[s].num)
    ensures PlaceLo(t.place[s]) <= PlaceLo(t.place[k]) < PlaceHi(t.place[k]) <= PlaceHi(t.place[s])
  {
    InsideRange(t.place[s].level, t.place[s].num, t.place[k]);
    Monotone(t.place[k].level, 512 * t.place[k].num, 512 * t.place[k].num + 512);
  }

  // Nothing of the region was mapped: the accounts still hold.
  lemma FailedEarly(st: State, st': State, T: Trans, R: Region, f: int, L: seq<Region>)
    requires Failed(st, st', T, R, f) && Denotes(T, L) && (forall q :: q in L ==> 0 < q.size)
    requires Tree(st.tabs) && Accounted(st.tabs, st.cnt, L) && f <= R.baseVa
    ensures Ready(st', T, Base) && Accounted(st'.tabs, st'.cnt, L)
  {
    hide Sized, Denotes, Stuck;
    UptoStart(T, R, f);
    var t := st'.tabs;
    forall s | s in t.place
      ensures s < |st'.cnt| && st'.cnt[s] - Users(t, L, s) == Slack(st, L, s) + One(SeenAtFailure(t.place[s], R, f))
      ensures st'.cnt[s] >= Users(t, L, s)
    {
      FailUsers(st, st', T, R, f, L, s);
    }
  }

  ghost function RollbackJob(st: State, T: Trans, R: Region, f: int, L: seq<Region>, tidy: bool): Job {
    Job(Upto(T, R, f), Rollback(R, f), R, L, st.tabs.place, st.tabs.subs, st.cnt, tidy)
  }

  lemma RollbackOwners(st: State, T: Trans, R: Region, f: int, L: seq<Region>, tidy: bool)
    requires Aligned4K(R) && f % 0x1000 == 0 && R.baseVa < f < R.EndVa() && Denotes(T, L) && Apart(L, R)
    requires forall q :: q in L ==> Disjoint(R.baseVa, R.EndVa(), q.baseVa, q.EndVa())
    ensures Owners(RollbackJob(st, T, R, f, L, tidy))
    ensures Without(Upto(T, R, f), Rollback(R, f), f) == T
  {
    hide First;
    var U, Q := Upto(T, R, f), Rollback(R, f);
    forall va | va in T
      ensures T[va].r in L && T[va].r.Contains(va) && !R.Contains(va) && T[va].r != R
    {
      assert First(L, va).Some?;
      FirstIsFirst(L, va);
    }
    forall va | va in U
      ensures Q.Contains(va) <==> U[va].r == R
    {
    }
    AlignedDifference(f, R.baseVa);
  }

  lemma AlignedDifference(a: int, b: int)
    requires a % 0x1000 == 0 && b % 0x1000 == 0
    ensures (a - b) % 0x1000 == 0
  {
  }

  // Counts against what the unmapper of the rollback will take off.
  lemma RollbackCounts(st: State, st': State, T: Trans, R: Region, f: int, L: seq<Region>, tidy: bool, s: nat)
    requires Failed(st, st', T, R, f) && Denotes(T, L) && (forall q :: q in L ==> 0 < q.size)
    requires Tree(st.tabs) && Accounted(st.tabs, st.cnt, L) && R.baseVa < f && s in st'.tabs.place
    ensures s < |st'.cnt|
    ensures st'.cnt[s] - Due(st'.tabs, RollbackJob(st', T, R, f, L, tidy), s) ==
      Slack(st, L, s) + One(PlaceLo(st'.tabs.place[s]) == f)
    ensures 0 <= Slack(st, L, s)
  {
    FailUsers(st, st', T, R, f, L, s);
    var p := st'.tabs.place[s];
    SeenNotUndone(p, R, f);
    assert RollbackJob(st', T, R, f, L, tidy).R == Rollback(R, f) && RollbackJob(st', T, R, f, L, tidy).L == L;
  }

  // Of the tables counted by the failed mapping, the rollback of [baseVa, f) misses
  // those that start at `f`.
  lemma SeenNotUndone(p: Place, R: Region, f: int)
    requires 0 <= p.level <= 3 && R.baseVa < f
    ensures One(SeenAtFailure(p, R, f)) == One(Meets(Rollback(R, f), PlaceLo(p), PlaceHi(p))) + One(PlaceLo(p) == f)
  {
    Monotone(p.level, 512 * p.num, 512 * p.num + 512);
  }

  lemma RollbackEnough(st: State, st': State, T: Trans, R: Region, f: int, L: seq<Region>, tidy: bool)
    requires Failed(st, st', T, R, f) && Denotes(T, L) && (forall q :: q in L ==> 0 < q.size)
    requires Tree(st.tabs) && Accounted(st.tabs, st.cnt, L) && R.baseVa < f
    ensures Enough(st'.tabs, RollbackJob(st', T, R, f, L, tidy))
  {
    hide Accounted, Denotes, Extends, Agree, Stuck;
    var J := RollbackJob(st', T, R, f, L, tidy);
    forall s | s in st'.tabs.place
      ensures s < |st'.cnt| && J.c0[s] >= Due(st'.tabs, J, s)
    {
      RollbackCounts(st, st', T, R, f, L, tidy, s);
    }
  }

  // The rollback keeps the pool in order exactly if there is no orphan.
  lemma RollbackNested(st: State, st': State, T: Trans, R: Region, f: int, L: seq<Region>, tidy: bool)
    requires Failed(st, st', T, R, f) && Denotes(T, L) && (forall q :: q in L ==> 0 < q.size)
    requires Ready(st, T, Base) && Accounted(st.tabs, st.cnt, L) && R.baseVa < f
    ensures Nested(st'.tabs, RollbackJob(st', T, R, f, L, tidy)) <==> !Orphans(st.tabs, st'.tabs, f)
  {
    if Orphans(st.tabs, st'.tabs, f) {
      OrphansUnnest(st, st', T, R, f, L, tidy);
    } else {
      NoneNests(st, st', T, R, f, L, tidy);
    }
  }

  lemma OrphansUnnest(st: State, st': State, T: Trans, R: Region, f: int, L: seq<Region>, tidy: bool)
    requires Failed(st, st', T, R, f) && Denotes(T, L) && (forall q :: q in L ==> 0 < q.size)
    requires Ready(st, T, Base) && Accounted(st.tabs, st.cnt, L) && R.baseVa < f && Orphans(st.tabs, st'.tabs, f)
    ensures !Nested(st'.tabs, RollbackJob(st', T, R, f, L, tidy))
  {
    hide Accounted, Denotes, Extends, Agree, Stuck, Booked, Clean, Children, Parents, Unique, Lo, Meeting;
    var t := st'.tabs;
    var k, s :| Orphan(st.tabs, t, f, k, s);
    OrphanOver(st, st', T, R, f, L, tidy, k, s);
    assert Inside(t.place[k], t.place[s].level, t.place[s].num);
  }

  lemma NoneNests(st: State, st': State, T: Trans, R: Region, f: int, L: seq<Region>, tidy: bool)
    requires Failed(st, st', T, R, f) && Denotes(T, L) && (forall q :: q in L ==> 0 < q.size)
    requires Ready(st, T, Base) && Accounted(st.tabs, st.cnt, L) && R.baseVa < f && !Orphans(st.tabs, st'.tabs, f)
    ensures Nested(st'.tabs, RollbackJob(st', T, R, f, L, tidy))
  {
    hide Accounted, Denotes, Extends, Agree, Stuck, Booked, Clean, Children, Parents, Unique, Lo, Meeting;
    var t, J := st'.tabs, RollbackJob(st', T, R, f, L, tidy);
    forall k, s {:trigger Inside(t.place[k], t.place[s].level, t.place[s].num)} |
      k in t.place && s in t.place && Inside(t.place[k], t.place[s].level, t.place[s].num) && J.c0[k] > Due(t, J, k)
      ensures J.c0[s] > Due(t, J, s) || Meeting(J.L, PlaceLo(t.place[s]), PlaceHi(t.place[s])) > 0
    {
      if !(J.c0[s] > Due(t, J, s) || Meeting(J.L, PlaceLo(t.place[s]), PlaceHi(t.place[s])) > 0) {
        OverIsOrphan(st, st', T, R, f, L, tidy, k, s);
        assert false;
      }
    }
  }

  // A table that the rollback will leave counted, below one that it will not, is
  // an orphan.
  lemma OverIsOrphan(st: State, st': State, T: Trans, R: Region, f: int, L: seq<Region>, tidy: bool, k: nat, s: nat)
    requires Failed(st, st', T, R, f) && Denotes(T, L) && (forall q :: q in L ==> 0 < q.size)
    requires Ready(st, T, Base) && Accounted(st.tabs, st.cnt, L) && R.baseVa < f
    requires k in st'.tabs.place && s in st'.tabs.place && k < |st'.cnt| && s < |st'.cnt|
    requires Inside(st'.tabs.place[k], st'.tabs.place[s].level, st'.tabs.place[s].num)
    requires st'.cnt[k] > Due(st'.tabs, RollbackJob(st', T, R, f, L, tidy), k)
    requires st'.cnt[s] <= Due(st'.tabs, RollbackJob(st', T, R, f, L, tidy), s) && Users(st'.tabs, L, s) == 0
    ensures Orphan(st.tabs, st'.tabs, f, k, s)
  {
    hide Denotes, Stuck, Agree, Clean, Children, Parents, Unique;
    RollbackCounts(st, st', T, R, f, L, tidy, k);
    RollbackCounts(st, st', T, R, f, L, tidy, s);
    SlackHolds(st, st', T, R, f, L, k, s);
    InsideHolds(st'.tabs, k, s);
  }

  lemma OrphanOver(st: State, st': State, T: Trans, R: Region, f: int, L: seq<Region>, tidy: bool, k: nat, s: nat)
    requires Failed(st, st', T, R, f) && Denotes(T, L) && (forall q :: q in L ==> 0 < q.size)
    requires Ready(st, T, Base) && Accounted(st.tabs, st.cnt, L) && R.baseVa < f && Orphan(st.tabs, st'.tabs, f, k, s)
    ensures k < |st'.cnt| && s < |st'.cnt| && Users(st'.tabs, L, s) == 0
    ensures st'.cnt[k] > Due(st'.tabs, RollbackJob(st', T, R, f, L, tidy), k)
    ensures st'.cnt[s] <= Due(st'.tabs, RollbackJob(st', T, R, f, L, tidy), s)
  {
    RollbackCounts(st, st', T, R, f, L, tidy, k);
    RollbackCounts(st, st', T, R, f, L, tidy, s);
    NoUsers(L, T, st'.tabs.place[s]);
  }
}

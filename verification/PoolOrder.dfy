/**
 What unmapping does to the order of the pool: it stays in order exactly if no
 table that is dropped has a table below it that counts too much, and counts that
 no removal can turn against it.
 */
module PoolOrder {
  import opened Geometry
  import opened Tables
  import opened Mapping
  import opened Counts
  import opened Regions
  import opened Denotation
  import opened TableState
  import opened UnmapState
  import opened UnmapLoop
  import opened Accounting
  import BreakBeforeMake

  // ---- a pool out of order -------------------------------------------------

  // A free table still links another one, which counts a region but is linked
  // nowhere.
  ghost predicate StaleAt(st: State, s: nat, i: int, k: nat) {
    && |st.cnt| == |st.tabs.subs| && s < |st.cnt| && s !in st.tabs.place && st.cnt[s] == 0
    && 0 <= i < |st.tabs.subs[s]| && st.tabs.subs[s][i] == Table(k)
    && k < |st.cnt| && k !in st.tabs.place && 0 < st.cnt[k]
  }

  ghost predicate Stale(st: State) {
    exists s: nat, i, k :: StaleAt(st, s, i, k)
  }

  lemma StaleUnready(st: State, T: Trans)
    requires Stale(st)
    ensures !Ready(st, T, Base)
  {
    var s: nat, i, k :| StaleAt(st, s, i, k);
    assert st.tabs.subs[s][i] != Invalid;
  }

  // If such a table is linked at level 3, the mapper takes the old table descriptor
  // for a page that is mapped already and leaves it, so that no tree results.
  lemma StaleReused(st: State, s: nat, i: int, k: nat, r: Ref, j: int, R: Region, pa: int)
    requires StaleAt(st, s, i, k) && Sized(st.tabs) && Slot(st.tabs, r, j) && At(st.tabs, r).level == 2
    requires Covers(R, Lo(3, 512 * Num(st.tabs, r, j) + i), Lo(3, 512 * Num(st.tabs, r, j) + i + 1))
    ensures var w := PutLink(st, r, j, s);
      && Slot(w.tabs, Sub(s), i) && At(w.tabs, Sub(s)).level == 3 && Row(w.tabs, Sub(s))[i] == Table(k)
      && MapAction(R, DescType(Row(w.tabs, Sub(s))[i]), pa, EntryLo(w.tabs, Sub(s), i), 3) == ActionNone
      && !Tree(w.tabs)
  {
    var w := PutLink(st, r, j, s);
    assert Row(w.tabs, Sub(s))[i] == Table(k);
    Values(3, Num(w.tabs, Sub(s), i));
    Values(3, Num(w.tabs, Sub(s), i) + 1);
    assert !ChildOk(w.tabs, Sub(s), i);
  }

  // Table `k` counts more than the regions that are due there, a table `s` around
  // it does not, and no region that stays uses `s`.
  ghost predicate Unseats(t: Tabs, J: Job, k: nat, s: nat) {
    && k in t.place && s in t.place && k < |J.c0| && s < |J.c0|
    && Inside(t.place[k], t.place[s].level, t.place[s].num)
    && J.c0[k] > Due(t, J, k) && J.c0[s] <= Due(t, J, s) && Meeting(J.L, PlaceLo(t.place[s]), PlaceHi(t.place[s])) == 0
  }

  lemma NotNested(t: Tabs, J: Job)
    requires |J.c0| == |t.subs| && Sized(t)
    ensures Nested(t, J) <==> !exists k, s :: Unseats(t, J, k, s)
  {
    if !Nested(t, J) {
      var k, s :| k in t.place && s in t.place && Inside(t.place[k], t.place[s].level, t.place[s].num)
        && J.c0[k] > Due(t, J, k)
          && !(J.c0[s] > Due(t, J, s) || Meeting(J.L, PlaceLo(t.place[s]), PlaceHi(t.place[s])) > 0);
      assert Unseats(t, J, k, s);
    }
    if k, s :| Unseats(t, J, k, s) {
      assert Inside(t.place[k], t.place[s].level, t.place[s].num);
    }
  }

  // Among such tables there is one that links the other.
  lemma {:induction false} DirectPair(t: Tabs, J: Job, k: nat, s: nat) returns (k': nat, s': nat, j: int)
    requires Tree(t) && |J.c0| == |t.subs| && Unseats(t, J, k, s)
    ensures Unseats(t, J, k', s') && 0 <= j < |t.subs[s']| && t.subs[s'][j] == Table(k')
    decreases t.place[k].level
  {
    hide Children, Lo, Meeting, Due;
    PairLevels(t, J, k, s);
    var q;
    q, j := LinkOf(t, k);
    LevelBounds(t, q);
    InsideAbove(At(t, q), Num(t, q, j), t.place[k], t.place[s].level, t.place[s].num);
    k', s' := k, q.idx;
    if J.c0[q.idx] > Due(t, J, q.idx) {
      k', s', j := DirectPair(t, J, q.idx, s);
    } else {
      LowerUnseats(t, J, k, q.idx, s, q, j);
    }
  }

  lemma PairLevels(t: Tabs, J: Job, k: nat, s: nat)
    requires Tree(t) && |J.c0| == |t.subs| && Unseats(t, J, k, s)
    ensures t.baseLevel < t.place[s].level < t.place[k].level <= 3
  {
    hide Children, Parents, Lo, Meeting;
    if t.place[k].level == t.place[s].level {
      SameNumber(t.place[k].level, t.place[k].num, t.place[s].num);
    }
  }

  lemma LowerUnseats(t: Tabs, J: Job, k: nat, u: nat, s: nat, q: Ref, j: int)
    requires Tree(t) && |J.c0| == |t.subs| && Unseats(t, J, k, s) && u in t.place && q == Sub(u)
    requires Slot(t, q, j) && Row(t, q)[j] == Table(k) && Num(t, q, j) == t.place[k].num
    requires t.place[u].level == t.place[k].level - 1
    requires Inside(t.place[u], t.place[s].level, t.place[s].num) && J.c0[u] <= Due(t, J, u)
    ensures Unseats(t, J, k, u)
  {
    hide Children, Parents, Unique, Meeting;
    InsideHolds(t, u, s);
    MeetingWider(J.L, PlaceLo(t.place[u]), PlaceHi(t.place[u]), PlaceLo(t.place[s]), PlaceHi(t.place[s]));
    LevelBounds(t, q);
    SlotInRef(t, q, j);
  }

  // A table stays only if those above it do.
  lemma AboveStays(t: Tabs, t': Tabs, J: Job, k: nat, s: nat)
    requires Tree(t) && Tree(t') && k in t.place && s in t.place && J.home == t.place
    requires t'.baseLevel == t.baseLevel < t.place[s].level
    requires forall j {:trigger t'.place[j]} :: j in t'.place ==> j in J.home && t'.place[j] == J.home[j]
    requires Inside(t.place[k], t.place[s].level, t.place[s].num)
    ensures k in t'.place ==> s in t'.place
  {
    if k in t'.place {
      assert t'.place[k] == t.place[k];
      AboveLinked(t', k, t.place[s].level, t.place[s].num);
      var j :| j in t'.place && t'.place[j].level == t.place[s].level && t'.place[j].num == t.place[s].num;
      assert j in t.place && t.place[j] == t'.place[j];
      assert j == s;
    }
  }

  // ---- unmapping -----------------------------------------------------------

  // The counts of what is left.
  ghost predicate CountsLeft(st: State, J: Job) {
    forall j {:trigger st.tabs.place[j]} :: j in st.tabs.place && j < |st.cnt| && j < |J.c0| ==>
      st.cnt[j] == J.c0[j] - One(Meets(J.R, PlaceLo(st.tabs.place[j]), PlaceHi(st.tabs.place[j])))
  }

  // After unmapping: what is linked, counted and left over.
  ghost predicate Unmapped(t: Tabs, st: State, J: Job) {
    && Tree(t) && J.home == t.place && J.rows == t.subs && |J.c0| == |t.subs|
    && Tree(st.tabs) && st.tabs.baseLevel == t.baseLevel && |st.cnt| == |st.tabs.subs| == |t.subs|
    && Untouched(st, J) && Residue(st, J, Base) && CountsLeft(st, J)
  }

  // Unmapping drops the upper one of such a pair, with the entry that links the
  // lower one.
  lemma PairGoesStale(t: Tabs, st: State, J: Job, k: nat, s: nat, j: int)
    requires Unmapped(t, st, J) && Unseats(t, J, k, s) && 0 <= j < |t.subs[s]| && t.subs[s][j] == Table(k)
    ensures StaleAt(st, s, j, k)
  {
    hide Children, Parents, Unique, Lo, Meeting;
    assert Over(J, k) && !Over(J, s);
    assert Stays(J, s, j);
    UpperGoes(t, st, J, k, s);
    PairLevels(t, J, k, s);
    AboveStays(t, st.tabs, J, k, s);
  }

  lemma UpperGoes(t: Tabs, st: State, J: Job, k: nat, s: nat)
    requires Unmapped(t, st, J) && Unseats(t, J, k, s)
    ensures s !in st.tabs.place
  {
    hide Children, Parents, Unique, Lo, Meeting, RowsKept;
    assert 0 < J.c0[s] <= 1;
    if s in st.tabs.place {
      assert false;
    }
  }

  // Unmapping leaves a stale table exactly if the counts were not nested.
  lemma UnnestedGoesStale(t: Tabs, st: State, J: Job)
    requires Unmapped(t, st, J) && Sized(t) && !Nested(t, J)
    ensures Stale(st)
  {
    NotNested(t, J);
    var k, s :| Unseats(t, J, k, s);
    var k', s', j := DirectPair(t, J, k, s);
    PairGoesStale(t, st, J, k', s', j);
  }

  // Unmapping leaves the pool in order exactly if the counts were nested, and a
  // stale table exactly if they were not.
  lemma ReadyIfNested(t: Tabs, st: State, J: Job)
    requires Tree(t) && |J.c0| == |t.subs| && J.home == t.place && J.rows == t.subs && J.R.EndVa() <= RefHi(t, Base)
    requires J.tidy == Nested(t, J) && DrainPost(t, st, J, Base, t.baseLevel, 0, RefHi(t, Base))
    ensures Unmapped(t, st, J) && Accounted(st.tabs, st.cnt, J.L) && st.dynamic
    ensures Tree(st.tabs) && Agree(st.tabs, Without(J.T, J.R, J.R.EndVa())) && BreakBeforeMake.Settled(st.trace)
    ensures Ready(st, Without(J.T, J.R, J.R.EndVa()), Base) <==> Nested(t, J)
    ensures Stale(st) <==> !Nested(t, J)
  {
    hide DrainPost, Children, Parents, Unique, Agree, Nested, Accounted, Untouched, Residue, Without, Clean, Booked,
      Stale, Enough, Shrinks;
    TopDrained(t, st, J);
    SameShape(t, st.tabs);
    DrainedAccounted(t, st, J);
    if !Nested(t, J) {
      UnnestedGoesStale(t, st, J);
    }
    if Stale(st) {
      StaleUnready(st, Without(J.T, J.R, J.R.EndVa()));
    }
  }

  lemma SameShape(t: Tabs, t': Tabs)
    requires Shrinks(t, t')
    ensures |t'.subs| == |t.subs| && t'.baseLevel == t.baseLevel
  {
  }

  // ---- removing a region ---------------------------------------------------

  // Table `k` counts too much, a table `s` around it does not, and no region uses
  // `s` once the list is L'.
  ghost predicate UnseatsAt(st: State, L: seq<Region>, L': seq<Region>, k: nat, s: nat) {
    && k in st.tabs.place && s in st.tabs.place && k < |st.cnt| && s < |st.cnt|
    && Inside(st.tabs.place[k], st.tabs.place[s].level, st.tabs.place[s].num)
    && st.cnt[k] > Users(st.tabs, L, k) && st.cnt[s] <= Users(st.tabs, L, s)
    && Meeting(L', PlaceLo(st.tabs.place[s]), PlaceHi(st.tabs.place[s])) == 0
  }

  // Removing a region of L, so that L' is left, unseats a table.
  ghost predicate Unseating(st: State, L: seq<Region>, L': seq<Region>) {
    exists k, s :: UnseatsAt(st, L, L', k, s)
  }

  lemma RemovalNested(st: State, J: Job, L: seq<Region>)
    requires Sized(st.tabs) && |st.cnt| == |st.tabs.subs| && J.c0 == st.cnt
    requires Adds(J.L, L, J.R)
    ensures Nested(st.tabs, J) <==> !Unseating(st, L, J.L)
  {
    hide Nested, Meeting, Lo;
    NotNested(st.tabs, J);
    forall s | s in st.tabs.place
      ensures Due(st.tabs, J, s) == Users(st.tabs, L, s)
    {
    }
    if k, s :| Unseats(st.tabs, J, k, s) {
      assert UnseatsAt(st, L, J.L, k, s);
    }
    if Unseating(st, L, J.L) {
      var k, s :| UnseatsAt(st, L, J.L, k, s);
      assert Unseats(st.tabs, J, k, s);
    }
  }

  // A region that has just been added can be removed.
  lemma AddedSeats(st: State, st': State, T: Trans, R: Region, L: seq<Region>, L': seq<Region>)
    requires Grown(st, st', T, R) && Denotes(T, L) && Adds(L, L', R) && (forall q :: q in L ==> 0 < q.size)
    requires st.dynamic
    requires Ready(st, T, Base) && Accounted(st.tabs, st.cnt, L)
    ensures !Unseating(st', L', L)
  {
    if Unseating(st', L', L) {
      var k, s :| UnseatsAt(st', L', L, k, s);
      AddedSeat(st, st', T, R, L, L', k, s);
    }
  }

  lemma AddedSeat(st: State, st': State, T: Trans, R: Region, L: seq<Region>, L': seq<Region>, k: nat, s: nat)
    requires Grown(st, st', T, R) && Denotes(T, L) && Adds(L, L', R) && (forall q :: q in L ==> 0 < q.size)
    requires st.dynamic
    requires Ready(st, T, Base) && Accounted(st.tabs, st.cnt, L)
    requires k in st'.tabs.place && s in st'.tabs.place && k < |st'.cnt| && s < |st'.cnt|
    requires st'.cnt[k] > Users(st'.tabs, L', k)
    requires Inside(st'.tabs.place[k], st'.tabs.place[s].level, st'.tabs.place[s].num)
    requires Meeting(L, PlaceLo(st'.tabs.place[s]), PlaceHi(st'.tabs.place[s])) == 0
    ensures st'.cnt[s] > Users(st'.tabs, L', s)
  {
    hide Denotes, Adds, Agree, Clean, Children, Parents, Meeting, Lo;
    GrownUsers(st, st', T, R, L, L', k);
    GrownUsers(st, st', T, R, L, L', s);
    if s !in st.tabs.place {
      OldAbove(st.tabs, st'.tabs, k, s);
    }
  }

  // ---- counts that stay harmless -------------------------------------------

  // A region that is never removed meets the range.
  ghost predicate StaticMeets(L: seq<Region>, lo: int, hi: int) {
    exists q :: q in L && !IsDynamic(q) && Meets(q, lo, hi)
  }

  // Table `k` counts too much, a table around it does not, and dynamic regions
  // alone keep that one.
  ghost predicate Loose(t: Tabs, cnt: seq<int>, L: seq<Region>, k: nat, s: nat) {
    && k in t.place && s in t.place && k < |cnt| && s < |cnt|
    && Inside(t.place[k], t.place[s].level, t.place[s].num)
    && cnt[k] > Users(t, L, k) && cnt[s] <= Users(t, L, s) && !StaticMeets(L, PlaceLo(t.place[s]), PlaceHi(t.place[s]))
  }

  ghost predicate Backed(t: Tabs, cnt: seq<int>, L: seq<Region>) {
    forall k, s {:trigger Loose(t, cnt, L, k, s)} :: !Loose(t, cnt, L, k, s)
  }

  ghost predicate StaticsIn(L: seq<Region>, L': seq<Region>) {
    forall q :: q in L && !IsDynamic(q) ==> q in L'
  }

  lemma ExactBacked(t: Tabs, cnt: seq<int>, L: seq<Region>)
    requires Exact(t, cnt, L)
    ensures Backed(t, cnt, L)
  {
    forall k, s
      ensures !Loose(t, cnt, L, k, s)
    {
    }
  }

  // A successful addition keeps them so, and does not cure them.
  lemma GrownBacked(st: State, st': State, T: Trans, R: Region, L: seq<Region>, L': seq<Region>)
    requires Grown(st, st', T, R) && Denotes(T, L) && Adds(L, L', R) && (forall q :: q in L ==> 0 < q.size)
    requires st.dynamic
    requires Tree(st.tabs) && Accounted(st.tabs, st.cnt, L) && StaticsIn(L, L') && StaticsIn(L', L)
    ensures Backed(st.tabs, st.cnt, L) <==> Backed(st'.tabs, st'.cnt, L')
  {
    if !Backed(st.tabs, st.cnt, L) {
      var k, s :| Loose(st.tabs, st.cnt, L, k, s);
      LooseGrows(st, st', T, R, L, L', k, s);
      return;
    }
    forall k, s
      ensures !Loose(st'.tabs, st'.cnt, L', k, s)
    {
      if Loose(st'.tabs, st'.cnt, L', k, s) {
        GrownLoose(st, st', T, R, L, L', k, s);
      }
    }
  }

  lemma LooseGrows(st: State, st': State, T: Trans, R: Region, L: seq<Region>, L': seq<Region>, k: nat, s: nat)
    requires Grown(st, st', T, R) && Denotes(T, L) && Adds(L, L', R) && (forall q :: q in L ==> 0 < q.size)
    requires st.dynamic
    requires Tree(st.tabs) && Accounted(st.tabs, st.cnt, L) && StaticsIn(L', L)
    requires Loose(st.tabs, st.cnt, L, k, s)
    ensures Loose(st'.tabs, st'.cnt, L', k, s)
  {
    hide Denotes, Adds, Agree, Clean, Booked, Children, Parents, Meeting, Lo;
    GrownUsers(st, st', T, R, L, L', k);
    GrownUsers(st, st', T, R, L, L', s);
  }

  lemma GrownLoose(st: State, st': State, T: Trans, R: Region, L: seq<Region>, L': seq<Region>, k: nat, s: nat)
    requires Grown(st, st', T, R) && Denotes(T, L) && Adds(L, L', R) && (forall q :: q in L ==> 0 < q.size)
    requires st.dynamic
    requires Tree(st.tabs) && Accounted(st.tabs, st.cnt, L) && StaticsIn(L, L')
    requires Loose(st'.tabs, st'.cnt, L', k, s)
    ensures Loose(st.tabs, st.cnt, L, k, s)
  {
    hide Denotes, Adds, Agree, Clean, Booked, Children, Parents, Meeting, Lo;
    GrownUsers(st, st', T, R, L, L', k);
    GrownUsers(st, st', T, R, L, L', s);
    if s !in st.tabs.place {
      OldAbove(st.tabs, st'.tabs, k, s);
    }
  }

  // If only dynamic regions go, such counts stay nested.
  lemma BackedNests(t: Tabs, J: Job, L: seq<Region>)
    requires Sized(t) && |J.c0| == |t.subs| && Backed(t, J.c0, L) && Adds(J.L, L, J.R) && StaticsIn(L, J.L)
    ensures Nested(t, J)
  {
    NotNested(t, J);
    forall k, s
      ensures !Unseats(t, J, k, s)
    {
      if Unseats(t, J, k, s) {
        UnseatsLoose(t, J, L, k, s);
      }
    }
  }

  lemma UnseatsLoose(t: Tabs, J: Job, L: seq<Region>, k: nat, s: nat)
    requires Adds(J.L, L, J.R) && StaticsIn(L, J.L) && Unseats(t, J, k, s)
    ensures Loose(t, J.c0, L, k, s)
  {
    hide Lo, Inside;
    var lo, hi := PlaceLo(t.place[s]), PlaceHi(t.place[s]);
    assert Due(t, J, k) == Users(t, L, k) && Due(t, J, s) == Users(t, L, s);
    if StaticMeets(L, lo, hi) {
      var q :| q in L && !IsDynamic(q) && Meets(q, lo, hi);
      MeetingSome(J.L, lo, hi, q);
    }
  }

  // A removal keeps them so,
  lemma DrainedBacked(t: Tabs, st: State, J: Job, L: seq<Region>)
    requires Unmapped(t, st, J) && Adds(J.L, L, J.R) && StaticsIn(L, J.L) && Backed(t, J.c0, L)
    ensures Backed(st.tabs, st.cnt, J.L)
  {
    forall k, s
      ensures !Loose(st.tabs, st.cnt, J.L, k, s)
    {
      if Loose(st.tabs, st.cnt, J.L, k, s) {
        DrainedLoose(t, st, J, L, k, s);
      }
    }
  }

  lemma DrainedLoose(t: Tabs, st: State, J: Job, L: seq<Region>, k: nat, s: nat)
    requires Unmapped(t, st, J) && Adds(J.L, L, J.R) && StaticsIn(L, J.L) && Loose(st.tabs, st.cnt, J.L, k, s)
    ensures Loose(t, J.c0, L, k, s)
  {
    hide Children, Parents, Unique, Lo, Residue, Inside;
    LeftUsers(t, st, J, L, k);
    LeftUsers(t, st, J, L, s);
  }

  lemma LeftUsers(t: Tabs, st: State, J: Job, L: seq<Region>, s: nat)
    requires Unmapped(t, st, J) && Adds(J.L, L, J.R) && s in st.tabs.place
    ensures s < |st.cnt| && s in t.place && t.place[s] == st.tabs.place[s]
    ensures st.cnt[s] - Users(st.tabs, J.L, s) == J.c0[s] - Users(t, L, s)
  {
    hide Children, Parents, Unique, Lo, Residue;
    LeftDue(t, st, J, s);
    assert Due(t, J, s) == Users(t, L, s);
  }

  // What a table counts beyond what is due stays.
  lemma LeftDue(t: Tabs, st: State, J: Job, s: nat)
    requires Unmapped(t, st, J) && s in st.tabs.place
    ensures s < |st.cnt| && s < |J.c0| && s in t.place && t.place[s] == st.tabs.place[s]
    ensures st.cnt[s] - Users(st.tabs, J.L, s) == J.c0[s] - Due(t, J, s)
  {
    hide Children, Parents, Unique, Lo, Residue;
    assert s in J.home && st.tabs.place[s] == J.home[s];
  }

  // and one that leaves the pool in order does not cure it.
  lemma LooseStays(t: Tabs, st: State, J: Job, L: seq<Region>, k: nat, s: nat, T: Trans)
    requires Unmapped(t, st, J) && Adds(J.L, L, J.R) && Loose(t, J.c0, L, k, s) && Ready(st, T, Base) && st.dynamic
    requires forall q :: q in J.L ==> q in L
    ensures Loose(st.tabs, st.cnt, J.L, k, s)
  {
    hide Children, Parents, Unique, Lo, Inside, Agree, RowsKept;
    assert Due(t, J, k) == Users(t, L, k) && Due(t, J, s) == Users(t, L, s);
    PairKept(t, st, J, k, s, T);
    LeftUsers(t, st, J, L, k);
    LeftUsers(t, st, J, L, s);
  }

  lemma PairKept(t: Tabs, st: State, J: Job, k: nat, s: nat, T: Trans)
    requires Unmapped(t, st, J) && Ready(st, T, Base) && st.dynamic
    requires k in t.place && s in t.place && k < |J.c0| && s < |J.c0|
    requires Inside(t.place[k], t.place[s].level, t.place[s].num) && J.c0[k] > Due(t, J, k) && J.c0[s] <= Due(t, J, s)
    ensures k in st.tabs.place && s in st.tabs.place
  {
    hide Children, Parents, Unique, Lo, Agree;
    assert Over(J, k);
    if s !in st.tabs.place {
      assert Unseats(t, J, k, s);
      NotNested(t, J);
      UnnestedGoesStale(t, st, J);
      StaleUnready(st, T);
    }
  }
}

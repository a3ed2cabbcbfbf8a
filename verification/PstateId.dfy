/**
 Power state indexes (plat/common/plat_state_id.c): one index per power level,
 counted through all their combinations.
 */
module PstateId {
  import opened Words

  const INIT: int := 0xFFFF_FFFF  // PWR_STATE_INIT_INDEX, an unsigned -1

  predicate AllInit(x: seq<int>) { forall i :: 0 <= i < |x| ==> x[i] == INIT }

  // What the function asserts of its caller: above a level without an index
  // there are no indexes.
  predicate InitSuffix(x: seq<int>) {
    x == [] || (if x[0] == INIT then AllInit(x) else InitSuffix(x[1..]))
  }

  // One state at least per level, and fewer than the index type can count.
  predicate Levels(n: seq<int>) { forall i :: 0 <= i < |n| ==> 1 <= n[i] < TWO32 }

  // Every index names a state of its level, and INIT only a suffix.
  predicate WellFormed(x: seq<int>, n: seq<int>)
    requires |x| == |n|
  {
    x == [] || (if x[0] == INIT then AllInit(x) else 0 <= x[0] < n[0] && WellFormed(x[1..], n[1..]))
  }

  // It says that INIT is followed by INIT only, as in every well-formed vector.
  lemma {:induction false} SuffixMeans(x: seq<int>)
    ensures InitSuffix(x) <==> forall i, j :: 0 <= i < j < |x| && x[i] == INIT ==> x[j] == INIT
    decreases |x|
  {
    if x != [] {
      SuffixMeans(x[1..]);
      assert forall i :: 1 <= i < |x| ==> x[1..][i - 1] == x[i];
      assert forall i :: 0 <= i < |x| - 1 ==> x[1..][i] == x[i + 1];
    }
  }

  lemma {:induction false} WellFormedSuffix(x: seq<int>, n: seq<int>)
    requires |x| == |n| && WellFormed(x, n)
    ensures InitSuffix(x)
    decreases |x|
  {
    if x != [] && x[0] != INIT {
      WellFormedSuffix(x[1..], n[1..]);
    }
  }

  // The value of a vector: its indexes, counted from 1, are the digits of a
  // bijective mixed-radix number, lowest level first.
  function Value(x: seq<int>, n: seq<int>): int
    requires |x| == |n|
  {
    if x == [] || x[0] == INIT then 0 else x[0] + 1 + n[0] * Value(x[1..], n[1..])
  }

  // n0 + n0 * n1 + n0 * n1 * n2 + ...
  function MaxValue(n: seq<int>): int {
    if n == [] then 0 else n[0] + n[0] * MaxValue(n[1..])
  }

  // ---- the encoding is a bijection -----------------------------------------

  lemma TailLevels(n: seq<int>)
    requires Levels(n) && n != []
    ensures Levels(n[1..]) && 1 <= n[0] < TWO32
  {
  }

  lemma {:induction false} ValueRange(x: seq<int>, n: seq<int>)
    requires |x| == |n| && Levels(n) && WellFormed(x, n)
    ensures 0 <= Value(x, n) <= MaxValue(n)
    ensures Value(x, n) == 0 <==> AllInit(x)
    ensures 0 <= MaxValue(n)
    decreases |x|
  {
    if x != [] {
      TailLevels(n);
      MaxValueRange(n[1..]);
      if x[0] != INIT {
        var a, max := Value(x[1..], n[1..]), MaxValue(n[1..]);
        ValueRange(x[1..], n[1..]);
        Scale(n[0], 0, a);
        Scale(n[0], a, max);
        assert Value(x, n) == x[0] + 1 + n[0] * a && MaxValue(n) == n[0] + n[0] * max;
      } else {
        Scale(n[0], 0, MaxValue(n[1..]));
      }
    }
  }

  lemma {:induction false} MaxValueRange(n: seq<int>)
    requires Levels(n)
    ensures 0 <= MaxValue(n)
    decreases |n|
  {
    if n != [] {
      TailLevels(n);
      MaxValueRange(n[1..]);
      Scale(n[0], 0, MaxValue(n[1..]));
    }
  }

  lemma Scale(k: int, a: int, b: int)
    requires 0 < k
    ensures a <= b ==> k * a <= k * b
    ensures a < b ==> k * a + k <= k * b
  {
    assert k * b == k * a + k * (b - a);
    if a < b {
      AtLeast(k, b - a);
    }
  }

  lemma AtLeast(k: int, d: int)
    requires 0 < k && 1 <= d
    ensures k <= k * d
  {
  }

  // The vector of a value.
  function Vector(v: int, n: seq<int>): (x: seq<int>)
    requires Levels(n)
    ensures |x| == |n|
    decreases |n|
  {
    if n == [] then []
    else if v <= 0 then [INIT] + Vector(0, n[1..])
    else [(v - 1) % n[0]] + Vector((v - 1) / n[0], n[1..])
  }

  lemma {:induction false} VectorOfZero(n: seq<int>)
    requires Levels(n)
    ensures AllInit(Vector(0, n))
    decreases |n|
  {
    if n != [] {
      VectorOfZero(n[1..]);
    }
  }

  // Every value has a vector ...
  lemma {:induction false} ValueOfVector(v: int, n: seq<int>)
    requires Levels(n) && 0 <= v <= MaxValue(n)
    ensures WellFormed(Vector(v, n), n) && Value(Vector(v, n), n) == v
    decreases |n|
  {
    var x := Vector(v, n);
    if n != [] {
      TailLevels(n);
      if v == 0 {
        VectorOfZero(n);
      } else {
        var d, q := (v - 1) % n[0], (v - 1) / n[0];
        assert v - 1 == n[0] * q + d && 0 <= d < n[0];
        Scale(n[0], MaxValue(n[1..]), q);
        Scale(n[0], q, -1);
        ValueOfVector(q, n[1..]);
        assert x[0] == d && x[1..] == Vector(q, n[1..]);
      }
    }
  }

  // ... and only one.
  lemma {:induction false} VectorOfValue(x: seq<int>, n: seq<int>)
    requires |x| == |n| && Levels(n) && WellFormed(x, n)
    ensures Vector(Value(x, n), n) == x
    decreases |x|
  {
    if x != [] {
      TailLevels(n);
      if x[0] == INIT {
        VectorOfZero(n);
      } else {
        var q := Value(x[1..], n[1..]);
        ValueRange(x[1..], n[1..]);
        Scale(n[0], 0, q);
        Quotient(x[0], q, n[0]);
        VectorOfValue(x[1..], n[1..]);
      }
    }
  }

  lemma Quotient(d: int, q: int, b: int)
    requires 0 <= d < b
    ensures (d + b * q) % b == d && (d + b * q) / b == q
  {
    var v := d + b * q;
    var r := v / b;
    assert v == b * r + v % b;
    if r < q { Scale(b, r, q); }
    if q < r { Scale(b, q, r); }
  }

  // ---- counting ------------------------------------------------------------

  // The carry loop: the indexes it leaves, and whether it ran past the last.
  function Carry(x: seq<int>, n: seq<int>): (seq<int>, bool)
    requires |x| == |n|
  {
    if x == [] then ([], true)
    else
      var up := (x[0] + 1) % TWO32;
      if up == n[0] then var c := Carry(x[1..], n[1..]); ([0] + c.0, c.1) else ([up] + x[1..], false)
  }

  function Next(x: seq<int>, n: seq<int>): seq<int>
    requires |x| == |n|
  {
    if Carry(x, n).1 then seq(|x|, _ => INIT) else Carry(x, n).0
  }

  // What the carry loop does to the value.
  ghost predicate Counts(x: seq<int>, n: seq<int>, y: seq<int>, carry: bool)
    requires |x| == |n|
  {
    && |y| == |x| && (carry <==> Value(x, n) == MaxValue(n))
    && (!carry ==> WellFormed(y, n) && Value(y, n) == Value(x, n) + 1)
  }

  lemma {:induction false} CarryCounts(x: seq<int>, n: seq<int>)
    requires |x| == |n| && Levels(n) && WellFormed(x, n)
    ensures Counts(x, n, Carry(x, n).0, Carry(x, n).1)
    decreases |x|
  {
    if x != [] {
      TailLevels(n);
      if x[0] == INIT {
        FirstCount(x, n);
        assert Carry(x, n) == ([0] + x[1..], false);
      } else if x[0] + 1 == n[0] {
        CarryCounts(x[1..], n[1..]);
        var c := Carry(x[1..], n[1..]);
        CarryOver(x, n, c.0, c.1);
        assert Carry(x, n) == ([0] + c.0, c.1);
      } else {
        NoCarry(x, n);
        assert Carry(x, n) == ([x[0] + 1] + x[1..], false);
      }
    }
  }

  lemma FirstCount(x: seq<int>, n: seq<int>)
    requires |x| == |n| && Levels(n) && x != [] && AllInit(x)
    ensures Counts(x, n, [0] + x[1..], false)
  {
    AllInitWellFormed(x[1..], n[1..]);
    TailLevels(n);
    MaxValueRange(n[1..]);
    Scale(n[0], 0, MaxValue(n[1..]));
    assert ([0] + x[1..])[1..] == x[1..];
  }

  lemma CarryOver(x: seq<int>, n: seq<int>, rest: seq<int>, carry: bool)
    requires |x| == |n| == |rest| + 1 && x[0] + 1 == n[0] && 0 <= x[0] < INIT && Counts(x[1..], n[1..], rest, carry)
    ensures Counts(x, n, [0] + rest, carry)
  {
    var a, m := Value(x[1..], n[1..]), MaxValue(n[1..]);
    Scale(n[0], a, m);
    Scale(n[0], m, a);
    assert ([0] + rest)[1..] == rest;
    assert n[0] * (a + 1) == n[0] * a + n[0];
  }

  lemma NoCarry(x: seq<int>, n: seq<int>)
    requires |x| == |n| && Levels(n) && WellFormed(x, n) && x != [] && 0 <= x[0] && x[0] + 1 < n[0] < TWO32
    ensures Counts(x, n, [x[0] + 1] + x[1..], false)
  {
    TailLevels(n);
    ValueRange(x[1..], n[1..]);
    Scale(n[0], Value(x[1..], n[1..]), MaxValue(n[1..]));
    assert ([x[0] + 1] + x[1..])[1..] == x[1..];
  }

  lemma {:induction false} AllInitWellFormed(x: seq<int>, n: seq<int>)
    requires |x| == |n| && AllInit(x)
    ensures WellFormed(x, n) && Value(x, n) == 0
  {
  }

  // Each call raises the value by one, and after the highest value starts again.
  lemma NextCounts(x: seq<int>, n: seq<int>)
    requires |x| == |n| && Levels(n) && WellFormed(x, n)
    ensures |Next(x, n)| == |n| && WellFormed(Next(x, n), n)
    ensures Value(Next(x, n), n) == if Value(x, n) == MaxValue(n) then 0 else Value(x, n) + 1
  {
    CarryCounts(x, n);
    AllInitWellFormed(seq(|x|, _ => INIT), n);
  }

  // The vector after `k` calls from the start.
  function After(k: nat, n: seq<int>): (x: seq<int>)
    ensures |x| == |n|
  {
    if k == 0 then seq(|n|, _ => INIT) else NextLength(After(k - 1, n), n); Next(After(k - 1, n), n)
  }

  lemma {:induction false} NextLength(x: seq<int>, n: seq<int>)
    requires |x| == |n|
    ensures |Next(x, n)| == |n|
  {
    CarryLength(x, n);
  }

  lemma {:induction false} CarryLength(x: seq<int>, n: seq<int>)
    requires |x| == |n|
    ensures |Carry(x, n).0| == |n|
    decreases |x|
  {
    if x != [] {
      CarryLength(x[1..], n[1..]);
    }
  }

  // The run from the start goes through the vectors of all values in order, and
  // back to the start.  As the encoding is a bijection, it visits each
  // well-formed vector exactly once.
  lemma {:induction false} RunVisitsAll(k: nat, n: seq<int>)
    requires Levels(n) && k <= MaxValue(n) + 1
    ensures WellFormed(After(k, n), n)
    ensures k <= MaxValue(n) ==> After(k, n) == Vector(k, n)
    ensures k == MaxValue(n) + 1 ==> AllInit(After(k, n))
    decreases k
  {
    hide Levels, WellFormed;
    MaxValueRange(n);
    if k == 0 {
      AllInitWellFormed(After(0, n), n);
      VectorOfValue(After(0, n), n);
    } else {
      RunVisitsAll(k - 1, n);
      ValueOfVector(k - 1, n);
      NextCounts(After(k - 1, n), n);
      ValueRange(After(k, n), n);
      VectorOfValue(After(k, n), n);
    }
  }

  lemma EachVisitedOnce(x: seq<int>, n: seq<int>)
    requires |x| == |n| && Levels(n) && WellFormed(x, n)
    ensures 0 <= Value(x, n) <= MaxValue(n) && After(Value(x, n), n) == x
    ensures forall k: nat :: k <= MaxValue(n) && After(k, n) == x ==> k == Value(x, n)
  {
    ValueRange(x, n);
    RunVisitsAll(Value(x, n), n);
    VectorOfValue(x, n);
    forall k: nat | k <= MaxValue(n) && After(k, n) == x
      ensures k == Value(x, n)
    {
      RunVisitsAll(k, n);
      ValueOfVector(k, n);
    }
  }

  // ---- the operations in place ---------------------------------------------

  // tftf_set_next_state_id_idx, for the levels up to `level`.
  method SetNextStateIdIdx(level: nat, idx: array<int>, perLevel: array<int>)
    requires level < idx.Length == perLevel.Length && idx != perLevel
    requires forall i :: 0 <= i <= level ==> 0 <= idx[i] < TWO32
    requires InitSuffix(idx[..level + 1])
    modifies idx
    ensures idx[..level + 1] == Next(old(idx[..level + 1]), perLevel[..level + 1])
    ensures idx[level + 1..] == old(idx[level + 1..])
  {
    ghost var x, n := idx[..level + 1], perLevel[..level + 1];
    var i := 0;
    while i <= level
      invariant 0 <= i <= level + 1
      invariant forall k :: 0 <= k < i ==> idx[k] == 0 && (x[k] + 1) % TWO32 == n[k]
      invariant forall k :: i <= k < idx.Length ==> idx[k] == old(idx[k])
    {
      idx[i] := (idx[i] + 1) % TWO32;
      if idx[i] != perLevel[i] {
        StoppedAt(x, n, i, idx[..level + 1]);
        return;
      }
      idx[i] := 0;
      i := i + 1;
    }
    WrappedAll(x, n);
    i := 0;
    while i <= level
      invariant 0 <= i <= level + 1
      invariant forall k :: 0 <= k < i ==> idx[k] == INIT
      invariant forall k :: level < k < idx.Length ==> idx[k] == old(idx[k])
    {
      idx[i] := INIT;
      i := i + 1;
    }
  }

  // The loop stops at the first index that does not wrap.
  lemma {:induction false} StoppedAt(x: seq<int>, n: seq<int>, i: nat, y: seq<int>)
    requires i < |x| == |n| == |y| && forall k :: 0 <= k < i ==> (x[k] + 1) % TWO32 == n[k] && y[k] == 0
    requires y[i] == (x[i] + 1) % TWO32 && y[i] != n[i] && forall k :: i < k < |x| ==> y[k] == x[k]
    ensures Carry(x, n) == (y, false)
    decreases i
  {
    if i == 0 {
      assert y == [y[0]] + x[1..];
    } else {
      StoppedAt(x[1..], n[1..], i - 1, y[1..]);
      assert y == [0] + y[1..];
    }
  }

  lemma {:induction false} WrappedAll(x: seq<int>, n: seq<int>)
    requires |x| == |n| && forall k :: 0 <= k < |x| ==> (x[k] + 1) % TWO32 == n[k]
    ensures Carry(x, n).1
    decreases |x|
  {
    if x != [] {
      WrappedAll(x[1..], n[1..]);
    }
  }

  // tftf_set_deepest_pstate_idx: the vector of the highest value.
  method SetDeepestPstateIdx(level: nat, idx: array<int>, perLevel: array<int>)
    requires level < idx.Length == perLevel.Length && idx != perLevel && Levels(perLevel[..level + 1])
    modifies idx
    ensures WellFormed(idx[..level + 1], perLevel[..level + 1])
    ensures Value(idx[..level + 1], perLevel[..level + 1]) == MaxValue(perLevel[..level + 1])
    ensures idx[level + 1..] == old(idx[level + 1..])
  {
    var i := 0;
    while i <= level
      invariant 0 <= i <= level + 1
      invariant forall k :: 0 <= k < i ==> idx[k] == perLevel[k] - 1
      invariant forall k :: i <= k < idx.Length ==> idx[k] == old(idx[k])
      invariant perLevel[..] == old(perLevel[..])
    {
      idx[i] := (perLevel[i] - 1) % TWO32;
      assert perLevel[..level + 1][i] == perLevel[i];
      i := i + 1;
    }
    DeepestIsMax(idx[..level + 1], perLevel[..level + 1]);
  }

  lemma {:induction false} DeepestIsMax(x: seq<int>, n: seq<int>)
    requires |x| == |n| && Levels(n) && forall i :: 0 <= i < |x| ==> x[i] == n[i] - 1
    ensures WellFormed(x, n) && Value(x, n) == MaxValue(n)
    decreases |x|
  {
    if x != [] {
      TailLevels(n);
      DeepestIsMax(x[1..], n[1..]);
    }
  }

  // tftf_set_next_local_state_id_idx: cycles through INIT and the states of one
  // level.
  method SetNextLocalStateIdIdx(level: nat, idx: array<int>, perLevel: array<int>)
    requires level < idx.Length == perLevel.Length && idx != perLevel
    requires 1 <= perLevel[level] < TWO32 && (idx[level] == INIT || 0 <= idx[level] < perLevel[level])
    modifies idx
    ensures Value([idx[level]], [perLevel[level]]) ==
      (old(Value([idx[level]], [perLevel[level]])) + 1) % (perLevel[level] + 1)
    ensures idx[level] == INIT || 0 <= idx[level] < perLevel[level]
    ensures forall k :: 0 <= k < idx.Length && k != level ==> idx[k] == old(idx[k])
  {
    if (idx[level] + 1) % TWO32 >= perLevel[level] {
      idx[level] := INIT;
      return;
    }
    idx[level] := (idx[level] + 1) % TWO32;
  }

  // ---- the parameters of a suspend call ------------------------------------

  // A state of one level.  Its identifier fits the width of one field.
  datatype State = State(id: int, depth: int, isPwrdown: int)

  // The fields of a state identifier, the lowest level in the lowest one.
  function FieldsOf(s: seq<State>): int {
    if s == [] then 0 else s[0].id + 16 * FieldsOf(s[1..])
  }

  function Pow16(i: nat): int { if i == 0 then 1 else 16 * Pow16(i - 1) }

  lemma {:induction false} NextField(s: seq<State>, d: State)
    ensures FieldsOf(s + [d]) == FieldsOf(s) + d.id * Pow16(|s|)
    decreases |s|
  {
    if s == [] {
      assert [d][1..] == [];
    } else {
      assert (s + [d])[1..] == s[1..] + [d];
      NextField(s[1..], d);
    }
  }

  // The state identifier tells states with different identifiers apart.
  lemma {:induction false} FieldsApart(a: seq<State>, b: seq<State>)
    requires |a| == |b| && (forall i :: 0 <= i < |a| ==> 0 <= a[i].id < 16 && 0 <= b[i].id < 16)
    ensures FieldsOf(a) == FieldsOf(b) <==> forall i :: 0 <= i < |a| ==> a[i].id == b[i].id
    decreases |a|
  {
    if a != [] {
      FieldsApart(a[1..], b[1..]);
      assert forall i :: 1 <= i < |a| ==> a[i] == a[1..][i - 1] && b[i] == b[1..][i - 1];
    }
  }

  // The field of a level, four bits from bit 4 * i on, is its identifier.
  lemma {:induction false} FieldAt(s: seq<State>, i: nat)
    requires i < |s| && forall k :: 0 <= k < |s| ==> 0 <= s[k].id < 16
    ensures 0 < Pow16(i) && FieldsOf(s) / Pow16(i) % 16 == s[i].id && 0 <= FieldsOf(s)
    decreases |s|
  {
    FieldsPositive(s[1..]);
    if i > 0 {
      FieldAt(s[1..], i - 1);
      ShiftField(s[0].id, FieldsOf(s[1..]), Pow16(i - 1));
    }
  }

  lemma {:induction false} FieldsPositive(s: seq<State>)
    requires forall k :: 0 <= k < |s| ==> 0 <= s[k].id
    ensures 0 <= FieldsOf(s)
    decreases |s|
  {
    if s != [] {
      FieldsPositive(s[1..]);
    }
  }

  lemma ShiftField(id: int, rest: int, p: int)
    requires 0 <= id < 16 && 0 <= rest && 0 < p
    ensures (id + 16 * rest) / (16 * p) == rest / p
  {
    var q, m := rest / p, rest % p;
    assert id + 16 * rest == q * (16 * p) + (id + 16 * m);
    QuotientOf(id + 16 * rest, 16 * p, q, id + 16 * m);
  }

  lemma QuotientOf(x: int, d: int, q: int, r: int)
    requires 0 <= r < d && x == q * d + r
    ensures x / d == q
  {
    var k := x / d;
    assert (k - q) * d == r - x % d;
    if k > q { AtLeast(d, k - q); }
    if k < q { AtLeast(d, q - k); }
  }

  // The states of the leading levels that have an index.
  function Chosen(x: seq<int>, props: seq<seq<State>>): seq<State>
    requires |x| == |props|
    requires forall i :: 0 <= i < |x| && x[i] != INIT ==> 0 <= x[i] < |props[i]|
  {
    if x == [] || x[0] == INIT then [] else [props[0][x[0]]] + Chosen(x[1..], props[1..])
  }

  lemma {:induction false} ChosenIs(x: seq<int>, props: seq<seq<State>>, s: seq<State>)
    requires |x| == |props| && |s| <= |x|
    requires forall i :: 0 <= i < |x| && x[i] != INIT ==> 0 <= x[i] < |props[i]|
    requires forall i :: 0 <= i < |s| ==> x[i] != INIT && s[i] == props[i][x[i]]
    requires |s| < |x| ==> x[|s|] == INIT
    ensures s == Chosen(x, props)
    decreases |s|
  {
    if s != [] {
      ChosenIs(x[1..], props[1..], s[1..]);
      assert s == [s[0]] + s[1..];
    }
  }

  predicate NotDeeper(s: seq<State>) {
    forall i, j :: 0 <= i < j < |s| ==> s[i].depth >= s[j].depth
  }

  predicate IsLargest(s: seq<State>, t: int) {
    (forall i :: 0 <= i < |s| ==> s[i].isPwrdown <= t) && exists i :: 0 <= i < |s| && s[i].isPwrdown == t
  }

  // What the loop has accumulated over the states so far.
  ghost predicate Summary(s: seq<State>, valid: bool, suspendType: int, depth: int) {
    && (valid <==> NotDeeper(s)) && IsLargest(s, suspendType)
    && (forall i :: 0 <= i < |s| ==> depth <= s[i].depth) && exists i :: 0 <= i < |s| && s[i].depth == depth
  }

  lemma SummaryNext(s: seq<State>, valid: bool, suspendType: int, depth: int, d: State)
    requires Summary(s, valid, suspendType, depth)
    ensures Summary(s + [d], valid && d.depth <= depth,
                    if d.isPwrdown > suspendType then d.isPwrdown else suspendType,
                    if d.depth > depth then depth else d.depth)
  {
    var t := s + [d];
    assert t[|s|] == d && forall i :: 0 <= i < |s| ==> t[i] == s[i];
    var k :| 0 <= k < |s| && s[k].depth == depth;
    assert t[k].depth == depth;
    var j :| 0 <= j < |s| && s[j].isPwrdown == suspendType;
    assert t[j].isPwrdown == suspendType;
    assert NotDeeper(t) ==> NotDeeper(s);
  }

  // tftf_get_pstate_vars.  The call is valid exactly if no level goes deeper than
  // a level below it; it powers down if any level does.
  method GetPstateVars(x: seq<int>, props: seq<seq<State>>)
    returns (valid: bool, level: int, suspendType: int, stateId: int)
    requires |x| == |props| > 0 && x[0] != INIT
    requires forall i :: 0 <= i < |x| && x[i] != INIT ==> 0 <= x[i] < |props[i]|
    ensures level == |Chosen(x, props)| - 1 && 0 <= level
    ensures valid <==> NotDeeper(Chosen(x, props))
    ensures IsLargest(Chosen(x, props), suspendType)
    ensures stateId == FieldsOf(Chosen(x, props))
  {
    var first := props[0][x[0]];
    var depth := first.depth;
    suspendType := first.isPwrdown;
    valid, stateId := true, 0;
    var i := 0;
    ghost var s: seq<State> := [];
    while i < |x| && x[i] != INIT
      invariant 0 <= i <= |x| && |s| == i && forall k :: 0 <= k < i ==> x[k] != INIT && s[k] == props[k][x[k]]
      invariant stateId == FieldsOf(s)
      invariant if i == 0 then valid && depth == first.depth && suspendType == first.isPwrdown
        else Summary(s, valid, suspendType, depth)
    {
      var local := props[i][x[i]];
      NextField(s, local);
      stateId := stateId + local.id * Pow16(i);
      if i > 0 {
        SummaryNext(s, valid, suspendType, depth, local);
      } else {
        assert [local][0] == local;
      }
      s := s + [local];
      if local.isPwrdown > suspendType {
        suspendType := local.isPwrdown;
      }
      if local.depth > depth {
        valid := false;
      } else {
        depth := local.depth;
      }
      i := i + 1;
    }
    ChosenIs(x, props, s);
    level := i - 1;
  }
}

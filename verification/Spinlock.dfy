/**
 The spinlock as steps of any number of cores over an exclusive monitor
 (lib/locks/aarch64/spinlock.S), around the printing of whole messages
 (lib/utils/mp_printf.c).
 */
module Spinlock {
  // Where a core is: outside, at one of the instructions of spin_lock, or
  // between its return and spin_unlock.
  datatype Pc = Outside | AtWfe | AtLoad | AtTest | AtStore | AtCheck | Holding

  // A core: its position, the register the lock word and the store result are
  // read into, its exclusive monitor, and the message it prints.
  datatype Core = Core(pc: Pc, w1: int, monitor: bool, message: string, sent: nat)

  // The lock word, the cores and the console; `messages` are the complete ones.
  datatype State = State(lock: int, cores: seq<Core>, console: string, messages: seq<string>)

  // Any store to the lock word clears every monitor.
  function ClearMonitors(cores: seq<Core>): (r: seq<Core>)
    ensures |r| == |cores|
    ensures forall i :: 0 <= i < |cores| ==> r[i] == cores[i].(monitor := false)
  {
    seq(|cores|, i requires 0 <= i < |cores| => cores[i].(monitor := false))
  }

  ghost predicate Start(s: State) {
    && s.lock == 0 && s.console == "" && s.messages == []
    && forall i :: 0 <= i < |s.cores| ==> s.cores[i].pc == Outside && !s.cores[i].monitor
  }

  // The instructions of spin_lock that touch only the core itself.
  predicate LocalStep(c: Core, d: Core, lock: int) {
    || (c.pc == Outside && d.pc == AtWfe && d.monitor == c.monitor && d.sent == 0)
    || (c.pc == AtWfe && d == c.(pc := AtLoad))
    || (c.pc == AtLoad && d == c.(pc := AtTest, w1 := lock, monitor := true))
    || (c.pc == AtTest && d == c.(pc := if c.w1 != 0 then AtWfe else AtStore))
    || (c.pc == AtStore && d == c.(pc := AtCheck, w1 := 1, monitor := false))
    || (c.pc == AtCheck && d == c.(pc := if c.w1 != 0 then AtLoad else Holding))
    || (c.monitor && d == c.(monitor := false))
  }

  // A store-exclusive that succeeds.
  ghost predicate Acquire(s: State, t: State, i: int)
    requires 0 <= i < |s.cores|
  {
    && s.cores[i].pc == AtStore && s.cores[i].monitor
    && t == s.(lock := 1, cores := ClearMonitors(s.cores)[i := s.cores[i].(pc := AtCheck, w1 := 0, monitor := false)])
  }

  // The holder prints one character,
  ghost predicate PrintChar(s: State, t: State, i: int)
    requires 0 <= i < |s.cores|
  {
    var c := s.cores[i];
    && c.pc == Holding && c.sent < |c.message|
    && t == s.(cores := s.cores[i := c.(sent := c.sent + 1)], console := s.console + [c.message[c.sent]])
  }

  // and unlocks when its message is complete.
  ghost predicate Release(s: State, t: State, i: int)
    requires 0 <= i < |s.cores|
  {
    var c := s.cores[i];
    && c.pc == Holding && c.sent == |c.message|
    && t == s.(lock := 0, cores := ClearMonitors(s.cores)[i := c.(pc := Outside, monitor := false)],
      messages := s.messages + [c.message])
  }

  ghost predicate StepOf(s: State, t: State, i: int) {
    0 <= i < |s.cores| &&
    (|| (|t.cores| == |s.cores| && t == s.(cores := s.cores[i := t.cores[i]])
      && LocalStep(s.cores[i], t.cores[i], s.lock))
     || Acquire(s, t, i) || PrintChar(s, t, i) || Release(s, t, i))
  }

  ghost predicate Step(s: State, t: State) { exists i :: StepOf(s, t, i) }

  // ---- the invariant -------------------------------------------------------

  // The core's store has succeeded and it has not unlocked yet.
  predicate Owns(c: Core) { c.pc == Holding || (c.pc == AtCheck && c.w1 == 0) }

  // The core has seen the lock free and nothing has been stored since.
  predicate SawFree(c: Core) { c.monitor && ((c.pc == AtTest && c.w1 == 0) || c.pc == AtStore) }

  ghost predicate CoreOk(s: State, i: int)
    requires 0 <= i < |s.cores|
  {
    var c := s.cores[i];
    && (Owns(c) ==> s.lock == 1)
    && (SawFree(c) ==> s.lock == 0)
    && c.sent <= |c.message| && (c.pc != Holding ==> c.sent == 0 || c.pc == Outside)
  }

  function Flat(messages: seq<string>): string {
    if messages == [] then "" else Flat(messages[..|messages| - 1]) + messages[|messages| - 1]
  }

  // What the owner, if any, has printed so far.
  ghost predicate ConsoleOk(s: State) {
    && (forall i :: 0 <= i < |s.cores| && Owns(s.cores[i]) ==>
      s.console == Flat(s.messages) + s.cores[i].message[..Sent(s.cores[i])])
    && (s.lock == 0 ==> s.console == Flat(s.messages))
  }

  function Sent(c: Core): nat { if c.sent <= |c.message| then c.sent else |c.message| }

  ghost predicate OneOwner(s: State) {
    && (forall i, j :: 0 <= i < |s.cores| && 0 <= j < |s.cores| && Owns(s.cores[i]) && Owns(s.cores[j]) ==> i == j)
    && (s.lock != 0 ==> s.lock == 1 && exists i :: 0 <= i < |s.cores| && Owns(s.cores[i]))
  }

  ghost predicate Inv(s: State) {
    && (forall i :: 0 <= i < |s.cores| ==> CoreOk(s, i))
    && OneOwner(s) && ConsoleOk(s)
  }

  lemma StartHolds(s: State)
    requires Start(s) && forall i :: 0 <= i < |s.cores| ==> s.cores[i].sent <= |s.cores[i].message|
    ensures Inv(s)
  {
  }

  lemma LocalKeeps(s: State, t: State, i: int)
    requires Inv(s) && 0 <= i < |s.cores| && |t.cores| == |s.cores| && t == s.(cores := s.cores[i := t.cores[i]])
    requires LocalStep(s.cores[i], t.cores[i], s.lock)
    ensures Inv(t)
  {
    hide Flat;
    var c, d := s.cores[i], t.cores[i];
    assert CoreOk(s, i);
    assert Owns(d) <==> Owns(c);
    assert Owns(c) ==> d.message == c.message && d.sent == c.sent;
    forall j | 0 <= j < |t.cores|
      ensures CoreOk(t, j)
    {
      assert CoreOk(s, j);
    }
    if s.lock != 0 {
      var k :| 0 <= k < |s.cores| && Owns(s.cores[k]);
      assert Owns(t.cores[k]);
    }
  }

  lemma AcquireKeeps(s: State, t: State, i: int)
    requires Inv(s) && 0 <= i < |s.cores| && Acquire(s, t, i)
    ensures Inv(t)
  {
    assert CoreOk(s, i);
    assert s.lock == 0;
    forall j | 0 <= j < |t.cores|
      ensures CoreOk(t, j) && (Owns(t.cores[j]) ==> j == i)
    {
      assert CoreOk(s, j);
    }
    assert Owns(t.cores[i]);
    assert t.cores[i].message[..0] == "";
  }

  lemma PrintKeeps(s: State, t: State, i: int)
    requires Inv(s) && 0 <= i < |s.cores| && PrintChar(s, t, i)
    ensures Inv(t)
  {
    var c := s.cores[i];
    assert CoreOk(s, i) && Owns(c);
    forall j | 0 <= j < |t.cores|
      ensures CoreOk(t, j) && (Owns(t.cores[j]) ==> j == i)
    {
      assert CoreOk(s, j);
    }
    assert c.message[..c.sent] + [c.message[c.sent]] == c.message[..c.sent + 1];
    assert Owns(t.cores[i]);
  }

  lemma ReleaseKeeps(s: State, t: State, i: int)
    requires Inv(s) && 0 <= i < |s.cores| && Release(s, t, i)
    ensures Inv(t)
  {
    var c := s.cores[i];
    assert CoreOk(s, i) && Owns(c);
    forall j | 0 <= j < |t.cores|
      ensures CoreOk(t, j) && !Owns(t.cores[j])
    {
      assert CoreOk(s, j);
    }
    assert c.message[..c.sent] == c.message;
    assert t.messages[..|t.messages| - 1] == s.messages;
  }

  lemma StepKeeps(s: State, t: State)
    requires Inv(s) && Step(s, t)
    ensures Inv(t)
  {
    var i :| StepOf(s, t, i);
    if Acquire(s, t, i) {
      AcquireKeeps(s, t, i);
    } else if PrintChar(s, t, i) {
      PrintKeeps(s, t, i);
    } else if Release(s, t, i) {
      ReleaseKeeps(s, t, i);
    } else {
      LocalKeeps(s, t, i);
    }
  }

  // ---- every interleaving --------------------------------------------------

  ghost predicate Run(run: seq<State>) {
    && |run| > 0 && Start(run[0])
    && (forall i :: 0 <= i < |run[0].cores| ==> run[0].cores[i].sent <= |run[0].cores[i].message|)
    && forall k :: 0 <= k < |run| - 1 ==> Step(run[k], run[k + 1])
  }

  lemma {:induction false} RunKeeps(run: seq<State>, k: nat)
    requires Run(run) && k < |run|
    ensures Inv(run[k])
    decreases k
  {
    if k == 0 {
      StartHolds(run[0]);
    } else {
      RunKeeps(run, k - 1);
      assert Step(run[k - 1], run[k - 1 + 1]);
      StepKeeps(run[k - 1], run[k]);
    }
  }

  // In every interleaving at most one core is between the return of spin_lock
  // and spin_unlock.
  lemma MutualExclusion(run: seq<State>, k: nat, i: int, j: int)
    requires Run(run) && k < |run| && 0 <= i < |run[k].cores| && 0 <= j < |run[k].cores|
    requires run[k].cores[i].pc == Holding && run[k].cores[j].pc == Holding
    ensures i == j
  {
    RunKeeps(run, k);
  }

  // The console shows whole messages one after the other, and behind them the
  // beginning of the message of the core that holds the lock.
  lemma MessagesWhole(run: seq<State>, k: nat)
    requires Run(run) && k < |run|
    ensures run[k].lock == 0 ==> run[k].console == Flat(run[k].messages)
    ensures forall i :: 0 <= i < |run[k].cores| && run[k].cores[i].pc == Holding ==>
      run[k].cores[i].sent <= |run[k].cores[i].message|
      && run[k].console == Flat(run[k].messages) + run[k].cores[i].message[..run[k].cores[i].sent]
  {
    RunKeeps(run, k);
    forall i | 0 <= i < |run[k].cores| && run[k].cores[i].pc == Holding
      ensures run[k].cores[i].sent <= |run[k].cores[i].message|
    {
      assert CoreOk(run[k], i);
    }
  }

  // ---- the lock can always be taken ----------------------------------------

  // Some steps lead from s to t.
  ghost predicate Reaches(s: State, t: State, n: nat)
    decreases n
  {
    if n == 0 then s == t else exists u :: Step(s, u) && Reaches(u, t, n - 1)
  }

  lemma {:induction false} Onward(s: State, t: State, n: nat, u: State, k: nat)
    requires Reaches(s, t, n) && Reaches(t, u, k)
    ensures Reaches(s, u, n + k)
    decreases n
  {
    hide Step;
    if n > 0 {
      var v :| Step(s, v) && Reaches(v, t, n - 1);
      Onward(v, t, n - 1, u, k);
    }
  }

  lemma Single(s: State, t: State, i: int)
    requires Inv(s) && StepOf(s, t, i)
    ensures Inv(t) && Reaches(s, t, 1) && |t.cores| == |s.cores|
  {
    assert Step(s, t) && Reaches(t, t, 0);
    StepKeeps(s, t);
  }

  // A step of core `i` alone.
  lemma LocalTo(s: State, i: int, d: Core) returns (t: State)
    requires Inv(s) && 0 <= i < |s.cores| && LocalStep(s.cores[i], d, s.lock)
    ensures t == s.(cores := s.cores[i := d]) && Inv(t) && Reaches(s, t, 1)
  {
    t := s.(cores := s.cores[i := d]);
    assert StepOf(s, t, i);
    Single(s, t, i);
  }

  // A core that finds the lock free and is left alone gets it, in four steps.
  lemma FreeLockIsTaken(s: State, i: int) returns (t: State)
    requires Inv(s) && 0 <= i < |s.cores| && s.cores[i].pc == AtLoad && s.lock == 0
    ensures Reaches(s, t, 4) && Inv(t) && |t.cores| == |s.cores| && t.cores[i].pc == Holding && t.lock == 1
  {
    hide Inv, Step, Reaches;
    var a := LocalTo(s, i, s.cores[i].(pc := AtTest, w1 := 0, monitor := true));
    var b := LocalTo(a, i, a.cores[i].(pc := AtStore));
    Onward(s, a, 1, b, 1);
    var c := StoreSucceeds(b, i);
    Onward(s, b, 2, c, 1);
    t := LocalTo(c, i, c.cores[i].(pc := Holding));
    Onward(s, c, 3, t, 1);
  }

  lemma StoreSucceeds(s: State, i: int) returns (t: State)
    requires Inv(s) && 0 <= i < |s.cores| && s.cores[i].pc == AtStore && s.cores[i].monitor
    ensures Inv(t) && Reaches(s, t, 1) && |t.cores| == |s.cores| && t.lock == 1
    ensures t.cores[i] == s.cores[i].(pc := AtCheck, w1 := 0, monitor := false)
  {
    var d := s.cores[i].(pc := AtCheck, w1 := 0, monitor := false);
    t := s.(lock := 1, cores := ClearMonitors(s.cores)[i := d]);
    assert Acquire(s, t, i) && StepOf(s, t, i);
    Single(s, t, i);
  }

  // Wherever a core is, with the lock free it gets to load it.
  lemma GetsToLoad(s: State, i: int) returns (t: State, n: nat)
    requires Inv(s) && 0 <= i < |s.cores| && s.lock == 0
    ensures Reaches(s, t, n) && Inv(t) && |t.cores| == |s.cores| && t.lock == 0 && t.cores[i].pc == AtLoad
  {
    hide Inv, Step, Reaches;
    NotOwning(s, i);
    var c := s.cores[i];
    match c.pc
    case Outside =>
      t := LocalTo(s, i, c.(pc := AtWfe, sent := 0));
      t, n := ThenLoads(s, t, 1, i);
    case AtWfe =>
      StaysHere(s);
      t, n := ThenLoads(s, s, 0, i);
    case AtLoad =>
      StaysHere(s);
      t, n := s, 0;
    case AtTest =>
      if c.w1 != 0 {
        t := LocalTo(s, i, c.(pc := AtWfe));
        t, n := ThenLoads(s, t, 1, i);
      } else {
        t := LocalTo(s, i, c.(pc := AtStore));
        t, n := StoreFails(s, t, 1, i);
      }
    case AtStore =>
      StaysHere(s);
      t, n := StoreFails(s, s, 0, i);
    case AtCheck =>
      t := LocalTo(s, i, c.(pc := AtLoad));
      n := 1;
    case Holding =>
      assert false;
  }

  lemma StaysHere(s: State)
    ensures Reaches(s, s, 0)
  {
  }

  lemma NotOwning(s: State, i: int)
    requires Inv(s) && 0 <= i < |s.cores| && s.lock == 0
    ensures !Owns(s.cores[i])
  {
    assert CoreOk(s, i);
  }

  lemma ThenLoads(s: State, u: State, k: nat, i: int) returns (t: State, n: nat)
    requires Reaches(s, u, k) && Inv(u) && 0 <= i < |u.cores| && u.lock == 0 && u.cores[i].pc == AtWfe
    ensures Reaches(s, t, n) && Inv(t) && |t.cores| == |u.cores| && t.lock == 0 && t.cores[i].pc == AtLoad
  {
    hide Inv, Step, Reaches;
    t := LocalTo(u, i, u.cores[i].(pc := AtLoad));
    Onward(s, u, k, t, 1);
    n := k + 1;
  }

  // The exclusive store may fail, and the core loads again.
  lemma StoreFails(s: State, u: State, k: nat, i: int) returns (t: State, n: nat)
    requires Reaches(s, u, k) && Inv(u) && 0 <= i < |u.cores| && u.lock == 0 && u.cores[i].pc == AtStore
    ensures Reaches(s, t, n) && Inv(t) && |t.cores| == |u.cores| && t.lock == 0 && t.cores[i].pc == AtLoad
  {
    hide Inv, Step, Reaches;
    var v := LocalTo(u, i, u.cores[i].(pc := AtCheck, w1 := 1, monitor := false));
    Onward(s, u, k, v, 1);
    t := LocalTo(v, i, v.cores[i].(pc := AtLoad));
    Onward(s, v, k + 1, t, 1);
    n := k + 2;
  }

  // A holder prints the rest of its message and releases the lock.
  lemma {:induction false} HolderReleases(s: State, i: int) returns (t: State, n: nat)
    requires Inv(s) && 0 <= i < |s.cores| && s.cores[i].pc == Holding
    ensures Reaches(s, t, n) && Inv(t) && |t.cores| == |s.cores| && t.lock == 0 && t.cores[i].pc == Outside
    ensures t.messages == s.messages + [s.cores[i].message]
    decreases |s.cores[i].message| - s.cores[i].sent
  {
    hide Inv, Step, Reaches;
    var c := s.cores[i];
    SentBound(s, i);
    if c.sent < |c.message| {
      var u := s.(cores := s.cores[i := c.(sent := c.sent + 1)], console := s.console + [c.message[c.sent]]);
      assert PrintChar(s, u, i) && StepOf(s, u, i);
      Single(s, u, i);
      t, n := HolderReleases(u, i);
      Onward(s, u, 1, t, n);
      n := n + 1;
    } else {
      t := s.(lock := 0, cores := ClearMonitors(s.cores)[i := c.(pc := Outside, monitor := false)],
        messages := s.messages + [c.message]);
      assert Release(s, t, i) && StepOf(s, t, i);
      Single(s, t, i);
      n := 1;
    }
  }

  lemma SentBound(s: State, i: int)
    requires Inv(s) && 0 <= i < |s.cores|
    ensures s.cores[i].sent <= |s.cores[i].message|
  {
    assert CoreOk(s, i);
  }

  lemma OwnerOf(s: State) returns (k: int)
    requires Inv(s) && s.lock != 0
    ensures 0 <= k < |s.cores| && Owns(s.cores[k])
  {
    k :| 0 <= k < |s.cores| && Owns(s.cores[k]);
  }

  // The lock can always become free: its owner gets to hold it, and releases it.
  lemma LockFrees(s: State) returns (t: State, n: nat)
    requires Inv(s)
    ensures Reaches(s, t, n) && Inv(t) && |t.cores| == |s.cores| && t.lock == 0
  {
    hide Inv, Step, Reaches;
    StaysHere(s);
    if s.lock == 0 {
      t, n := s, 0;
    } else {
      var k := OwnerOf(s);
      var u, m := s, 0;
      if s.cores[k].pc == AtCheck {
        u := LocalTo(s, k, s.cores[k].(pc := Holding));
        m := 1;
      }
      t, n := HolderReleases(u, k);
      Onward(s, u, m, t, n);
      n := m + n;
    }
  }

  // No deadlock: from every state of every run there are steps after which any
  // given core holds the lock, wherever it and the others are.
  lemma CanHold(run: seq<State>, k: nat, i: int) returns (t: State, n: nat)
    requires Run(run) && k < |run| && 0 <= i < |run[k].cores|
    ensures Reaches(run[k], t, n) && |t.cores| == |run[k].cores| && t.cores[i].pc == Holding
  {
    hide Inv, Step, Reaches;
    RunKeeps(run, k);
    var free, load, a, b;
    free, a := LockFrees(run[k]);
    load, b := GetsToLoad(free, i);
    Onward(run[k], free, a, load, b);
    t := FreeLockIsTaken(load, i);
    Onward(run[k], load, a + b, t, 4);
    n := a + b + 4;
  }

  // A core that comes to the lock alone waits for an event once and then loads it.
  lemma ComesToLoad(s: State, i: int) returns (t: State)
    requires Inv(s) && 0 <= i < |s.cores| && s.cores[i].pc == Outside
    ensures Reaches(s, t, 2) && t.lock == s.lock && |t.cores| == |s.cores| && t.cores[i].pc == AtLoad
  {
    hide Inv, Step, Reaches;
    var u := LocalTo(s, i, s.cores[i].(pc := AtWfe, sent := 0));
    t := LocalTo(u, i, u.cores[i].(pc := AtLoad));
    Onward(s, u, 1, t, 1);
  }
}

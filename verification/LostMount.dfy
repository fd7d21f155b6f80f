/** Which calls may share a target path: exactly when every run comes to the acquisition order, exactly when it comes to
    some sequential order, and exactly when no context gets lost.  Two volume IDs on one path take different locks; the
    runs that go wrong are built from two calls. */
module LostMount {
  import opened Options
  import opened MountProtocol
  import opened Linearization
  import opened MountContexts
  import opened CommitOrder

  // ---- building runs ----

  /** By a run that publishes only where nothing is stored. */
  ghost predicate Reachable(calls: map<Tid, Call>, base: Config, s: State) {
    exists r: Run :: r.Valid() && r.calls == calls && r.base == base && r.Last() == s && PublishedOnlyUnstored(r)
  }

  lemma ReachInit(calls: map<Tid, Call>, base: Config)
    ensures Reachable(calls, base, Init(calls, base))
  {
    var r := Run(calls, base, [], [Init(calls, base)]);
    assert r.Valid();
  }

  lemma Extended(r: Run, i: Tid) returns (r': Run)
    requires r.Valid() && StateOk(r.Last()) && PublishedOnlyUnstored(r) && Disciplined(r.Last(), i)
    ensures r'.Valid() && r'.calls == r.calls && r'.base == r.base && r'.Last() == Step(r.Last(), i)
    ensures PublishedOnlyUnstored(r')
  {
    r' := Run(r.calls, r.base, r.sched + [i], r.states + [Step(r.Last(), i)]);
    hide Step, Init, Disciplined;
    forall k | 0 <= k < |r'.sched|
      ensures r'.Moves(k) && Disciplined(r'.states[k], r'.sched[k])
    {
      if k < |r.sched| { assert r.Moves(k) && Disciplined(r.states[k], r.sched[k]); }
    }
  }

  lemma ReachStep(calls: map<Tid, Call>, base: Config, s: State, i: Tid) returns (s': State)
    requires Reachable(calls, base, s) && Disciplined(s, i)
    ensures StateOk(s) && LockInv(calls, s) && Reachable(calls, base, s') && s' == Step(s, i)
  {
    hide Step, LockInv, Disciplined;
    var r: Run :| r.Valid() && r.calls == calls && r.base == base && r.Last() == s && PublishedOnlyUnstored(r);
    LocksExact(r);
    var r' := Extended(r, i);
    s' := Step(s, i);
  }

  lemma ReachedLocks(calls: map<Tid, Call>, base: Config, s: State)
    requires Reachable(calls, base, s)
    ensures StateOk(s) && LockInv(calls, s)
  {
    hide Step, LockInv, PublishedOnlyUnstored;
    var r: Run :| r.Valid() && r.calls == calls && r.base == base && r.Last() == s && PublishedOnlyUnstored(r);
    LocksExact(r);
  }

  /** Nothing but goroutine i has moved. */
  ghost predicate OnlyMoved(s: State, s': State, i: Tid) {
    s'.threads.Keys == s.threads.Keys && forall j :: j in s.threads && j != i ==> s'.threads[j] == s.threads[j]
  }

  lemma OnlyMovedTwice(s: State, t: State, u: State, i: Tid)
    requires OnlyMoved(s, t, i) && OnlyMoved(t, u, i)
    ensures OnlyMoved(s, u, i)
  {
  }

  lemma ThreadOf(calls: map<Tid, Call>, s: State, i: Tid)
    requires LockInv(calls, s) && i in s.threads
    ensures RunsCall(calls, i, s.threads[i]) && (s.threads[i].pc.Start? ==> s.threads[i] == Thread(calls[i], Start, None))
    ensures MountsOk(calls, s.shared.core)
  {
    hide HeldExactly, HistExactly;
  }

  lemma AcquiringStep(s: State, i: Tid)
    requires StateOk(s) && i in s.threads && s.threads[i].pc.Start? && Key(s.threads[i].call) !in s.locks
    ensures var th := s.threads[i];
            Step(s, i) == State(s.locks + {Key(th.call)}, s.shared, s.threads[i := th.(pc := First(th.call))], s.hist + [i])
  {
    hide Key, LocalStep;
  }

  lemma ReleasingStep(s: State, i: Tid)
    requires StateOk(s) && i in s.threads && s.threads[i].pc.Releasing?
    ensures var th := s.threads[i];
            Step(s, i) == s.(locks := s.locks - {Key(th.call)}, threads := s.threads[i := th.(pc := Done(th.pc.result))])
  {
    hide Key, LocalStep;
  }

  lemma WorkingStep(s: State, i: Tid)
    requires StateOk(s) && i in s.threads && !Terminal(s.threads[i].pc)
    ensures var (sh, th) := LocalStep(s.shared, i, s.threads[i]);
            Step(s, i) == s.(shared := sh, threads := s.threads[i := th])
  {
    hide Key, LocalStep;
  }

  /** A goroutine takes its free lock. */
  lemma Acquired(calls: map<Tid, Call>, base: Config, s: State, i: Tid) returns (s': State)
    requires Reachable(calls, base, s) && i in s.threads && s.threads[i].pc.Start? && i in calls && Key(calls[i]) !in s.locks
    requires calls[i].Publish? ==> calls[i].targetPath !in s.shared.core.mounts
    ensures Reachable(calls, base, s') && OnlyMoved(s, s', i)
    ensures s'.threads[i] == Thread(calls[i], First(calls[i]), None) && s'.shared == s.shared
    ensures s'.locks == s.locks + {Key(calls[i])} && s'.hist == s.hist + [i]
  {
    hide Reachable, LockInv, RunsCall, Key, Step, StateOk;
    ReachedLocks(calls, base, s);
    ThreadOf(calls, s, i);
    assert Disciplined(s, i);
    s' := ReachStep(calls, base, s, i);
    AcquiringStep(s, i);
  }

  /** Goroutine i has done one step between acquisition and release. */
  ghost predicate Worked(s: State, s': State, i: Tid) {
    && StateOk(s) && i in s.threads && !Terminal(s.threads[i].pc) && OnlyMoved(s, s', i)
    && (s'.shared, s'.threads[i]) == LocalStep(s.shared, i, s.threads[i]) && s'.locks == s.locks && s'.hist == s.hist
  }

  lemma OneStep(calls: map<Tid, Call>, base: Config, s: State, i: Tid) returns (s': State)
    requires Reachable(calls, base, s) && i in s.threads && !Terminal(s.threads[i].pc)
    ensures Reachable(calls, base, s') && Worked(s, s', i)
  {
    hide Reachable, LockInv, LocalStep, Step;
    s' := ReachStep(calls, base, s, i);
    WorkingStep(s, i);
  }

  /** Goroutine i has run to its end, and nobody else has moved. */
  ghost predicate RanToEnd(s: State, s': State, i: Tid) {
    && StateOk(s) && i in s.threads && OnlyMoved(s, s', i) && s'.threads[i].pc.Done?
    && s'.shared == Complete(s.shared, i, s.threads[i])
    && s'.locks == s.locks - {Key(s.threads[i].call)} && s'.hist == s.hist
    && (s.threads[i].pc.Reading? || s'.threads[i].mc == s.threads[i].mc)
  }

  lemma RanLater(s: State, t: State, s': State, i: Tid)
    requires Worked(s, t, i) && RanToEnd(t, s', i)
    ensures RanToEnd(s, s', i)
  {
    MountRead(s.shared, i, s.threads[i]);
    OnlyMovedTwice(s, t, s', i);
    hide LocalStep, Key, OnlyMoved, StateOk;
  }

  lemma StillHolds(calls: map<Tid, Call>, s: State, t: State, i: Tid)
    requires LockInv(calls, s) && Worked(s, t, i)
    ensures i in t.threads && Holds(t.threads[i].pc) && Rank(t.threads[i].pc) < Rank(s.threads[i].pc)
  {
    ThreadOf(calls, s, i);
    LocalStepKeeps(calls, s.shared, i, s.threads[i]);
    RankFalls(s.shared, i, s.threads[i]);
    hide LockInv, LocalStep, Rank, StateOk;
  }

  /** A goroutine that holds its lock can run to its end with nobody else moving. */
  lemma {:induction false} Finishes(calls: map<Tid, Call>, base: Config, s: State, i: Tid) returns (s': State)
    requires Reachable(calls, base, s) && i in s.threads && Holds(s.threads[i].pc)
    ensures Reachable(calls, base, s') && RanToEnd(s, s', i)
    decreases Rank(s.threads[i].pc)
  {
    hide Reachable, LockInv, Step, Key, StateOk, Rank;
    if s.threads[i].pc.Releasing? {
      s' := ReachStep(calls, base, s, i);
      ReleasingStep(s, i);
    } else {
      var next := ReachStep(calls, base, s, i);
      var t := OneStep(calls, base, s, i);
      StillHolds(calls, s, t, i);
      hide Worked, RanToEnd;
      s' := Finishes(calls, base, t, i);
      RanLater(s, t, s', i);
    }
  }

  /** Only the first step of an unpublish reads. */
  lemma MountRead(sh: Shared, i: Tid, th: Thread)
    requires ThreadOk(th) && !Terminal(th.pc)
    ensures var th' := LocalStep(sh, i, th).1; (th.pc.Reading? || th'.mc == th.mc) && !th'.pc.Reading?
  {
  }

  lemma RankFalls(sh: Shared, i: Tid, th: Thread)
    requires ThreadOk(th) && !Terminal(th.pc)
    ensures Rank(LocalStep(sh, i, th).1.pc) < Rank(th.pc)
  {
  }

  lemma RunTo(calls: map<Tid, Call>, base: Config, s: State) returns (r: Run)
    requires Reachable(calls, base, s)
    ensures r.Valid() && r.calls == calls && r.base == base && r.Last() == s && PublishedOnlyUnstored(r)
  {
    r :| r.Valid() && r.calls == calls && r.base == base && r.Last() == s && PublishedOnlyUnstored(r);
  }

  // ---- two calls that take different locks ----

  /** The first call to acquire can take its whole effect last. */
  lemma LateCall(calls: map<Tid, Call>, base: Config, j: Tid, i: Tid) returns (r: Run)
    requires i in calls && j in calls && Key(calls[i]) != Key(calls[j])
    ensures r.Valid() && r.calls == calls && r.base == base && Quiescent(r.Last()) && r.Last().hist == [j, i]
    ensures r.Last().shared == RunCall(RunCall(InitShared(base), i, calls[i]), j, calls[j])
    ensures PublishedOnlyUnstored(r)
  {
    var s0 := Init(calls, base);
    ReachInit(calls, base);
    hide Reachable, Init, Complete, Key, RunCall, StateOk;
    InitStart(calls, base);
    var s1 := Acquired(calls, base, s0, j);
    var s2 := Acquired(calls, base, s1, i);
    var s3 := Finishes(calls, base, s2, i);
    CompleteIsRunCall(s2.shared, i, calls[i]);
    assert s3.threads[j] == Thread(calls[j], First(calls[j]), None);
    var s4 := Finishes(calls, base, s3, j);
    CompleteIsRunCall(s3.shared, j, calls[j]);
    r := RunTo(calls, base, s4);
  }

  lemma InitStart(calls: map<Tid, Call>, base: Config)
    ensures var s := Init(calls, base); s.threads.Keys == calls.Keys && s.shared == InitShared(base) && s.locks == {} && s.hist == []
    ensures forall i :: i in calls ==> Init(calls, base).threads[i].pc.Start?
  {
  }

  /** An unpublish has read that there is no mount, and nobody else has moved. */
  lemma ReadEarly(calls: map<Tid, Call>, base: Config, u: Tid) returns (s: State)
    requires u in calls && calls[u].Unpublish?
    ensures Reachable(calls, base, s) && s.threads.Keys == calls.Keys && s.shared == InitShared(base)
    ensures s.locks == {Key(calls[u])} && s.hist == [u] && s.threads[u] == Thread(calls[u], Cleaning, None)
    ensures forall j :: j in calls && j != u ==> s.threads[j].pc.Start?
  {
    ReachInit(calls, base);
    InitStart(calls, base);
    hide Reachable, Init, Key, LocalStep, StateOk;
    var s1 := Acquired(calls, base, Init(calls, base), u);
    s := OneStep(calls, base, s1, u);
    ReadsNothing(s1.shared, u, s1.threads[u]);
  }

  /** An unpublish that has read nothing, then a whole publish on its path under another lock, then its deletion. */
  lemma LateDelete(calls: map<Tid, Call>, base: Config, u: Tid, i: Tid) returns (s: State)
    requires i in calls && u in calls && Key(calls[i]) != Key(calls[u]) && calls[i].targetPath == calls[u].targetPath
    requires Stores(calls[i]) && calls[u].Unpublish? && calls[u].cleaned
    ensures Reachable(calls, base, s) && Quiescent(s) && s.hist == [u, i]
    ensures s.shared == Shared(Core(map[], {i}, {}, {}), LoadAll(base, calls[i].sections))
    ensures u in s.threads && s.threads[u].mc == None && s.threads[u].pc.Done?
  {
    hide Reachable, Complete, Key, LoadAll, RunCall, Stores, StateOk;
    var s2 := ReadEarly(calls, base, u);
    var s3 := Acquired(calls, base, s2, i);
    var s4 := Finishes(calls, base, s3, i);
    CompleteIsRunCall(s3.shared, i, calls[i]);
    assert s4.threads[u] == s2.threads[u];
    s := Finishes(calls, base, s4, u);
    CompleteCleaning(s4.shared, u, s4.threads[u]);
    LostShared(base, i, calls[i], s.shared);
  }

  /** What is left of a mount that an unpublish of another volume has deleted without having read it: the context it
      runs on, and its sections. */
  lemma TwoVolumesLoseAMount(calls: map<Tid, Call>, base: Config, u: Tid, i: Tid) returns (r: Run)
    requires i in calls && u in calls && Key(calls[i]) != Key(calls[u]) && calls[i].targetPath == calls[u].targetPath
    requires Stores(calls[i]) && calls[u].Unpublish? && calls[u].cleaned
    ensures r.Valid() && r.calls == calls && r.base == base && Quiescent(r.Last()) && r.Last().hist == [u, i]
    ensures r.Last().shared == Shared(Core(map[], {i}, {}, {}), LoadAll(base, calls[i].sections))
    ensures !Stored(r.Last(), i) && !Overwritten(r.Last(), i) && DeletedUnread(r.Last(), i)
    ensures r.Last().shared.core != RunSeq(calls, InitShared(base), r.Last().hist).core
    ensures PublishedOnlyUnstored(r)
  {
    var s := LateDelete(calls, base, u, i);
    ReachedThreads(calls, base, s, u, i);
    r := RunTo(calls, base, s);
    hide Reachable, Key, LoadAll, RunCall, Stores, Quiescent, Stored, Overwritten, DeletedUnread;
    LostState(calls, s, u, i);
    TwoInSequence(calls, InitShared(base), u, i);
    StillMounted(InitShared(base), u, calls[u], i, calls[i]);
  }

  lemma ReachedThreads(calls: map<Tid, Call>, base: Config, s: State, u: Tid, i: Tid)
    requires Reachable(calls, base, s) && i in calls && u in calls
    ensures i in s.threads && s.threads[i].call == calls[i] && u in s.threads && s.threads[u].call == calls[u]
    ensures s.threads[u].pc.Done? && u in s.hist ==> s.threads[u].pc == Done(Outcome(calls[u]))
  {
    ReachedLocks(calls, base, s);
    assert RunsCall(calls, i, s.threads[i]) && RunsCall(calls, u, s.threads[u]);
    if s.threads[u].pc.Done? { IdleResult(calls, u, s.threads[u]); }
    hide Reachable, Step;
  }

  /** An unpublish that comes first deletes nothing. */
  lemma StillMounted(sh: Shared, u: Tid, e: Call, i: Tid, c: Call)
    requires Stores(c) && e.Unpublish? && c.targetPath == e.targetPath
    ensures RunCall(RunCall(sh, u, e), i, c).core.mounts != map[]
  {
    hide LoadAll;
    assert c.targetPath in RunCall(RunCall(sh, u, e), i, c).core.mounts;
  }

  lemma ReadsNothing(sh: Shared, u: Tid, th: Thread)
    requires th.pc.Reading? && ThreadOk(th) && th.call.targetPath !in sh.core.mounts
    ensures LocalStep(sh, u, th) == (sh, th.(pc := Cleaning, mc := None))
  {
  }

  lemma LostShared(base: Config, i: Tid, c: Call, sh: Shared)
    requires Stores(c)
    requires var run := RunCall(InitShared(base), i, c); sh == run.(core := run.core.(mounts := run.core.mounts - {c.targetPath}))
    ensures sh == Shared(Core(map[], {i}, {}, {}), LoadAll(base, c.sections))
  {
    hide LoadAll;
  }

  lemma LostState(calls: map<Tid, Call>, s: State, u: Tid, i: Tid)
    requires s.hist == [u, i] && u != i && i in s.threads && u in s.threads && s.shared.core.mounts == map[]
    requires s.threads[u].call.Unpublish? && s.threads[u].pc == Done(Ok) && s.threads[u].mc == None
    requires s.threads[u].call.targetPath == s.threads[i].call.targetPath
    ensures !Stored(s, i) && !Overwritten(s, i) && DeletedUnread(s, i)
  {
    assert HasDeleted(s.threads[u]);
    hide HasStored;
  }

  lemma TwoInSequence(calls: map<Tid, Call>, sh: Shared, j: Tid, i: Tid)
    requires i in calls && j in calls
    ensures RunSeq(calls, sh, [j, i]) == RunCall(RunCall(sh, j, calls[j]), i, calls[i])
  {
    var h := [j, i];
    assert h[..1] == [j] && [j][..0] == [];
    assert RunSeq(calls, sh, []) == sh;
    hide RunCall;
    assert RunSeq(calls, sh, [j]) == RunCall(sh, j, calls[j]);
  }

  // ---- exactly when every run comes to the acquisition order ----

  /** Mounts and contexts are those of the calls one by one in the order in which they acquired their locks. */
  ghost predicate InAcquisitionOrder(r: Run)
    requires r.states != []
  {
    SerialOrder(r, r.Last().hist)
  }

  /** A storing publish, and a call of another volume that touches the mount: the order of their effects shows. */
  lemma OrderShows(sh: Shared, i: Tid, c: Call, j: Tid, e: Call)
    requires i != j && sh.core.mounts == map[] && sh.core.cancelled == {}
    requires Stores(c) && Touches(e) && c.targetPath == e.targetPath
    ensures RunCall(RunCall(sh, i, c), j, e).core != RunCall(RunCall(sh, j, e), i, c).core
  {
    hide LoadAll;
    if e.Publish? {
      assert RunCall(RunCall(sh, i, c), j, e).core.mounts[c.targetPath].ctx == j;
      assert RunCall(RunCall(sh, j, e), i, c).core.mounts[c.targetPath].ctx == i;
    } else {
      assert i in RunCall(RunCall(sh, i, c), j, e).core.cancelled;
      assert i !in RunCall(RunCall(sh, j, e), i, c).core.cancelled;
    }
  }

  lemma NotLinear(calls: map<Tid, Call>, base: Config, i: Tid, j: Tid) returns (r: Run)
    requires i in calls && j in calls && calls[i].targetPath == calls[j].targetPath && calls[i].volumeId != calls[j].volumeId
    requires Stores(calls[i]) && Touches(calls[j])
    ensures r.Valid() && r.calls == calls && r.base == base && Quiescent(r.Last()) && !InAcquisitionOrder(r)
  {
    LockKeyVolume(calls[i].volumeId, calls[j].volumeId, calls[i].targetPath);
    r := LateCall(calls, base, j, i);
    hide LockKey, RunCall;
    TwoInSequence(calls, InitShared(base), j, i);
    OrderShows(InitShared(base), i, calls[i], j, calls[j]);
  }

  /** Every run of these calls comes to its acquisition order if and only if, where a publish stores a mount, every publish
      that stores one and every unpublish of that path has its volume ID. */
  lemma AcquisitionOrderExactly(calls: map<Tid, Call>)
    ensures OneVolumeWhereStored(calls) <==>
      forall r: Run :: r.Valid() && r.calls == calls && Quiescent(r.Last()) ==> InAcquisitionOrder(r)
  {
    if OneVolumeWhereStored(calls) {
      forall r: Run | r.Valid() && r.calls == calls && Quiescent(r.Last())
        ensures InAcquisitionOrder(r)
      {
        Linearizable(r);
      }
    } else {
      var i, j :| i in calls && j in calls && calls[i].targetPath == calls[j].targetPath
        && Stores(calls[i]) && Touches(calls[j]) && calls[i].volumeId != calls[j].volumeId;
      var r := NotLinear(calls, map[], i, j);
    }
  }

  // ---- exactly when every run comes to some sequential order, and no context gets lost ----

  /** The calls have the effect of some sequential order of the history. */
  ghost predicate Serializable(r: Run)
    requires r.states != []
  {
    exists order :: SerialOrder(r, order)
  }

  /** The same, with every call that has answered before another one begins coming before it. */
  ghost predicate Linearizes(r: Run)
    requires r.states != []
  {
    exists order :: SerialOrder(r, order) && RealTime(r, order)
  }

  /** A sequential order of two calls is one of two. */
  lemma TwoOrders(order: seq<Tid>, u: Tid, i: Tid)
    requires multiset(order) == multiset([u, i])
    ensures order == [u, i] || order == [i, u]
  {
    assert |order| == |multiset(order)| == 2;
    assert order == [order[0], order[1]];
    assert order[0] in multiset(order) && order[1] in multiset(order);
    assert multiset(order) == multiset{order[0], order[1]};
    assert multiset(order)[u] == multiset([u, i])[u];
  }

  /** A mount that is stored and then deleted has its context cancelled. */
  lemma CancelledByDelete(sh: Shared, u: Tid, e: Call, i: Tid, c: Call)
    requires Stores(c) && e.Unpublish? && c.targetPath == e.targetPath
    ensures i in RunCall(RunCall(sh, i, c), u, e).core.cancelled
  {
    hide LoadAll;
  }

  /** The lost mount is that of no order. */
  lemma NoOrder(calls: map<Tid, Call>, base: Config, u: Tid, i: Tid) returns (r: Run)
    requires i in calls && u in calls && calls[i].targetPath == calls[u].targetPath && calls[i].volumeId != calls[u].volumeId
    requires Stores(calls[i]) && calls[u].Unpublish? && calls[u].cleaned
    ensures r.Valid() && r.calls == calls && r.base == base && Quiescent(r.Last()) && !Serializable(r) && !NoneLost(r)
  {
    LockKeyVolume(calls[i].volumeId, calls[u].volumeId, calls[i].targetPath);
    hide LockKey;
    r := TwoVolumesLoseAMount(calls, base, u, i);
    hide RunCall, Stores, Run.Valid, Quiescent, LoadAll;
    forall order
      ensures !SerialOrder(r, order)
    {
      if multiset(order) == multiset([u, i]) {
        TwoOrders(order, u, i);
        TwoInSequence(calls, InitShared(base), u, i);
        TwoInSequence(calls, InitShared(base), i, u);
        StillMounted(InitShared(base), u, calls[u], i, calls[i]);
        CancelledByDelete(InitShared(base), u, calls[u], i, calls[i]);
      }
    }
    LostForGood(r, u, i);
  }

  lemma HolderListed(calls: map<Tid, Call>, s: State, d: Tid)
    requires LockInv(calls, s) && d in s.threads && Holds(s.threads[d].pc)
    ensures d in s.hist && d in calls && s.threads[d].call == calls[d] && ThreadOk(s.threads[d])
  {
    hide HeldExactly;
    assert RunsCall(calls, d, s.threads[d]);
  }

  lemma HistGrows(calls: map<Tid, Call>, s: State, i: Tid)
    requires StateOk(s) && LockInv(calls, s)
    ensures s.hist <= Step(s, i).hist
  {
    StepHasShape(calls, s, i);
    hide Step, HeldExactly, HistExactly;
  }

  /** Whoever stores a mount is in the history. */
  lemma {:induction false} StorerListed(r: Run, k: nat, d: Tid)
    requires r.Valid() && k < |r.states| && d in r.states[k].threads && Holds(r.states[k].threads[d].pc)
    ensures d in r.Last().hist && d in r.calls && r.states[k].threads[d].call == r.calls[d] && ThreadOk(r.states[k].threads[d])
    decreases |r.sched|
  {
    hide LockInv, Step, Init;
    if k == |r.states| - 1 {
      LocksExact(r);
      HolderListed(r.calls, r.Last(), d);
    } else {
      r.BeforeValid();
      assert r.Before().states[k] == r.states[k];
      StorerListed(r.Before(), k, d);
      LocksExact(r.Before());
      HistGrows(r.calls, r.Before().Last(), r.sched[|r.sched| - 1]);
    }
  }

  /** The context of the lost mount: only its own publish has stored anything. */
  lemma LostForGood(r: Run, u: Tid, i: Tid)
    requires r.Valid() && r.Last().hist == [u, i] && u in r.calls && r.calls[u].Unpublish?
    requires r.Last().shared.core.created == {i} && r.Last().shared.core.cancelled == {} && !Stored(r.Last(), i)
    requires Quiescent(r.Last())
    ensures !NoneLost(r)
  {
    forall k: nat | k < |r.sched| && k < |r.states|
      ensures !StoresOver(r, i, k)
    {
      var d := r.sched[k];
      if d in r.states[k].threads && r.states[k].threads[d].pc.Storing? { StorerListed(r, k, d); }
    }
    hide Run.Valid;
    assert i in r.Last().threads ==> !InHand(r.Last().threads[i]) && !Kept(r, r.Last(), i);
  }

  /** Every run of these calls has the effect of some sequential order of its calls if and only if, where a publish stores a
      mount, every unpublish of that path that succeeds has its volume ID; and then there is an order that respects
      which call answered before which began. */
  lemma LinearizableExactly(calls: map<Tid, Call>)
    ensures DeletesOwn(calls) <==>
      forall r: Run :: r.Valid() && r.calls == calls && Quiescent(r.Last()) ==> Serializable(r)
    ensures DeletesOwn(calls) <==>
      forall r: Run :: r.Valid() && r.calls == calls && Quiescent(r.Last()) ==> Linearizes(r)
  {
    hide SerialOrder, RealTime;
    if DeletesOwn(calls) {
      forall r: Run | r.Valid() && r.calls == calls && Quiescent(r.Last())
        ensures Serializable(r) && Linearizes(r)
      {
        var order := EffectsInOrder(r);
      }
    } else {
      var i, j :| i in calls && j in calls && calls[i].targetPath == calls[j].targetPath
        && Stores(calls[i]) && calls[j].Unpublish? && calls[j].cleaned && calls[i].volumeId != calls[j].volumeId;
      var r := NoOrder(calls, map[], j, i);
      assert !Linearizes(r);
    }
  }

  /** In every run of these calls each created context ends cancelled, in hand, stored or stored over, if and only if, where
      a publish stores a mount, every unpublish of that path that succeeds has its volume ID. */
  lemma ConservedExactly(calls: map<Tid, Call>)
    ensures DeletesOwn(calls) <==> forall r: Run :: r.Valid() && r.calls == calls ==> NoneLost(r)
  {
    hide NoneLost;
    if DeletesOwn(calls) {
      forall r: Run | r.Valid() && r.calls == calls ensures NoneLost(r) { NoContextLost(r); }
    } else {
      var i, j :| i in calls && j in calls && calls[i].targetPath == calls[j].targetPath
        && Stores(calls[i]) && calls[j].Unpublish? && calls[j].cleaned && calls[i].volumeId != calls[j].volumeId;
      var r := NoOrder(calls, map[], j, i);
    }
  }

  // ---- whatever the outcomes of the external calls are ----

  predicate SameRequest(c: Call, e: Call) {
    c.Publish? == e.Publish? && c.volumeId == e.volumeId && c.targetPath == e.targetPath
  }

  /** The same requests, with any outcomes. */
  ghost predicate SameRequests(calls: map<Tid, Call>, calls': map<Tid, Call>) {
    calls.Keys == calls'.Keys && forall i :: i in calls ==> SameRequest(calls[i], calls'[i])
  }

  /** No publish shares its path with a call of another volume. */
  ghost predicate PublishesKeepTheirPath(calls: map<Tid, Call>) {
    forall i, j | i in calls && j in calls && calls[i].targetPath == calls[j].targetPath ::
      calls[i].Publish? ==> calls[i].volumeId == calls[j].volumeId
  }

  /** No publish shares its path with an unpublish of another volume. */
  ghost predicate UnpublishesOwnPath(calls: map<Tid, Call>) {
    forall i, j | i in calls && j in calls && calls[i].targetPath == calls[j].targetPath ::
      calls[i].Publish? && calls[j].Unpublish? ==> calls[i].volumeId == calls[j].volumeId
  }

  /** The outcomes with which a request comes furthest. */
  function Succeeding(c: Call): Call {
    if c.Publish? then Publish(c.volumeId, c.targetPath, true, c.sections, Loaded, true)
    else Unpublish(c.volumeId, c.targetPath, true)
  }

  lemma AllSucceed(calls: map<Tid, Call>) returns (calls': map<Tid, Call>)
    ensures SameRequests(calls, calls')
    ensures !PublishesKeepTheirPath(calls) ==> !OneVolumeWhereStored(calls')
    ensures !UnpublishesOwnPath(calls) ==> !DeletesOwn(calls')
  {
    calls' := map i | i in calls :: Succeeding(calls[i]);
    if !PublishesKeepTheirPath(calls) {
      var i, j :| i in calls && j in calls && calls[i].targetPath == calls[j].targetPath && calls[i].Publish?
        && calls[i].volumeId != calls[j].volumeId;
      assert Stores(calls'[i]) && Touches(calls'[j]);
    }
    if !UnpublishesOwnPath(calls) {
      var i, j :| i in calls && j in calls && calls[i].targetPath == calls[j].targetPath && calls[i].Publish?
        && calls[j].Unpublish? && calls[i].volumeId != calls[j].volumeId;
      assert Stores(calls'[i]) && calls'[j].cleaned;
    }
  }

  lemma RequestsKeep(calls: map<Tid, Call>, calls': map<Tid, Call>)
    requires SameRequests(calls, calls')
    ensures PublishesKeepTheirPath(calls) ==> OneVolumeWhereStored(calls')
    ensures UnpublishesOwnPath(calls) ==> DeletesOwn(calls')
  {
    forall i | i in calls' ensures SameRequest(calls[i], calls'[i]) { }
  }

  /** For requests, whatever the outcomes of the external calls: every run comes to its acquisition order if and only if no
      publish shares its path with a call of another volume; every run is linearizable, and none loses a context, if and
      only if no publish shares its path with an unpublish of another volume. */
  lemma SafeForAllOutcomes(calls: map<Tid, Call>)
    ensures PublishesKeepTheirPath(calls) <==>
      forall r: Run :: r.Valid() && SameRequests(calls, r.calls) && Quiescent(r.Last()) ==> InAcquisitionOrder(r)
    ensures UnpublishesOwnPath(calls) <==>
      forall r: Run :: r.Valid() && SameRequests(calls, r.calls) && Quiescent(r.Last()) ==> Linearizes(r)
    ensures UnpublishesOwnPath(calls) <==>
      forall r: Run :: r.Valid() && SameRequests(calls, r.calls) ==> NoneLost(r)
  {
    hide InAcquisitionOrder, Linearizes, Serializable, NoneLost, Quiescent;
    forall r: Run | r.Valid() && SameRequests(calls, r.calls)
      ensures PublishesKeepTheirPath(calls) && Quiescent(r.Last()) ==> InAcquisitionOrder(r)
      ensures UnpublishesOwnPath(calls) ==> NoneLost(r) && (Quiescent(r.Last()) ==> Linearizes(r))
    {
      RequestsKeep(calls, r.calls);
      AcquisitionOrderExactly(r.calls);
      LinearizableExactly(r.calls);
      ConservedExactly(r.calls);
    }
    var calls' := AllSucceed(calls);
    AcquisitionOrderExactly(calls');
    LinearizableExactly(calls');
    ConservedExactly(calls');
  }
}

/** Runs in which the acquisition order does not say what happened, but another order does: that of the steps with which
    the calls take effect.  A publish takes effect when it stores its mount, an unpublish that fails when it reads the
    mount, and one that succeeds when it deletes it. */
module CommitOrder {
  import opened Options
  import opened MountProtocol
  import opened Linearization
  import opened MountContexts

  /** Where a publish stores a mount, every unpublish of the path that succeeds names its volume. */
  ghost predicate DeletesOwn(calls: map<Tid, Call>) {
    forall i, j | i in calls && j in calls && calls[i].targetPath == calls[j].targetPath ::
      Stores(calls[i]) && calls[j].Unpublish? && calls[j].cleaned ==> calls[i].volumeId == calls[j].volumeId
  }

  lemma DeleteGuarded(calls: map<Tid, Call>, u: Tid)
    requires DeletesOwn(calls) && u in calls && calls[u].Unpublish? && calls[u].cleaned
    ensures Guarded(calls, calls[u])
  {
    if c :| c in calls && Stores(calls[c]) && calls[c].targetPath == calls[u].targetPath {
      assert calls[c].volumeId == calls[u].volumeId;
    }
  }

  /** The call has taken effect. */
  predicate Committed(th: Thread) {
    Left(th.pc) || (th.call.Unpublish? && !th.call.cleaned && AfterRead(th.pc))
  }

  /** All that the call cancels, and all that it tears down. */
  function FullCancels(i: Tid, th: Thread): set<Tid> {
    if th.call.Publish? then (if Entered(th.call) && !th.call.mounted then {i} else {}) else FullTears(th)
  }

  function FullTears(th: Thread): set<Tid> {
    if th.call.Unpublish? && th.mc.Some? then {th.mc.value.ctx} else {}
  }

  /** A step changes the mounts only by taking effect, and then as the sequential call would. */
  lemma CommitEffect(sh: Shared, i: Tid, th: Thread, done: Shared)
    requires ThreadOk(th) && OnPath(th) && !Terminal(th.pc) && done.core.mounts == sh.core.mounts
    requires th.pc.Deleting? ==> MountAt(sh, th.call.targetPath) == th.mc
    requires th.call.Publish? ==> th.mc.None?
    ensures var (sh', th') := LocalStep(sh, i, th);
      if Committed(th) then Committed(th') && th'.mc == th.mc && sh'.core.mounts == sh.core.mounts
      else if !Committed(th') then sh'.core.mounts == sh.core.mounts
      else RunCall(done, i, th.call).core == Core(sh'.core.mounts,
             done.core.created + (if Entered(th.call) then {i} else {}),
             done.core.cancelled + FullCancels(i, th'), done.core.tornDown + FullTears(th'))
  {
    hide LoadAll;
  }

  // ---- the order in which the calls take effect ----

  ghost predicate Distinct(order: seq<Tid>) {
    forall p, q :: 0 <= p < q < |order| ==> order[p] != order[q]
  }

  /** Exactly the calls that have taken effect, once each. */
  ghost predicate ListsCommitted(s: State, order: seq<Tid>) {
    Distinct(order) && forall i :: i in order <==> i in s.threads && Committed(s.threads[i])
  }

  /** Running them one by one gives the mounts of the state, and the contexts that these calls create, cancel and tear
      down in all. */
  ghost predicate Reflects(calls: map<Tid, Call>, s: State, order: seq<Tid>, core: Core)
    requires forall i :: i in order ==> i in s.threads && i in calls
  {
    && core.mounts == s.shared.core.mounts
    && (forall c :: c in core.created <==> c in order && Entered(calls[c]))
    && (forall c :: c in core.cancelled <==> exists i :: i in order && c in FullCancels(i, s.threads[i]))
    && (forall c :: c in core.tornDown <==> exists i :: i in order && c in FullTears(s.threads[i]))
  }

  ghost predicate Committing(calls: map<Tid, Call>, base: Config, s: State, order: seq<Tid>) {
    s.threads.Keys == calls.Keys && InCalls(calls, order) && ListsCommitted(s, order)
    && Reflects(calls, s, order, RunSeq(calls, InitShared(base), order).core)
  }

  lemma ReflectsSame(calls: map<Tid, Call>, s: State, s': State, order: seq<Tid>, core: Core)
    requires (forall i :: i in order ==> i in s.threads && i in calls) && Reflects(calls, s, order, core)
    requires s'.threads.Keys == s.threads.Keys && s'.shared.core.mounts == s.shared.core.mounts
    requires forall i :: i in order ==> s'.threads[i].mc == s.threads[i].mc && s'.threads[i].call == s.threads[i].call
    ensures Reflects(calls, s', order, core)
  {
  }

  lemma ReflectsNext(calls: map<Tid, Call>, s: State, s': State, order: seq<Tid>, i: Tid, core: Core, core': Core)
    requires (forall j :: j in order ==> j in s.threads && j in calls) && Reflects(calls, s, order, core)
    requires s'.threads.Keys == s.threads.Keys && i in s.threads && i in calls && s'.threads[i].call == calls[i]
    requires forall j :: j in order ==> s'.threads[j] == s.threads[j]
    requires core' == Core(s'.shared.core.mounts, core.created + (if Entered(calls[i]) then {i} else {}),
                           core.cancelled + FullCancels(i, s'.threads[i]), core.tornDown + FullTears(s'.threads[i]))
    ensures Reflects(calls, s', order + [i], core')
  {
    hide FullCancels, FullTears, Entered;
    forall c
      ensures c in core'.cancelled <==> exists j :: j in order + [i] && c in FullCancels(j, s'.threads[j])
      ensures c in core'.tornDown <==> exists j :: j in order + [i] && c in FullTears(s'.threads[j])
    {
      assert i in order + [i];
      if j :| j in order && c in FullCancels(j, s.threads[j]) { assert j in order + [i]; }
      if j :| j in order && c in FullTears(s.threads[j]) { assert j in order + [i]; }
    }
  }

  lemma RunSeqNext(calls: map<Tid, Call>, sh: Shared, order: seq<Tid>, i: Tid)
    requires InCalls(calls, order) && i in calls
    ensures InCalls(calls, order + [i])
    ensures RunSeq(calls, sh, order + [i]) == RunCall(RunSeq(calls, sh, order), i, calls[i])
  {
    hide RunCall;
    assert (order + [i])[..|order|] == order;
  }

  function NextOrder(order: seq<Tid>, i: Tid, th: Thread, th': Thread): seq<Tid> {
    if Committed(th') && !Committed(th) then order + [i] else order
  }

  lemma ListsNext(s: State, s': State, order: seq<Tid>, i: Tid)
    requires ListsCommitted(s, order) && i in s.threads && s'.threads.Keys == s.threads.Keys
    requires forall j :: j in s.threads && j != i ==> s'.threads[j] == s.threads[j]
    requires Committed(s.threads[i]) ==> Committed(s'.threads[i])
    ensures ListsCommitted(s', NextOrder(order, i, s.threads[i], s'.threads[i]))
  {
    hide Committed;
  }

  lemma CommitLocal(calls: map<Tid, Call>, base: Config, s: State, s': State, order: seq<Tid>, i: Tid)
    requires StateOk(s) && CtxInv(calls, s) && DeletesOwn(calls) && Committing(calls, base, s, order)
    requires i in s.threads && !Terminal(s.threads[i].pc)
    requires s'.threads == s.threads[i := LocalStep(s.shared, i, s.threads[i]).1]
    requires s'.shared == LocalStep(s.shared, i, s.threads[i]).0
    ensures Committing(calls, base, s', NextOrder(order, i, s.threads[i], s'.threads[i]))
  {
    hide ContextsExact, TargetOrder, HeldExactly, HistExactly, Guarded, DeletesOwn;
    var th := s.threads[i];
    assert RunsCall(calls, i, th);
    if th.pc.Deleting? { DeleteGuarded(calls, i); }
    assert th.pc.Deleting? ==> MountAt(s.shared, th.call.targetPath) == th.mc;
    var done := RunSeq(calls, InitShared(base), order);
    CommitEffect(s.shared, i, th, done);
    hide LocalStep, CtxInv, DeletesOwn, RunsCall, Committed, FullCancels, FullTears, RunCall, RunSeq;
    ListsNext(s, s', order, i);
    if Committed(s'.threads[i]) && !Committed(th) {
      RunSeqNext(calls, InitShared(base), order, i);
      ReflectsNext(calls, s, s', order, i, done.core, RunSeq(calls, InitShared(base), order + [i]).core);
    } else {
      ReflectsSame(calls, s, s', order, done.core);
    }
  }

  /** Acquiring and releasing have no effect. */
  lemma CommitIdle(calls: map<Tid, Call>, base: Config, s: State, s': State, order: seq<Tid>, i: Tid)
    requires Committing(calls, base, s, order) && StepShape(s, s', i)
    requires i in s.threads && RunsCall(calls, i, s.threads[i])
    requires Terminal(s.threads[i].pc) && s.threads[i].pc != Releasing(Aborted)
    ensures Committing(calls, base, s', order)
    ensures Committed(s'.threads[i]) == Committed(s.threads[i]) && s'.shared == s.shared
  {
    assert Committed(s'.threads[i]) == Committed(s.threads[i]) && s'.threads[i].mc == s.threads[i].mc;
    hide RunSeq, Committed, FullCancels, FullTears, RunsCall;
    ListsNext(s, s', order, i);
    ReflectsSame(calls, s, s', order, RunSeq(calls, InitShared(base), order).core);
  }

  // ---- whole runs ----

  /** If one call has answered before another one begins, it comes first. */
  ghost predicate RealTime(r: Run, order: seq<Tid>)
  {
    forall k: nat, i, j :: k < |r.states| && i in order && j in order && AnsweredBefore(r.states[k], i, j) ==> Earlier(order, i, j)
  }

  ghost predicate AnsweredBefore(s: State, i: Tid, j: Tid) {
    i in s.threads && j in s.threads && s.threads[i].pc.Done? && s.threads[j].pc.Start?
  }

  /** A call that has answered in some state is in the order, or was aborted. */
  ghost predicate AnsweredListed(r: Run, order: seq<Tid>)
    requires r.states != []
  {
    forall k: nat, i :: k < |r.states| && i in r.states[k].threads && r.states[k].threads[i].pc.Done? ==>
      i in order || (i in r.Last().threads && r.Last().threads[i].pc == Done(Aborted))
  }

  ghost predicate CommitInv(r: Run, order: seq<Tid>)
    requires r.states != []
  {
    Committing(r.calls, r.base, r.Last(), order) && RealTime(r, order) && AnsweredListed(r, order)
  }

  lemma EarlierNext(order: seq<Tid>, i: Tid, x: Tid)
    requires x in order
    ensures Earlier(order + [i], x, i)
  {
    var p :| 0 <= p < |order| && order[p] == x;
    assert (order + [i])[p] == x && (order + [i])[|order|] == i;
  }

  /** The next state, in which goroutine i may have taken effect. */
  ghost predicate Grows(r: Run, b: Run, order: seq<Tid>, order': seq<Tid>, i: Tid)
    requires b.states != []
  {
    && |r.states| == |b.states| + 1 && r.states[..|b.states|] == b.states
    && (order' == order || (order' == order + [i] && i in b.Last().threads && !b.Last().threads[i].pc.Done?))
    && forall x :: x in order' && x in r.Last().threads ==> !r.Last().threads[x].pc.Start?
  }

  lemma RealTimeNext(r: Run, b: Run, order: seq<Tid>, order': seq<Tid>, i: Tid)
    requires b.states != [] && RealTime(b, order) && AnsweredListed(b, order) && Grows(r, b, order, order', i)
    ensures RealTime(r, order')
  {
    forall k: nat, x, y | k < |r.states| && x in order' && y in order' && AnsweredBefore(r.states[k], x, y)
      ensures Earlier(order', x, y)
    {
      assert k < |b.states|;
      assert b.states[k] == r.states[k] && x in order;
      if y in order {
        EarlierExtends(order, order', x, y);
      } else {
        EarlierNext(order, i, x);
      }
    }
  }

  lemma AnsweredNext(r: Run, b: Run, order: seq<Tid>, order': seq<Tid>, i: Tid)
    requires b.states != [] && AnsweredListed(b, order) && Grows(r, b, order, order', i)
    requires forall x :: x in b.Last().threads ==> x in r.Last().threads
    requires forall x :: x in b.Last().threads && b.Last().threads[x].pc.Done? ==> r.Last().threads[x] == b.Last().threads[x]
    requires forall x :: x in r.Last().threads && r.Last().threads[x].pc.Done? ==> x in order' || r.Last().threads[x].pc == Done(Aborted)
    ensures AnsweredListed(r, order')
  {
    forall k: nat, x | k < |r.states| && x in r.states[k].threads && r.states[k].threads[x].pc.Done?
      ensures x in order' || (x in r.Last().threads && r.Last().threads[x].pc == Done(Aborted))
    {
      if k < |b.states| { assert b.states[k] == r.states[k]; }
    }
  }

  lemma CommittedPc(th: Thread)
    ensures Committed(th) ==> !th.pc.Start?
    ensures th.pc.Done? ==> Committed(th) || th.pc == Done(Aborted)
  {
  }

  /** With every successful unpublish naming the volume of the stores on its path, some order has the effect of the
      run. */
  lemma {:induction false} CommitRun(r: Run) returns (order: seq<Tid>)
    requires r.Valid() && DeletesOwn(r.calls)
    ensures CommitInv(r, order)
    decreases |r.sched|
  {
    if r.sched == [] {
      order := [];
      CommitInit(r);
    } else {
      var b, i := r.Before(), r.sched[|r.sched| - 1];
      r.BeforeValid();
      var before := CommitRun(b);
      CtxRun(b);
      StepHasShape(r.calls, b.Last(), i);
      order := CommitStep(r, b, before, i);
    }
  }

  lemma CommitInit(r: Run)
    requires r.Valid() && r.sched == []
    ensures CommitInv(r, [])
  {
    forall i | i in r.calls ensures !Committed(Init(r.calls, r.base).threads[i]) { }
  }

  lemma CommitStep(r: Run, b: Run, before: seq<Tid>, i: Tid) returns (order: seq<Tid>)
    requires r.Valid() && DeletesOwn(r.calls) && r.sched != [] && i == r.sched[|r.sched| - 1] && b == r.Before()
    requires b.Valid() && CommitInv(b, before) && StateOk(b.Last()) && CtxInv(b.calls, b.Last())
    requires r.Last() == Step(b.Last(), i) && StepShape(b.Last(), r.Last(), i)
    ensures CommitInv(r, order)
  {
    hide Step, CtxInv, RealTime, AnsweredListed, Reflects, RunSeq, StepShape, DeletesOwn;
    var s, s' := b.Last(), r.Last();
    assert |r.states| == |b.states| + 1 && r.states[..|b.states|] == b.states;
    hide Run.Valid;
    order := if i in s.threads then NextOrder(before, i, s.threads[i], s'.threads[i]) else before;
    CommitStates(r.calls, r.base, s, before, i);
    OthersDone(s, s', i);
    forall x | x in s'.threads
      ensures Committed(s'.threads[x]) ==> !s'.threads[x].pc.Start?
      ensures s'.threads[x].pc.Done? ==> Committed(s'.threads[x]) || s'.threads[x].pc == Done(Aborted)
    {
      CommittedPc(s'.threads[x]);
    }
    hide Committed;
    assert Grows(r, b, before, order, i);
    RealTimeNext(r, b, before, order, i);
    AnsweredNext(r, b, before, order, i);
  }

  /** Answered calls stay as they are. */
  lemma OthersDone(s: State, s': State, i: Tid)
    requires StepShape(s, s', i)
    ensures s'.threads.Keys == s.threads.Keys
    ensures forall x :: x in s.threads && s.threads[x].pc.Done? ==> s'.threads[x] == s.threads[x]
  {
  }

  lemma CommitStates(calls: map<Tid, Call>, base: Config, s: State, before: seq<Tid>, i: Tid)
    requires StateOk(s) && CtxInv(calls, s) && DeletesOwn(calls) && Committing(calls, base, s, before)
    ensures var s' := Step(s, i);
            Committing(calls, base, s', if i in s.threads then NextOrder(before, i, s.threads[i], s'.threads[i]) else before)
  {
    StepHasShape(calls, s, i);
    if i in s.threads {
      assert RunsCall(calls, i, s.threads[i]) && s.threads[i].pc != Releasing(Aborted);
      hide ContextsExact, TargetOrder, HeldExactly, HistExactly, ReadsStable, Committing, DeletesOwn;
      if Terminal(s.threads[i].pc) {
        CommitIdle(calls, base, s, Step(s, i), before, i);
      } else {
        CommitLocal(calls, base, s, Step(s, i), before, i);
      }
    }
  }

  // ---- in a quiescent state everything has taken effect ----

  /** The contexts torn down so far are exactly those that the unpublishes have torn down. */
  function Tears(th: Thread): set<Tid> {
    if th.pc.Cleaning? || th.pc.Deleting? || Left(th.pc) then FullTears(th) else {}
  }

  ghost predicate TornExact(s: State) {
    forall c :: c in s.shared.core.tornDown <==> exists i :: i in s.threads && c in Tears(s.threads[i])
  }

  lemma LocalTears(sh: Shared, i: Tid, th: Thread)
    requires ThreadOk(th) && !Terminal(th.pc) && (th.pc.Reading? ==> th.mc.None?)
    ensures var (sh', th') := LocalStep(sh, i, th);
            Tears(th') >= Tears(th) && sh'.core.tornDown == sh.core.tornDown + (Tears(th') - Tears(th))
  {
  }

  lemma TornAdd(s: State, s': State, i: Tid)
    requires TornExact(s) && i in s.threads && s'.threads.Keys == s.threads.Keys
    requires forall j :: j in s.threads && j != i ==> s'.threads[j] == s.threads[j]
    requires Tears(s'.threads[i]) >= Tears(s.threads[i])
    requires s'.shared.core.tornDown == s.shared.core.tornDown + (Tears(s'.threads[i]) - Tears(s.threads[i]))
    ensures TornExact(s')
  {
    hide Tears;
    forall c
      ensures c in s'.shared.core.tornDown <==> exists j :: j in s'.threads && c in Tears(s'.threads[j])
    {
      if j :| j in s.threads && c in Tears(s.threads[j]) { assert c in Tears(s'.threads[j]); }
      if j :| j in s'.threads && c in Tears(s'.threads[j]) && (j != i || c in Tears(s.threads[i])) {
        assert j in s.threads && c in Tears(s.threads[j]);
      }
    }
  }

  lemma TornStep(calls: map<Tid, Call>, s: State, i: Tid)
    requires StateOk(s) && ThreadsInv(calls, s) && TornExact(s)
    ensures TornExact(Step(s, i))
  {
    StepHasShape(calls, s, i);
    if i in s.threads {
      var th, s' := s.threads[i], Step(s, i);
      assert RunsCall(calls, i, th);
      if !Terminal(th.pc) { LocalTears(s.shared, i, th); }
      hide Step, LocalStep, TornExact;
      assert Terminal(th.pc) ==> Tears(s'.threads[i]) == Tears(th) by { IdleTears(s, s', i); }
      TornAdd(s, s', i);
    }
  }

  lemma IdleTears(s: State, s': State, i: Tid)
    requires StepShape(s, s', i) && i in s.threads
    ensures Terminal(s.threads[i].pc) && s.threads[i].pc != Releasing(Aborted) ==> Tears(s'.threads[i]) == Tears(s.threads[i])
  {
  }

  lemma {:induction false} TornRun(r: Run)
    requires r.Valid()
    ensures TornExact(r.Last())
    decreases |r.sched|
  {
    if r.sched != [] {
      r.BeforeValid();
      TornRun(r.Before());
      LocksExact(r.Before());
      hide TornExact, Step;
      TornStep(r.calls, r.Before().Last(), r.sched[|r.sched| - 1]);
    }
  }

  lemma QuiescentThread(calls: map<Tid, Call>, i: Tid, th: Thread)
    requires RunsCall(calls, i, th) && Idle(th.pc)
    ensures Committed(th) <==> Acquired(th.pc)
    ensures Cancels(i, th) == (if Committed(th) then FullCancels(i, th) else {})
    ensures Tears(th) == (if Committed(th) then FullTears(th) else {})
    ensures HasCreated(th) <==> Committed(th) && Entered(calls[i])
  {
  }

  lemma QuiescentCore(calls: map<Tid, Call>, base: Config, s: State, order: seq<Tid>)
    requires CtxInv(calls, s) && TornExact(s) && Quiescent(s) && Committing(calls, base, s, order)
    ensures RunSeq(calls, InitShared(base), order).core == s.shared.core
    ensures forall i :: i in order <==> i in s.hist
  {
    hide RunSeq, TargetOrder, ReadsStable, HeldExactly;
    forall i | i in s.threads
      ensures Committed(s.threads[i]) <==> Acquired(s.threads[i].pc)
      ensures Cancels(i, s.threads[i]) == (if Committed(s.threads[i]) then FullCancels(i, s.threads[i]) else {})
      ensures Tears(s.threads[i]) == (if Committed(s.threads[i]) then FullTears(s.threads[i]) else {})
      ensures HasCreated(s.threads[i]) <==> Committed(s.threads[i]) && Entered(calls[i])
    {
      assert RunsCall(calls, i, s.threads[i]);
      QuiescentThread(calls, i, s.threads[i]);
    }
    hide Committed, FullCancels, FullTears, Cancels, Tears, HasCreated, Entered, RunsCall, Acquired;
    SameContexts(s, order, RunSeq(calls, InitShared(base), order).core, calls);
  }

  lemma SameContexts(s: State, order: seq<Tid>, core: Core, calls: map<Tid, Call>)
    requires s.threads.Keys == calls.Keys && ListsCommitted(s, order) && Reflects(calls, s, order, core)
    requires ContextsExact(s) && TornExact(s)
    requires forall i :: i in s.threads ==>
      && Cancels(i, s.threads[i]) == (if Committed(s.threads[i]) then FullCancels(i, s.threads[i]) else {})
      && Tears(s.threads[i]) == (if Committed(s.threads[i]) then FullTears(s.threads[i]) else {})
      && (HasCreated(s.threads[i]) <==> Committed(s.threads[i]) && Entered(calls[i]))
    ensures core == s.shared.core
  {
    hide Committed, FullCancels, FullTears, Cancels, Tears, HasCreated, Entered;
    forall c
      ensures c in core.cancelled <==> c in s.shared.core.cancelled
      ensures c in core.tornDown <==> c in s.shared.core.tornDown
      ensures c in core.created <==> c in s.shared.core.created
    {
      if i :| i in order && c in FullCancels(i, s.threads[i]) { assert c in Cancels(i, s.threads[i]); }
      if i :| i in s.threads && c in Cancels(i, s.threads[i]) { assert c in FullCancels(i, s.threads[i]); }
      if i :| i in order && c in FullTears(s.threads[i]) { assert c in Tears(s.threads[i]); }
      if i :| i in s.threads && c in Tears(s.threads[i]) { assert c in FullTears(s.threads[i]); }
    }
  }

  /** The calls of the history one by one in this order have the effect of the run. */
  ghost predicate SerialOrder(r: Run, order: seq<Tid>)
    requires r.states != []
  {
    multiset(order) == multiset(r.Last().hist) && InCalls(r.calls, order)
    && r.Last().shared.core == RunSeq(r.calls, InitShared(r.base), order).core
  }

  lemma {:induction false} DistinctOnce(order: seq<Tid>)
    requires Distinct(order)
    ensures forall x :: multiset(order)[x] == if x in order then 1 else 0
  {
    if order != [] {
      var n := |order| - 1;
      DistinctOnce(order[..n]);
      assert order == order[..n] + [order[n]];
      assert order[n] !in order[..n];
    }
  }

  lemma SameElements(a: seq<Tid>, b: seq<Tid>)
    requires Distinct(a) && Distinct(b) && forall x :: x in a <==> x in b
    ensures multiset(a) == multiset(b)
  {
    DistinctOnce(a);
    DistinctOnce(b);
  }

  /** The order of the effects is a sequential order, and it respects which call answered before which began. */
  lemma EffectsInOrder(r: Run) returns (order: seq<Tid>)
    requires r.Valid() && DeletesOwn(r.calls) && Quiescent(r.Last())
    ensures SerialOrder(r, order) && RealTime(r, order)
  {
    order := CommitRun(r);
    CtxRun(r);
    TornRun(r);
    hide Run.Valid, DeletesOwn, Quiescent, TornExact, RealTime, AnsweredListed, RunSeq;
    QuiescentCore(r.calls, r.base, r.Last(), order);
    SameElements(order, r.Last().hist);
  }

  // ---- contexts in the order of the stores ----

  /** In step k another publish of the path stores its mount over that of c. */
  ghost predicate StoresOver(r: Run, c: Tid, k: nat) {
    && k < |r.sched| && k < |r.states| && Stored(r.states[k], c)
    && var s, d := r.states[k], r.sched[k];
       d in s.threads && d != c && s.threads[d].pc.Storing? && s.threads[d].call.targetPath == s.threads[c].call.targetPath
  }

  ghost predicate StoredOver(r: Run, c: Tid) {
    exists k: nat :: StoresOver(r, c, k)
  }

  ghost predicate Kept(r: Run, s: State, c: Tid) {
    Stored(s, c) || c in s.shared.core.cancelled || StoredOver(r, c)
  }

  ghost predicate AllKept(r: Run, s: State) {
    forall c :: c in s.threads && HasStored(s.threads[c]) ==> Kept(r, s, c)
  }

  lemma OverStays(r: Run, c: Tid)
    requires r.Valid() && r.sched != [] && StoredOver(r.Before(), c)
    ensures StoredOver(r, c)
  {
    var b := r.Before();
    var k: nat :| StoresOver(b, c, k);
    assert b.states[k] == r.states[k] && b.sched[k] == r.sched[k];
    assert StoresOver(r, c, k);
  }

  /** A stored context survives a step, or is cancelled already, or is stored over. */
  lemma KeptStep(calls: map<Tid, Call>, s: State, i: Tid, c: Tid)
    requires StateOk(s) && CtxInv(calls, s) && DeletesOwn(calls) && i in s.threads && !Terminal(s.threads[i].pc)
    requires c in s.threads && HasStored(s.threads[c]) && Stored(s, c)
    ensures var (th, t) := (s.threads[i], s.threads[c].call.targetPath);
      MountAt(LocalStep(s.shared, i, th).0, t) == MountAt(s.shared, t)
      || c in s.shared.core.cancelled || (i != c && th.pc.Storing? && th.call.targetPath == t)
  {
    hide TargetOrder, HeldExactly, HistExactly, Guarded, DeletesOwn;
    var th, t := s.threads[i], s.threads[c].call.targetPath;
    assert RunsCall(calls, i, th) && RunsCall(calls, c, s.threads[c]);
    if th.call.targetPath != t {
      LocalStepElsewhere(s.shared, i, th, t);
    } else if th.pc.Deleting? {
      DeleteGuarded(calls, i);
      assert th.mc == MountAt(s.shared, t);
      assert c in Cancels(i, th);
    }
  }

  lemma KeptNext(r: Run, c: Tid)
    requires r.Valid() && DeletesOwn(r.calls) && r.sched != [] && r.Before().Valid()
    requires StateOk(r.Before().Last()) && CtxInv(r.calls, r.Before().Last()) && AllKept(r.Before(), r.Before().Last())
    requires r.Last() == Step(r.Before().Last(), r.sched[|r.sched| - 1])
    requires c in r.Last().threads && HasStored(r.Last().threads[c])
    ensures Kept(r, r.Last(), c)
  {
    var b, i := r.Before(), r.sched[|r.sched| - 1];
    var s, s' := b.Last(), r.Last();
    hide HasStored, Run.Valid;
    StepContexts(r.calls, s, i, c);
    if HasStored(s.threads[c]) {
      assert Kept(b, s, c);
      if StoredOver(b, c) {
        OverStays(r, c);
      } else if Stored(s, c) && i in s.threads && !Terminal(s.threads[i].pc) {
        KeptStep(r.calls, s, i, c);
        StepHasShape(r.calls, s, i);
        hide CtxInv, Step;
        if i != c && s.threads[i].pc.Storing? && s.threads[i].call.targetPath == s.threads[c].call.targetPath {
          assert r.states[|r.sched| - 1] == s;
          assert StoresOver(r, c, |r.sched| - 1);
        }
      }
    }
  }

  /** What a step does to what has been stored and cancelled. */
  lemma StepContexts(calls: map<Tid, Call>, s: State, i: Tid, c: Tid)
    requires StateOk(s) && ThreadsInv(calls, s) && c in s.threads
    ensures s.shared.core.cancelled <= Step(s, i).shared.core.cancelled
    ensures Step(s, i).threads[c].call == s.threads[c].call
    ensures HasStored(Step(s, i).threads[c]) && !HasStored(s.threads[c]) ==> Stored(Step(s, i), c)
    ensures !(i in s.threads && !Terminal(s.threads[i].pc)) ==> Step(s, i).shared == s.shared
  {
    StepHasShape(calls, s, i);
    if i in s.threads {
      var th := s.threads[i];
      assert RunsCall(calls, i, th) && th.pc != Releasing(Aborted);
      if Terminal(th.pc) {
        if !th.pc.Done? { IdleContexts(calls, i, th, Step(s, i).threads[i]); }
      } else {
        LocalContexts(calls, s.shared, i, th);
        NewlyStored(calls, s.shared, i, th);
      }
      hide LocalStep, Step, HasStored, Cancels, RunsCall, MountsOk;
    }
  }

  lemma {:induction false} KeptRun(r: Run)
    requires r.Valid() && DeletesOwn(r.calls)
    ensures AllKept(r, r.Last())
    decreases |r.sched|
  {
    if r.sched != [] {
      r.BeforeValid();
      KeptRun(r.Before());
      CtxRun(r.Before());
      hide AllKept, Step, CtxInv, HasStored, Kept;
      forall c | c in r.Last().threads && HasStored(r.Last().threads[c])
        ensures Kept(r, r.Last(), c)
      {
        KeptNext(r, c);
      }
      AllKeptIntro(r);
    }
  }

  lemma AllKeptIntro(r: Run)
    requires r.states != [] && forall c :: c in r.Last().threads && HasStored(r.Last().threads[c]) ==> Kept(r, r.Last(), c)
    ensures AllKept(r, r.Last())
  {
  }

  /** Every created context of the last state is cancelled, in the hands of its publish, stored, or another publish of
      the path has stored its mount over it. */
  ghost predicate NoneLost(r: Run)
    requires r.states != []
  {
    forall c :: c in r.Last().shared.core.created ==>
      c in r.Last().threads && (InHand(r.Last().threads[c]) || Kept(r, r.Last(), c))
  }

  lemma NoContextLost(r: Run)
    requires r.Valid() && DeletesOwn(r.calls)
    ensures NoneLost(r)
  {
    KeptRun(r);
    CtxRun(r);
    hide AllKept, Kept, Run.Valid, TargetOrder, ContextsExact, ReadsStable, HeldExactly, HistExactly, DeletesOwn;
    forall c | c in r.Last().shared.core.created
      ensures c in r.Last().threads && (InHand(r.Last().threads[c]) || Kept(r, r.Last(), c))
    {
      assert c in r.Last().threads ==> RunsCall(r.calls, c, r.Last().threads[c]);
      CreatedKept(r, r.Last(), c);
    }
  }

  lemma CreatedKept(r: Run, s: State, c: Tid)
    requires ContextsExact(s) && AllKept(r, s) && c in s.shared.core.created
    requires c in s.threads ==> OnPath(s.threads[c])
    ensures c in s.threads && (InHand(s.threads[c]) || Kept(r, s, c))
  {
    hide StoredOver;
    assert c in s.threads && HasCreated(s.threads[c]);
    if CreationFailed(s.threads[c]) { CancelledOwn(r, s, c); }
  }

  lemma CancelledOwn(r: Run, s: State, c: Tid)
    requires ContextsExact(s) && c in s.threads && CreationFailed(s.threads[c])
    ensures Kept(r, s, c)
  {
    assert c in Cancels(c, s.threads[c]);
  }
}

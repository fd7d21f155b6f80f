/** Contexts of mounts over whole runs: who cancels them, and where every created one is. */
module MountContexts {
  import opened Options
  import opened MountProtocol
  import opened Linearization

  /** The contexts that goroutine i has cancelled so far. */
  function Cancels(i: Tid, th: Thread): set<Tid> {
    if th.call.Publish? then (if CreationFailed(th) then {i} else {})
    else if PassedCancel(th) then {th.mc.value.ctx} else {}
  }

  /** The publish has created a context and has cancelled it because mounting failed. */
  predicate CreationFailed(th: Thread) {
    th.call.Publish? && Entered(th.call) && !th.call.mounted && (th.pc.RollingBack? || Left(th.pc))
  }

  /** The unpublish has passed the cancel step of unmountVolume. */
  predicate PassedCancel(th: Thread) {
    th.call.Unpublish? && th.mc.Some? && (th.pc.Dropping? || th.pc.Cleaning? || th.pc.Deleting? || Left(th.pc))
  }

  predicate Left(pc: Pc) {
    (pc.Releasing? || pc.Done?) && pc.result != Aborted
  }

  predicate HasCreated(th: Thread) {
    th.call.Publish? && Entered(th.call)
    && (th.pc.Mounting? || th.pc.CancelOwn? || th.pc.RollingBack? || th.pc.Storing? || Left(th.pc))
  }

  predicate HasStored(th: Thread) {
    th.call.Publish? && Entered(th.call) && th.call.mounted && Left(th.pc)
  }

  /** The publish has a context that it has neither stored nor cancelled. */
  predicate InHand(th: Thread) {
    th.pc.Mounting? || th.pc.CancelOwn? || th.pc.Storing?
  }

  lemma LocalContexts(calls: map<Tid, Call>, sh: Shared, i: Tid, th: Thread)
    requires RunsCall(calls, i, th) && !Terminal(th.pc)
    ensures var (sh', th') := LocalStep(sh, i, th);
            && Cancels(i, th') >= Cancels(i, th)
            && sh'.core.cancelled == sh.core.cancelled + (Cancels(i, th') - Cancels(i, th))
            && sh'.core.created == sh.core.created + (if HasCreated(th') && !HasCreated(th) then {i} else {})
            && (HasCreated(th) ==> HasCreated(th')) && (HasStored(th) ==> HasStored(th'))
  {
  }

  lemma IdleContexts(calls: map<Tid, Call>, i: Tid, th: Thread, th': Thread)
    requires RunsCall(calls, i, th) && (th.pc.Start? || th.pc.Releasing?) && th.pc != Releasing(Aborted)
    requires th.pc.Releasing? ==> th' == th.(pc := Done(th.pc.result))
    requires th.pc.Start? ==> th' == th.(pc := First(th.call)) || th' == th.(pc := Done(Aborted))
    ensures Cancels(i, th') == Cancels(i, th) && HasCreated(th') == HasCreated(th) && HasStored(th') == HasStored(th)
    ensures !AfterRead(th'.pc)
  {
  }

  /** The cancelled contexts are exactly those that the goroutines have cancelled, the created ones exactly
      those of the publishes that have come to createAndMountFilesystem. */
  ghost predicate ContextsExact(s: State) {
    && (forall c :: c in s.shared.core.cancelled <==> exists i :: i in s.threads && c in Cancels(i, s.threads[i]))
    && (forall c :: c in s.shared.core.created <==> c in s.threads && HasCreated(s.threads[c]))
  }

  /** A step of one goroutine adds what that goroutine does. */
  lemma ContextsAdd(s: State, s': State, i: Tid)
    requires ContextsExact(s) && i in s.threads && s'.threads.Keys == s.threads.Keys
    requires forall j :: j in s.threads && j != i ==> s'.threads[j] == s.threads[j]
    requires Cancels(i, s'.threads[i]) >= Cancels(i, s.threads[i])
    requires s'.shared.core.cancelled
          == s.shared.core.cancelled + (Cancels(i, s'.threads[i]) - Cancels(i, s.threads[i]))
    requires HasCreated(s.threads[i]) ==> HasCreated(s'.threads[i])
    requires s'.shared.core.created == s.shared.core.created
               + (if HasCreated(s'.threads[i]) && !HasCreated(s.threads[i]) then {i} else {})
    ensures ContextsExact(s')
  {
    forall c
      ensures c in s'.shared.core.cancelled <==> exists j :: j in s'.threads && c in Cancels(j, s'.threads[j])
    {
      if j :| j in s'.threads && c in Cancels(j, s'.threads[j]) {
        if j != i || c in Cancels(i, s.threads[i]) {
          assert j in s.threads && c in Cancels(j, s.threads[j]);
        }
      }
      if c in s.shared.core.cancelled {
        var j :| j in s.threads && c in Cancels(j, s.threads[j]);
        assert c in Cancels(j, s'.threads[j]);
      }
    }
  }

  // ---- an unpublish works on the entry it has read ----

  predicate AfterRead(pc: Pc) {
    pc.Unmounting? || pc.Dropping? || pc.Cleaning? || pc.Deleting?
  }

  /** Nothing that another lock lets through changes the stored mount of this path: no publish stores one there, or
      whatever changes it has this volume ID. */
  ghost predicate Guarded(calls: map<Tid, Call>, c: Call) {
    NeverStored(calls, c.targetPath)
    || forall j :: j in calls && calls[j].targetPath == c.targetPath && Changes(calls[j]) ==> calls[j].volumeId == c.volumeId
  }

  /** Between its read of the mount context and its delete, a guarded unpublish sees the same entry in the map. */
  ghost predicate ReadsStable(calls: map<Tid, Call>, s: State) {
    forall u :: u in s.threads && AfterRead(s.threads[u].pc) && Guarded(calls, s.threads[u].call)
                ==> MountAt(s.shared, s.threads[u].call.targetPath) == s.threads[u].mc
  }

  lemma LocalRead(sh: Shared, i: Tid, th: Thread)
    requires ThreadOk(th) && !Terminal(th.pc)
    ensures var (sh', th') := LocalStep(sh, i, th);
            (AfterRead(th.pc) ==> MountAt(sh, th.call.targetPath) == th.mc)
            ==> (AfterRead(th'.pc) ==> MountAt(sh', th.call.targetPath) == th'.mc)
  {
  }

  /** No two goroutines that hold their locks have the same one. */
  ghost predicate HoldersApart(s: State) {
    forall i, j :: i in s.threads && j in s.threads && Holds(s.threads[i].pc) && Holds(s.threads[j].pc) && i != j
                   ==> Apart(s.threads[i].call, s.threads[j].call)
  }

  lemma LocksApart(calls: map<Tid, Call>, s: State)
    requires LockInv(calls, s)
    ensures HoldersApart(s)
  {
    forall i, j | i in s.threads && j in s.threads && Holds(s.threads[i].pc) && Holds(s.threads[j].pc) && i != j
      ensures Apart(s.threads[i].call, s.threads[j].call)
    {
      assert RunsCall(calls, i, s.threads[i]) && RunsCall(calls, j, s.threads[j]);
      assert i in Holders(s) && j in Holders(s);
      assert Keys(calls)[i] != Keys(calls)[j];
    }
  }

  /** A step of another goroutine leaves the mount of a guarded call's path alone. */
  lemma GuardedKept(calls: map<Tid, Call>, sh: Shared, i: Tid, th: Thread, c: Call)
    requires RunsCall(calls, i, th) && !Terminal(th.pc) && MountsOk(calls, sh.core)
    requires Guarded(calls, c) && Apart(th.call, c)
    ensures MountAt(LocalStep(sh, i, th).0, c.targetPath) == MountAt(sh, c.targetPath)
  {
    LocalStepEffect(sh, i, th);
    hide LocalStep;
  }

  lemma ReadsKept(calls: map<Tid, Call>, s: State, i: Tid)
    requires StateOk(s) && ThreadsInv(calls, s) && HoldersApart(s) && ReadsStable(calls, s)
    requires i in s.threads && !Terminal(s.threads[i].pc)
    ensures var (sh', th') := LocalStep(s.shared, i, s.threads[i]);
            forall u :: u in s.threads && AfterRead((if u == i then th' else s.threads[u]).pc) && Guarded(calls, s.threads[u].call)
                        ==> MountAt(sh', s.threads[u].call.targetPath) == (if u == i then th' else s.threads[u]).mc
  {
    LocalRead(s.shared, i, s.threads[i]);
    assert RunsCall(calls, i, s.threads[i]);
    hide Guarded;
    forall u | u in s.threads && u != i && AfterRead(s.threads[u].pc) && Guarded(calls, s.threads[u].call)
      ensures MountAt(LocalStep(s.shared, i, s.threads[i]).0, s.threads[u].call.targetPath) == s.threads[u].mc
    {
      GuardedKept(calls, s.shared, i, s.threads[i], s.threads[u].call);
    }
  }

  // ---- conservation ----

  ghost predicate Earlier(hist: seq<Tid>, c: Tid, d: Tid) {
    exists p, q :: 0 <= p < q < |hist| && hist[p] == c && hist[q] == d
  }

  /** A publish of the same path that acquired its lock later has stored its own mount. */
  ghost predicate Overwritten(s: State, c: Tid) {
    exists d :: d in s.threads && c in s.threads && HasStored(s.threads[d]) && Earlier(s.hist, c, d)
                && s.threads[d].call.targetPath == s.threads[c].call.targetPath
  }

  ghost predicate Stored(s: State, c: Tid) {
    c in s.threads && MountAt(s.shared, s.threads[c].call.targetPath).Some?
    && MountAt(s.shared, s.threads[c].call.targetPath).value.ctx == c
  }

  /** Every context of a publish that has stored its mount is still stored, cancelled or overwritten. */
  ghost predicate Conserved(s: State) {
    forall c :: c in s.threads && HasStored(s.threads[c])
                ==> Stored(s, c) || c in s.shared.core.cancelled || Overwritten(s, c)
  }

  lemma EarlierExtends(hist: seq<Tid>, hist': seq<Tid>, c: Tid, d: Tid)
    requires Earlier(hist, c, d) && hist <= hist'
    ensures Earlier(hist', c, d)
  {
    var p, q :| 0 <= p < q < |hist| && hist[p] == c && hist[q] == d;
    assert hist'[p] == c && hist'[q] == d;
  }

  /** What a step of goroutine i may do without losing a context. */
  lemma ConservedKept(s: State, s': State, i: Tid)
    requires Conserved(s) && s'.threads.Keys == s.threads.Keys && s.hist <= s'.hist
    requires s.shared.core.cancelled <= s'.shared.core.cancelled
    requires forall c :: c in s.threads ==>
      s'.threads[c].call == s.threads[c].call && (HasStored(s.threads[c]) ==> HasStored(s'.threads[c]))
    requires forall c :: c in s.threads && HasStored(s.threads[c]) && Stored(s, c) ==>
      Stored(s', c) || c in s'.shared.core.cancelled || Overwritten(s', c)
    requires forall c :: c in s.threads && HasStored(s'.threads[c]) && !HasStored(s.threads[c]) ==> Stored(s', c)
    ensures Conserved(s')
  {
    forall c | c in s'.threads && HasStored(s'.threads[c]) && HasStored(s.threads[c]) && Overwritten(s, c)
      ensures Overwritten(s', c)
    {
      var d :| d in s.threads && HasStored(s.threads[d]) && Earlier(s.hist, c, d)
               && s.threads[d].call.targetPath == s.threads[c].call.targetPath;
      EarlierExtends(s.hist, s'.hist, c, d);
      assert HasStored(s'.threads[d]);
    }
  }

  /** A publish that stores over an older mount of its path comes later in the history. */
  lemma StoreIsLater(s: State, i: Tid, c: Tid)
    requires TargetOrder(s) && HistExactly(s) && i in s.threads && c in s.threads && i != c
    requires !s.threads[i].pc.Done? && Acquired(s.threads[i].pc) && Acquired(s.threads[c].pc)
    requires !Apart(s.threads[i].call, s.threads[c].call)
    ensures Earlier(s.hist, c, i)
  {
    assert i in s.hist && c in s.hist;
    var p :| 0 <= p < |s.hist| && s.hist[p] == c;
    var q :| 0 <= q < |s.hist| && s.hist[q] == i;
    assert p != q;
    if q < p { assert false; }
  }

  /** A stored context survives a step, or is cancelled, or is overwritten. */
  lemma StoredStep(calls: map<Tid, Call>, s: State, s': State, i: Tid, c: Tid)
    requires StateOk(s) && ThreadsInv(calls, s) && ContextsExact(s) && ReadsStable(calls, s) && TargetOrder(s) && HistExactly(s)
    requires OneVolumeWhereChanged(calls) && i in s.threads && !Terminal(s.threads[i].pc)
    requires s'.hist == s.hist && s'.threads == s.threads[i := LocalStep(s.shared, i, s.threads[i]).1]
    requires s'.shared == LocalStep(s.shared, i, s.threads[i]).0
    requires s.shared.core.cancelled <= s'.shared.core.cancelled
    requires c in s.threads && HasStored(s.threads[c]) && Stored(s, c)
    ensures Stored(s', c) || c in s'.shared.core.cancelled || Overwritten(s', c)
  {
    var th := s.threads[i];
    var t := s.threads[c].call.targetPath;
    assert RunsCall(calls, i, th) && RunsCall(calls, c, s.threads[c]);
    if th.call.targetPath != t {
      LocalStepElsewhere(s.shared, i, th, t);
    } else if th.pc.Storing? {
      StoreIsLater(s, i, c);
      assert HasStored(s'.threads[i]) && i in s'.threads;
    } else if th.pc.Deleting? {
      ChangesGuarded(calls, i, c);
      assert th.mc == MountAt(s.shared, t);
      assert c in Cancels(i, th);
    } else {
      assert MountAt(s'.shared, t) == MountAt(s.shared, t);
    }
  }

  /** Where a mount is stored, a call that changes it is guarded. */
  lemma ChangesGuarded(calls: map<Tid, Call>, i: Tid, c: Tid)
    requires OneVolumeWhereChanged(calls) && i in calls && c in calls && calls[i].targetPath == calls[c].targetPath
    requires Changes(calls[i]) && Stores(calls[c])
    ensures Guarded(calls, calls[i]) && calls[i].volumeId == calls[c].volumeId
  {
  }

  lemma NewlyStored(calls: map<Tid, Call>, sh: Shared, i: Tid, th: Thread)
    requires RunsCall(calls, i, th) && !Terminal(th.pc)
    ensures var (sh', th') := LocalStep(sh, i, th);
            HasStored(th') && !HasStored(th) ==> MountAt(sh', th.call.targetPath) == Some(Mount(i, th.call.sections.Keys))
  {
  }

  lemma StoredSteps(calls: map<Tid, Call>, s: State, s': State, i: Tid)
    requires StateOk(s) && CtxInv(calls, s) && OneVolumeWhereChanged(calls)
    requires i in s.threads && !Terminal(s.threads[i].pc)
    requires s'.hist == s.hist && s'.threads == s.threads[i := LocalStep(s.shared, i, s.threads[i]).1]
    requires s'.shared == LocalStep(s.shared, i, s.threads[i]).0
    requires s.shared.core.cancelled <= s'.shared.core.cancelled
    ensures forall c :: c in s.threads && HasStored(s.threads[c]) && Stored(s, c) ==>
      Stored(s', c) || c in s'.shared.core.cancelled || Overwritten(s', c)
  {
    hide LocalStep, ContextsExact, ReadsStable, TargetOrder, HistExactly, HeldExactly, OneVolumeWhereChanged,
         ThreadsInv, HasStored, Stored, Overwritten;
    forall c | c in s.threads && HasStored(s.threads[c]) && Stored(s, c)
      ensures Stored(s', c) || c in s'.shared.core.cancelled || Overwritten(s', c)
    {
      StoredStep(calls, s, s', i, c);
    }
  }

  lemma StoresOwn(calls: map<Tid, Call>, s: State, s': State, i: Tid)
    requires ThreadsInv(calls, s) && i in s.threads && !Terminal(s.threads[i].pc)
    requires s'.hist == s.hist && s'.threads == s.threads[i := LocalStep(s.shared, i, s.threads[i]).1]
    requires s'.shared == LocalStep(s.shared, i, s.threads[i]).0
    ensures s.shared.core.cancelled <= s'.shared.core.cancelled
    ensures forall c :: c in s.threads ==>
      s'.threads[c].call == s.threads[c].call && (HasStored(s.threads[c]) ==> HasStored(s'.threads[c]))
    ensures forall c :: c in s.threads && HasStored(s'.threads[c]) && !HasStored(s.threads[c]) ==> Stored(s', c)
  {
    assert RunsCall(calls, i, s.threads[i]);
    LocalContexts(calls, s.shared, i, s.threads[i]);
    NewlyStored(calls, s.shared, i, s.threads[i]);
    hide LocalStep, HasStored, Cancels, RunsCall, MountsOk;
  }

  lemma ConservedStep(calls: map<Tid, Call>, s: State, s': State, i: Tid)
    requires StateOk(s) && CtxInv(calls, s) && Conserved(s) && OneVolumeWhereChanged(calls)
    requires i in s.threads && !Terminal(s.threads[i].pc)
    requires s'.hist == s.hist && s'.threads == s.threads[i := LocalStep(s.shared, i, s.threads[i]).1]
    requires s'.shared == LocalStep(s.shared, i, s.threads[i]).0
    ensures Conserved(s')
  {
    hide LocalStep, Conserved, OneVolumeWhereChanged, HasStored, Stored, Overwritten, ThreadsInv, HeldExactly, HistExactly,
         TargetOrder, ContextsExact, ReadsStable;
    StoresOwn(calls, s, s', i);
    StoredSteps(calls, s, s', i);
    ConservedKept(s, s', i);
  }

  // ---- whole runs ----

  /** What every reachable state keeps, with no hypothesis on the calls. */
  ghost predicate CtxInv(calls: map<Tid, Call>, s: State) {
    LockInv(calls, s) && TargetOrder(s) && ContextsExact(s) && ReadsStable(calls, s)
  }

  lemma ReadsIdle(calls: map<Tid, Call>, s: State, s': State, i: Tid)
    requires ReadsStable(calls, s) && i in s.threads && s'.threads.Keys == s.threads.Keys && s'.shared == s.shared
    requires forall j :: j in s.threads && j != i ==> s'.threads[j] == s.threads[j]
    requires !AfterRead(s'.threads[i].pc)
    ensures ReadsStable(calls, s')
  {
    hide Guarded;
  }

  /** Acquiring and releasing the lock touch no context. */
  lemma CtxIdle(calls: map<Tid, Call>, s: State, s': State, i: Tid)
    requires ContextsExact(s) && ReadsStable(calls, s) && StepShape(s, s', i)
    requires i in s.threads && RunsCall(calls, i, s.threads[i])
    requires Terminal(s.threads[i].pc) && s.threads[i].pc != Releasing(Aborted)
    ensures ContextsExact(s') && ReadsStable(calls, s')
  {
    hide ContextsExact, ReadsStable, RunsCall;
    if !s.threads[i].pc.Done? {
      IdleContexts(calls, i, s.threads[i], s'.threads[i]);
      ContextsAdd(s, s', i);
      ReadsIdle(calls, s, s', i);
    }
  }

  lemma ConservedIdle(calls: map<Tid, Call>, s: State, s': State, i: Tid)
    requires Conserved(s) && StepShape(s, s', i) && i in s.threads && RunsCall(calls, i, s.threads[i])
    requires Terminal(s.threads[i].pc) && s.threads[i].pc != Releasing(Aborted)
    ensures Conserved(s')
  {
    hide Conserved, RunsCall, Stored, Overwritten;
    if !s.threads[i].pc.Done? {
      IdleContexts(calls, i, s.threads[i], s'.threads[i]);
      StoredIdle(s, s');
      ConservedKept(s, s', i);
    }
  }

  lemma StoredIdle(s: State, s': State)
    requires s'.shared == s.shared && s'.threads.Keys == s.threads.Keys
    requires forall c :: c in s.threads ==> s'.threads[c].call == s.threads[c].call
    ensures forall c :: Stored(s, c) ==> Stored(s', c)
  {
  }

  lemma ExactLocal(calls: map<Tid, Call>, s: State, s': State, i: Tid)
    requires ContextsExact(s) && i in s.threads && RunsCall(calls, i, s.threads[i]) && !Terminal(s.threads[i].pc)
    requires s'.threads == s.threads[i := LocalStep(s.shared, i, s.threads[i]).1]
    requires s'.shared == LocalStep(s.shared, i, s.threads[i]).0
    ensures ContextsExact(s')
  {
    LocalContexts(calls, s.shared, i, s.threads[i]);
    hide LocalStep;
    ContextsAdd(s, s', i);
  }

  lemma ReadsLocal(calls: map<Tid, Call>, s: State, s': State, i: Tid)
    requires StateOk(s) && LockInv(calls, s) && ReadsStable(calls, s) && i in s.threads && !Terminal(s.threads[i].pc)
    requires s'.threads == s.threads[i := LocalStep(s.shared, i, s.threads[i]).1]
    requires s'.shared == LocalStep(s.shared, i, s.threads[i]).0
    ensures ReadsStable(calls, s')
  {
    LocksApart(calls, s);
    ReadsKept(calls, s, i);
    hide LocalStep, Guarded;
  }

  lemma CtxStep(calls: map<Tid, Call>, s: State, i: Tid)
    requires StateOk(s) && CtxInv(calls, s)
    ensures CtxInv(calls, Step(s, i))
  {
    LockInvStep(calls, s, i);
    TargetOrderStep(calls, s, i);
    StepHasShape(calls, s, i);
    hide TargetOrder, ContextsExact, ReadsStable, HistExactly, HeldExactly;
    if i in s.threads {
      assert RunsCall(calls, i, s.threads[i]);
      if Terminal(s.threads[i].pc) {
        CtxIdle(calls, s, Step(s, i), i);
      } else {
        ExactLocal(calls, s, Step(s, i), i);
        ReadsLocal(calls, s, Step(s, i), i);
      }
    }
  }

  lemma InitLocked(calls: map<Tid, Call>, base: Config)
    ensures LockInv(calls, Init(calls, base))
  {
    assert Holders(Init(calls, base)) == {};
  }

  lemma CtxInit(calls: map<Tid, Call>, base: Config)
    ensures CtxInv(calls, Init(calls, base))
  {
    InitLocked(calls, base);
    hide LockInv, Guarded, Apart;
  }

  lemma {:induction false} CtxRun(r: Run)
    requires r.Valid()
    ensures StateOk(r.Last()) && CtxInv(r.calls, r.Last())
    decreases |r.sched|
  {
    if r.sched == [] {
      CtxInit(r.calls, r.base);
    } else {
      hide Step, CtxInv;
      r.BeforeValid();
      CtxRun(r.Before());
      CtxStep(r.calls, r.Before().Last(), r.sched[|r.sched| - 1]);
    }
  }

  lemma {:induction false} ConservedRun(r: Run)
    requires r.Valid() && OneVolumeWhereChanged(r.calls)
    ensures StateOk(r.Last()) && CtxInv(r.calls, r.Last()) && Conserved(r.Last())
    decreases |r.sched|
  {
    CtxRun(r);
    if r.sched != [] {
      var i := r.sched[|r.sched| - 1];
      r.BeforeValid();
      var s := r.Before().Last();
      ConservedRun(r.Before());
      StepHasShape(r.calls, s, i);
      if i in s.threads {
        assert RunsCall(r.calls, i, s.threads[i]);
        hide CtxInv, Conserved;
        if Terminal(s.threads[i].pc) {
          ConservedIdle(r.calls, s, Step(s, i), i);
        } else {
          ConservedStep(r.calls, s, Step(s, i), i);
        }
      }
    }
  }

  // ---- with no hypothesis on the calls ----

  /** A mount that an unpublish has deleted without having read it: between its read and its delete the mount was
      stored, under another volume ID. */
  ghost predicate DeletedUnread(s: State, c: Tid) {
    exists u :: u in s.threads && c in s.threads && HasDeleted(s.threads[u]) && s.threads[u].mc != Some(MountOf(s, c))
                && s.threads[u].call.targetPath == s.threads[c].call.targetPath
  }

  predicate HasDeleted(th: Thread) {
    th.call.Unpublish? && (th.pc == Releasing(Ok) || th.pc == Done(Ok))
  }

  function MountOf(s: State, c: Tid): Mount
    requires c in s.threads
  {
    Mount(c, if s.threads[c].call.Publish? then s.threads[c].call.sections.Keys else {})
  }

  /** Another publish of the same path has stored its mount. */
  ghost predicate Replaced(s: State, c: Tid) {
    exists d :: d in s.threads && c in s.threads && d != c && HasStored(s.threads[d])
                && s.threads[d].call.targetPath == s.threads[c].call.targetPath
  }

  ghost predicate Accounted(s: State, c: Tid) {
    Stored(s, c) || c in s.shared.core.cancelled || Replaced(s, c) || DeletedUnread(s, c)
  }

  ghost predicate AllAccounted(s: State) {
    forall c :: c in s.threads && HasStored(s.threads[c]) ==> Accounted(s, c)
  }

  /** What a goroutine has stored or deleted, it has. */
  predicate GoesOn(th: Thread, th': Thread) {
    && th'.call == th.call && (HasStored(th) ==> HasStored(th'))
    && (HasDeleted(th) ==> HasDeleted(th') && th'.mc == th.mc)
  }

  lemma AccountedLater(s: State, s': State, c: Tid)
    requires s'.threads.Keys == s.threads.Keys && s.shared.core.cancelled <= s'.shared.core.cancelled
    requires forall j :: j in s.threads ==> GoesOn(s.threads[j], s'.threads[j])
    requires Accounted(s, c) && !Stored(s, c)
    ensures Accounted(s', c)
  {
    if Replaced(s, c) {
      var d :| d in s.threads && c in s.threads && d != c && HasStored(s.threads[d])
               && s.threads[d].call.targetPath == s.threads[c].call.targetPath;
      assert HasStored(s'.threads[d]);
    } else if DeletedUnread(s, c) {
      var u :| u in s.threads && c in s.threads && HasDeleted(s.threads[u]) && s.threads[u].mc != Some(MountOf(s, c))
               && s.threads[u].call.targetPath == s.threads[c].call.targetPath;
      assert HasDeleted(s'.threads[u]);
    }
  }

  lemma StoredOrAccounted(calls: map<Tid, Call>, s: State, s': State, i: Tid, c: Tid)
    requires ThreadsInv(calls, s) && ContextsExact(s) && StateOk(s)
    requires i in s.threads && !Terminal(s.threads[i].pc) && RunsCall(calls, i, s.threads[i])
    requires s'.threads == s.threads[i := LocalStep(s.shared, i, s.threads[i]).1]
    requires s'.shared == LocalStep(s.shared, i, s.threads[i]).0
    requires c in s.threads && HasStored(s.threads[c]) && Stored(s, c)
    ensures Accounted(s', c)
  {
    var th := s.threads[i];
    var t := s.threads[c].call.targetPath;
    LocalContexts(calls, s.shared, i, th);
    assert RunsCall(calls, c, s.threads[c]);
    if th.call.targetPath != t {
      LocalStepElsewhere(s.shared, i, th, t);
    } else if th.pc.Storing? {
      assert HasStored(s'.threads[i]) && i in s'.threads && i != c;
    } else if th.pc.Deleting? {
      assert HasDeleted(s'.threads[i]) && s'.threads[i].mc == th.mc;
      if th.mc == Some(MountOf(s, c)) { assert c in Cancels(i, th); }
    } else {
      assert MountAt(s'.shared, t) == MountAt(s.shared, t);
    }
  }

  lemma NotDeletedYet(th: Thread)
    requires ThreadOk(th) && !Terminal(th.pc)
    ensures !HasDeleted(th)
  {
  }

  lemma AccountedStep(calls: map<Tid, Call>, s: State, s': State, i: Tid)
    requires StateOk(s) && ThreadsInv(calls, s) && ContextsExact(s) && AllAccounted(s)
    requires i in s.threads && !Terminal(s.threads[i].pc) && RunsCall(calls, i, s.threads[i])
    requires s'.threads == s.threads[i := LocalStep(s.shared, i, s.threads[i]).1]
    requires s'.shared == LocalStep(s.shared, i, s.threads[i]).0
    ensures AllAccounted(s')
  {
    LocalContexts(calls, s.shared, i, s.threads[i]);
    NewlyStored(calls, s.shared, i, s.threads[i]);
    NotDeletedYet(s.threads[i]);
    hide LocalStep, ContextsExact, ThreadsInv, RunsCall, Cancels, Replaced, DeletedUnread;
    forall c | c in s'.threads && HasStored(s'.threads[c])
      ensures Accounted(s', c)
    {
      if HasStored(s.threads[c]) {
        assert Accounted(s, c);
        if Stored(s, c) { StoredOrAccounted(calls, s, s', i, c); } else { AccountedLater(s, s', c); }
      } else {
        assert c == i && Stored(s', c);
      }
    }
  }

  lemma AccountedIdle(calls: map<Tid, Call>, s: State, s': State, i: Tid)
    requires AllAccounted(s) && StepShape(s, s', i) && i in s.threads && RunsCall(calls, i, s.threads[i])
    requires Terminal(s.threads[i].pc) && s.threads[i].pc != Releasing(Aborted)
    ensures AllAccounted(s')
  {
    if !s.threads[i].pc.Done? {
      IdleContexts(calls, i, s.threads[i], s'.threads[i]);
      StoredIdle(s, s');
      hide RunsCall, Cancels, Replaced, DeletedUnread, Stored;
      forall c | c in s'.threads && HasStored(s'.threads[c])
        ensures Accounted(s', c)
      {
        assert HasStored(s.threads[c]) && Accounted(s, c);
        if !Stored(s, c) { AccountedLater(s, s', c); }
      }
    }
  }

  lemma {:induction false} AccountedRun(r: Run)
    requires r.Valid()
    ensures StateOk(r.Last()) && CtxInv(r.calls, r.Last()) && AllAccounted(r.Last())
    decreases |r.sched|
  {
    CtxRun(r);
    if r.sched != [] {
      var i := r.sched[|r.sched| - 1];
      r.BeforeValid();
      var s := r.Before().Last();
      AccountedRun(r.Before());
      StepHasShape(r.calls, s, i);
      if i in s.threads {
        assert RunsCall(r.calls, i, s.threads[i]) && s.threads[i].pc != Releasing(Aborted);
        hide ContextsExact, AllAccounted, ReadsStable, TargetOrder, HeldExactly, HistExactly;
        if Terminal(s.threads[i].pc) {
          AccountedIdle(r.calls, s, Step(s, i), i);
        } else {
          AccountedStep(r.calls, s, Step(s, i), i);
        }
      }
    }
  }

  /** Isolation: in every reachable state a context is cancelled only by its own publish, whose mount has failed,
      or by an unpublish of its own target that read its mount and passed the cancel step; and each of these
      does cancel it. */
  lemma ContextIsolation(r: Run, c: Tid)
    requires r.Valid()
    ensures c in r.Last().shared.core.cancelled <==>
      || (c in r.Last().threads && CreationFailed(r.Last().threads[c]))
      || (exists u :: u in r.Last().threads && PassedCancel(r.Last().threads[u])
            && r.Last().threads[u].mc.value.ctx == c && c in r.calls
            && r.calls[c].targetPath == r.Last().threads[u].call.targetPath)
  {
    AccountedRun(r);
    hide AllAccounted;
    IsolationAt(r.calls, r.Last(), c);
  }

  /** Every created context, with no hypothesis: it is cancelled, in the hands of its publish, stored, replaced by
      another publish of the path, or deleted by an unpublish that had not read it. */
  lemma EveryContextAccounted(r: Run, c: Tid)
    requires r.Valid() && c in r.Last().shared.core.created
    ensures c in r.Last().threads
    ensures || c in r.Last().shared.core.cancelled || InHand(r.Last().threads[c]) || Stored(r.Last(), c)
            || Replaced(r.Last(), c) || DeletedUnread(r.Last(), c)
  {
    AccountedRun(r);
    var s := r.Last();
    assert c in s.threads && HasCreated(s.threads[c]) && RunsCall(r.calls, c, s.threads[c]);
    if CreationFailed(s.threads[c]) { assert c in Cancels(c, s.threads[c]); }
    assert HasStored(s.threads[c]) ==> Accounted(s, c);
  }

  lemma IsolationAt(calls: map<Tid, Call>, s: State, c: Tid)
    requires ThreadsInv(calls, s) && ContextsExact(s)
    ensures c in s.shared.core.cancelled <==>
      || (c in s.threads && CreationFailed(s.threads[c]))
      || (exists u :: u in s.threads && PassedCancel(s.threads[u]) && s.threads[u].mc.value.ctx == c && c in calls
            && calls[c].targetPath == s.threads[u].call.targetPath)
  {
    if c in s.shared.core.cancelled {
      var i :| i in s.threads && c in Cancels(i, s.threads[i]);
      assert RunsCall(calls, i, s.threads[i]);
      assert !s.threads[i].call.Publish? ==> PassedCancel(s.threads[i]) && s.threads[i].mc.value.ctx == c;
    }
    if u :| u in s.threads && PassedCancel(s.threads[u]) && s.threads[u].mc.value.ctx == c {
      assert c in Cancels(u, s.threads[u]);
    }
    if c in s.threads && CreationFailed(s.threads[c]) {
      assert c in Cancels(c, s.threads[c]);
    }
  }

  /** Every created context of the state is cancelled, in the hands of its publish, stored, or overwritten by a later
      publish of the same path. */
  ghost predicate AllConserved(s: State) {
    forall c :: c in s.shared.core.created ==>
      c in s.threads && (c in s.shared.core.cancelled || InHand(s.threads[c]) || Stored(s, c) || Overwritten(s, c))
  }

  /** Conservation in every reachable state, when whatever changes a mount has the volume ID that it was stored under. */
  lemma ContextConservation(r: Run)
    requires r.Valid() && OneVolumeWhereChanged(r.calls)
    ensures AllConserved(r.Last())
  {
    ConservedRun(r);
    hide Conserved, ContextsExact, ReadsStable, HistExactly, TargetOrder, HeldExactly;
    forall c | c in r.Last().shared.core.created
      ensures c in r.Last().threads
      ensures c in r.Last().shared.core.cancelled || InHand(r.Last().threads[c]) || Stored(r.Last(), c) || Overwritten(r.Last(), c)
    {
      assert c in r.Last().threads ==> RunsCall(r.calls, c, r.Last().threads[c]);
      ConservationAt(r.Last(), c);
    }
  }

  lemma ConservationAt(s: State, c: Tid)
    requires ContextsExact(s) && Conserved(s) && c in s.shared.core.created
    requires c in s.threads ==> OnPath(s.threads[c])
    ensures c in s.threads
    ensures c in s.shared.core.cancelled || InHand(s.threads[c]) || Stored(s, c) || Overwritten(s, c)
  {
    assert c in s.threads && HasCreated(s.threads[c]);
    if CreationFailed(s.threads[c]) { assert c in Cancels(c, s.threads[c]); }
  }

  /** An unpublish that answers OK deletes exactly the entry that it has read and unmounted. */
  lemma UnpublishDeletesWhatItRead(r: Run, u: Tid)
    requires r.Valid() && OneVolumeWhereChanged(r.calls)
    requires u in r.Last().threads && r.Last().threads[u].pc.Deleting?
    ensures MountAt(r.Last().shared, r.Last().threads[u].call.targetPath) == r.Last().threads[u].mc
    ensures r.Last().threads[u].mc.Some? ==> r.Last().threads[u].mc.value.ctx in r.Last().shared.core.cancelled
  {
    CtxRun(r);
    hide TargetOrder, HeldExactly, HistExactly, ContextsExact, ReadsStable;
    DeletingSees(r.calls, r.Last(), u);
  }

  lemma DeletingSees(calls: map<Tid, Call>, s: State, u: Tid)
    requires ThreadsInv(calls, s) && ContextsExact(s) && ReadsStable(calls, s) && OneVolumeWhereChanged(calls)
    requires u in s.threads && s.threads[u].pc.Deleting?
    ensures MountAt(s.shared, s.threads[u].call.targetPath) == s.threads[u].mc
    ensures s.threads[u].mc.Some? ==> s.threads[u].mc.value.ctx in s.shared.core.cancelled
  {
    assert RunsCall(calls, u, s.threads[u]);
    DeletingGuarded(calls, u);
    hide Guarded, OneVolumeWhereChanged, MountsOk;
    if s.threads[u].mc.Some? {
      assert s.threads[u].mc.value.ctx in Cancels(u, s.threads[u]);
    }
  }

  lemma DeletingGuarded(calls: map<Tid, Call>, u: Tid)
    requires OneVolumeWhereChanged(calls) && u in calls && Changes(calls[u])
    ensures Guarded(calls, calls[u])
  {
    if c :| c in calls && Stores(calls[c]) && calls[c].targetPath == calls[u].targetPath {
      ChangesGuarded(calls, u, c);
    }
  }
}

/** What the answers of publish and unpublish mean, over whole runs. */
module Answers {
  import opened Options
  import opened MountProtocol
  import opened Linearization
  import opened MountContexts

  lemma AnswerOf(calls: map<Tid, Call>, i: Tid, th: Thread)
    requires RunsCall(calls, i, th) && th.pc.Done?
    ensures th.pc.result == Aborted <==> !Acquired(th.pc)
    ensures th.pc.result == Ok <==> Acquired(th.pc) && Succeeds(calls[i])
  {
  }

  /** In every reachable state: a call that has answered was aborted exactly if it never had its lock, and has answered OK
      exactly if it had its lock and all that it needs has succeeded. */
  lemma AnswersExactly(r: Run, i: Tid)
    requires r.Valid() && i in r.calls
    ensures i in r.Last().threads
    ensures var pc := r.Last().threads[i].pc; pc.Done? ==>
      (pc.result == Aborted <==> i !in r.Last().hist) && (pc.result == Ok <==> i in r.Last().hist && Succeeds(r.calls[i]))
  {
    LocksExact(r);
    hide HeldExactly;
    assert RunsCall(r.calls, i, r.Last().threads[i]);
    if r.Last().threads[i].pc.Done? { AnswerOf(r.calls, i, r.Last().threads[i]); }
  }

  // ---- where the mounts of the answered calls are ----

  /** An unpublish of the path has deleted a mount. */
  ghost predicate Deleted(s: State, c: Tid) {
    exists u :: u in s.threads && c in s.threads && HasDeleted(s.threads[u])
                && s.threads[u].call.targetPath == s.threads[c].call.targetPath
  }

  ghost predicate Traced(s: State, c: Tid) {
    Stored(s, c) || Replaced(s, c) || Deleted(s, c)
  }

  ghost predicate AllTraced(s: State) {
    forall c :: c in s.threads && HasStored(s.threads[c]) ==> Traced(s, c)
  }

  /** Whose mount is stored anywhere has stored it. */
  ghost predicate OnlyStored(s: State) {
    forall t :: t in s.shared.core.mounts ==>
      s.shared.core.mounts[t].ctx in s.threads && HasStored(s.threads[s.shared.core.mounts[t].ctx])
  }

  lemma TracedLater(s: State, s': State, c: Tid)
    requires s'.threads.Keys == s.threads.Keys && forall j :: j in s.threads ==> GoesOn(s.threads[j], s'.threads[j])
    requires Replaced(s, c) || Deleted(s, c)
    ensures Traced(s', c)
  {
    hide HasStored;
    if Replaced(s, c) {
      var d :| d in s.threads && c in s.threads && d != c && HasStored(s.threads[d])
               && s.threads[d].call.targetPath == s.threads[c].call.targetPath;
      assert HasStored(s'.threads[d]);
    } else {
      var u :| u in s.threads && c in s.threads && HasDeleted(s.threads[u])
               && s.threads[u].call.targetPath == s.threads[c].call.targetPath;
      assert HasDeleted(s'.threads[u]);
    }
  }

  /** What a step of goroutine i between acquisition and release does to what is stored. */
  lemma StepStores(calls: map<Tid, Call>, sh: Shared, i: Tid, th: Thread)
    requires RunsCall(calls, i, th) && !Terminal(th.pc)
    ensures var (sh', th') := LocalStep(sh, i, th);
      && GoesOn(th, th')
      && (th.pc.Storing? ==> HasStored(th') && sh'.core.mounts == sh.core.mounts[th.call.targetPath := Mount(i, th.call.sections.Keys)])
      && (th.pc.Deleting? ==> HasDeleted(th') && sh'.core.mounts == sh.core.mounts - {th.call.targetPath})
      && (!th.pc.Storing? && !th.pc.Deleting? ==> HasStored(th') == HasStored(th) && sh'.core.mounts == sh.core.mounts)
  {
  }

  lemma StoredTraced(s: State, s': State, i: Tid, c: Tid)
    requires i in s.threads && c in s.threads && s'.threads.Keys == s.threads.Keys && Stored(s, c)
    requires forall j :: j in s.threads ==> s'.threads[j].call == s.threads[j].call
    requires var (th, t) := (s.threads[i], s.threads[i].call.targetPath);
      || (HasStored(s'.threads[i]) && exists names :: s'.shared.core.mounts == s.shared.core.mounts[t := Mount(i, names)])
      || (HasDeleted(s'.threads[i]) && s'.shared.core.mounts == s.shared.core.mounts - {t})
      || s'.shared.core.mounts == s.shared.core.mounts
    ensures Traced(s', c)
  {
    hide HasStored, HasDeleted;
    assert i in s'.threads && c in s'.threads;
  }

  lemma TracedStep(calls: map<Tid, Call>, s: State, s': State, i: Tid)
    requires StateOk(s) && AllTraced(s) && OnlyStored(s) && i in s.threads && RunsCall(calls, i, s.threads[i]) && !Terminal(s.threads[i].pc)
    requires s'.threads == s.threads[i := LocalStep(s.shared, i, s.threads[i]).1]
    requires s'.shared == LocalStep(s.shared, i, s.threads[i]).0
    ensures AllTraced(s') && OnlyStored(s')
  {
    StepStores(calls, s.shared, i, s.threads[i]);
    hide LocalStep, HasStored, RunsCall, HasDeleted, Replaced, Deleted;
    forall c | c in s'.threads && HasStored(s'.threads[c])
      ensures Traced(s', c)
    {
      if HasStored(s.threads[c]) {
        assert Traced(s, c);
        if Stored(s, c) { StoredTraced(s, s', i, c); } else { TracedLater(s, s', c); }
      } else {
        assert c == i && Stored(s', c);
      }
    }
  }

  lemma TracedIdle(calls: map<Tid, Call>, s: State, s': State, i: Tid)
    requires AllTraced(s) && OnlyStored(s) && StepShape(s, s', i) && i in s.threads && RunsCall(calls, i, s.threads[i])
    requires Terminal(s.threads[i].pc) && s.threads[i].pc != Releasing(Aborted)
    ensures AllTraced(s') && OnlyStored(s')
  {
    if !s.threads[i].pc.Done? {
      IdleContexts(calls, i, s.threads[i], s'.threads[i]);
      StoredIdle(s, s');
      hide RunsCall, Cancels, Replaced, Deleted, Stored;
      forall c | c in s'.threads && HasStored(s'.threads[c])
        ensures Traced(s', c)
      {
        assert HasStored(s.threads[c]) && Traced(s, c);
        if !Stored(s, c) { TracedLater(s, s', c); }
      }
    }
  }

  lemma {:induction false} TracedRun(r: Run)
    requires r.Valid()
    ensures AllTraced(r.Last()) && OnlyStored(r.Last())
    decreases |r.sched|
  {
    if r.sched != [] {
      var i := r.sched[|r.sched| - 1];
      r.BeforeValid();
      var s := r.Before().Last();
      TracedRun(r.Before());
      LocksExact(r.Before());
      StepHasShape(r.calls, s, i);
      hide AllTraced, OnlyStored, HeldExactly, HistExactly;
      if i in s.threads {
        assert RunsCall(r.calls, i, s.threads[i]) && s.threads[i].pc != Releasing(Aborted);
        if Terminal(s.threads[i].pc) {
          TracedIdle(r.calls, s, Step(s, i), i);
        } else {
          TracedStep(r.calls, s, Step(s, i), i);
        }
      }
    }
  }

  /** In every reachable state: a publish that has answered OK has its mount stored, unless another publish of the path has
      stored one or an unpublish of the path has deleted one; a publish that has answered anything else has none. */
  lemma AnsweredMounts(r: Run, i: Tid)
    requires r.Valid() && i in r.calls && r.calls[i].Publish? && i in r.Last().threads && r.Last().threads[i].pc.Done?
    ensures r.Last().threads[i].pc.result == Ok ==> Stored(r.Last(), i) || Replaced(r.Last(), i) || Deleted(r.Last(), i)
    ensures r.Last().threads[i].pc.result != Ok ==> forall t :: t in r.Last().shared.core.mounts ==> r.Last().shared.core.mounts[t].ctx != i
  {
    TracedRun(r);
    LocksExact(r);
    hide HeldExactly, HistExactly, Run.Valid, Replaced, Deleted;
    var s := r.Last();
    assert RunsCall(r.calls, i, s.threads[i]);
    AnswerOf(r.calls, i, s.threads[i]);
    hide RunsCall;
    assert HasStored(s.threads[i]) ==> Traced(s, i);
  }
}

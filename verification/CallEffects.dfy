/** What whole calls do to each other, on the sequential specification that Linearization shows every concurrent
    run to have: retried unpublishes, and exactly when one call damages another's mount. */
module CallEffects {
  import opened Options
  import opened MountProtocol
  import opened Linearization

  // ---- whole calls on different targets commute ----

  lemma {:induction false} CompletesCommute(
    calls: map<Tid, Call>, d: bool, sh: Shared, i: Tid, th: Thread, j: Tid, uh: Thread)
    requires RunsCall(calls, i, th) && RunsCall(calls, j, uh) && MountsOk(calls, sh.core)
    requires th.call.targetPath != uh.call.targetPath && (d ==> DisjointRemotes(calls))
    ensures Same(d, Complete(Complete(sh, i, th), j, uh), Complete(Complete(sh, j, uh), i, th))
    decreases Rank(th.pc)
  {
    if !Terminal(th.pc) {
      var (a, th') := LocalStep(sh, i, th);
      LocalStepKeeps(calls, sh, i, th);
      CompletesCommute(calls, d, a, i, th', j, uh);
      CompleteStepCommute(calls, d, sh, i, th, j, uh);
      var x := Complete(sh, j, uh);
      CompleteSame(d, Complete(a, j, uh), LocalStep(x, i, th).0, i, th');
    }
  }

  lemma CallsCommute(calls: map<Tid, Call>, d: bool, sh: Shared, i: Tid, j: Tid)
    requires i in calls && j in calls && calls[i].targetPath != calls[j].targetPath && MountsOk(calls, sh.core)
    requires d ==> DisjointRemotes(calls)
    ensures Same(d, RunCall(RunCall(sh, i, calls[i]), j, calls[j]), RunCall(RunCall(sh, j, calls[j]), i, calls[i]))
  {
    var th, uh := Thread(calls[i], First(calls[i]), None), Thread(calls[j], First(calls[j]), None);
    CompletesCommute(calls, d, sh, i, th, j, uh);
    CompleteIsRunCall(sh, i, calls[i]);
    CompleteIsRunCall(sh, j, calls[j]);
    CompleteIsRunCall(RunCall(sh, i, calls[i]), j, calls[j]);
    CompleteIsRunCall(RunCall(sh, j, calls[j]), i, calls[i]);
  }

  lemma RunCallSame(d: bool, a: Shared, b: Shared, i: Tid, c: Call)
    requires Same(d, a, b)
    ensures Same(d, RunCall(a, i, c), RunCall(b, i, c))
  {
  }

  lemma RunCallKeeps(calls: map<Tid, Call>, sh: Shared, i: Tid)
    requires i in calls && MountsOk(calls, sh.core)
    ensures MountsOk(calls, RunCall(sh, i, calls[i]).core)
  {
  }

  lemma {:induction false} RunSeqSame(calls: map<Tid, Call>, d: bool, a: Shared, b: Shared, order: seq<Tid>)
    requires InCalls(calls, order) && Same(d, a, b)
    ensures Same(d, RunSeq(calls, a, order), RunSeq(calls, b, order))
  {
    if order != [] {
      var n := |order| - 1;
      RunSeqSame(calls, d, a, b, order[..n]);
      RunCallSame(d, RunSeq(calls, a, order[..n]), RunSeq(calls, b, order[..n]), order[n], calls[order[n]]);
    }
  }

  lemma {:induction false} RunSeqKeeps(calls: map<Tid, Call>, sh: Shared, order: seq<Tid>)
    requires InCalls(calls, order) && MountsOk(calls, sh.core)
    ensures MountsOk(calls, RunSeq(calls, sh, order).core)
  {
    if order != [] {
      var n := |order| - 1;
      RunSeqKeeps(calls, sh, order[..n]);
      RunCallKeeps(calls, RunSeq(calls, sh, order[..n]), order[n]);
    }
  }

  lemma {:induction false} RunSeqAppend(calls: map<Tid, Call>, sh: Shared, a: seq<Tid>, b: seq<Tid>)
    requires InCalls(calls, a) && InCalls(calls, b)
    ensures InCalls(calls, a + b) && RunSeq(calls, sh, a + b) == RunSeq(calls, RunSeq(calls, sh, a), b)
  {
    if b == [] {
      assert a + b == a;
    } else {
      var n := |b| - 1;
      RunSeqAppend(calls, sh, a, b[..n]);
      assert (a + b)[..|a + b| - 1] == a + b[..n];
      assert (a + b)[|a + b| - 1] == b[n];
    }
  }

  // ---- retried unpublish ----

  predicate FailingUnpublish(c: Call, target: string) {
    c.Unpublish? && c.targetPath == target && !c.cleaned
  }

  /** The calls on other targets, in their order. */
  function Elsewhere(calls: map<Tid, Call>, order: seq<Tid>, target: string): (rest: seq<Tid>)
    requires InCalls(calls, order)
    ensures InCalls(calls, rest)
  {
    if order == [] then []
    else
      var n := |order| - 1;
      Elsewhere(calls, order[..n], target) + (if calls[order[n]].targetPath == target then [] else [order[n]])
  }

  /** An unpublish of the target passes through calls on other targets. */
  lemma {:induction false} PassElsewhere(calls: map<Tid, Call>, d: bool, sh: Shared, order: seq<Tid>, i: Tid)
    requires InCalls(calls, order) && i in calls && MountsOk(calls, sh.core) && (d ==> DisjointRemotes(calls))
    requires forall p :: 0 <= p < |order| ==> calls[order[p]].targetPath != calls[i].targetPath
    ensures Same(d, RunSeq(calls, RunCall(sh, i, calls[i]), order), RunCall(RunSeq(calls, sh, order), i, calls[i]))
  {
    if order != [] {
      var n := |order| - 1;
      var init, j := order[..n], order[n];
      PassElsewhere(calls, d, sh, init, i);
      var x := RunSeq(calls, sh, init);
      RunSeqKeeps(calls, sh, init);
      RunCallSame(d, RunSeq(calls, RunCall(sh, i, calls[i]), init), RunCall(x, i, calls[i]), j, calls[j]);
      CallsCommute(calls, d, x, i, j);
    }
  }

  /** A failing unpublish, then a successful one, is the successful one alone. */
  lemma FailThenSucceed(sh: Shared, i: Tid, c: Call, j: Tid, u: Call)
    requires FailingUnpublish(c, u.targetPath) && u.Unpublish? && u.cleaned
    ensures RunCall(RunCall(sh, i, c), j, u) == RunCall(sh, j, u)
  {
    if u.targetPath in sh.core.mounts {
      var m := sh.core.mounts[u.targetPath];
      assert sh.config - m.remotes - m.remotes == sh.config - m.remotes;
    }
  }

  lemma {:induction false} ElsewhereTargets(calls: map<Tid, Call>, order: seq<Tid>, target: string)
    requires InCalls(calls, order)
    ensures forall k :: k in Elsewhere(calls, order, target) ==> k in calls && calls[k].targetPath != target
  {
    if order != [] { ElsewhereTargets(calls, order[..|order| - 1], target); }
  }

  lemma ElsewhereLast(calls: map<Tid, Call>, order: seq<Tid>, target: string)
    requires InCalls(calls, order) && order != []
    ensures var n := |order| - 1;
            Elsewhere(calls, order, target) ==
              Elsewhere(calls, order[..n], target) + (if calls[order[n]].targetPath == target then [] else [order[n]])
  {
  }

  lemma {:induction false} ElsewhereAppend(calls: map<Tid, Call>, i: Tid, order: seq<Tid>, target: string)
    requires InCalls(calls, order) && i in calls
    ensures InCalls(calls, [i] + order)
    ensures Elsewhere(calls, [i] + order, target) == Elsewhere(calls, [i], target) + Elsewhere(calls, order, target)
  {
    if order == [] {
      assert [i] + order == [i];
    } else {
      var n := |order| - 1;
      ElsewhereAppend(calls, i, order[..n], target);
      var all := [i] + order;
      assert all[..n + 1] == [i] + order[..n] && all[n + 1] == order[n];
      ElsewhereLast(calls, order, target);
      ElsewhereLast(calls, all, target);
      hide Elsewhere;
    }
  }

  /** Any number of failing unpublishes of a target, mixed with any calls on other targets, then a successful one:
      the failing ones leave no trace. */
  lemma {:induction false} RetriesLeaveNoTrace(calls: map<Tid, Call>, d: bool, sh: Shared, mid: seq<Tid>, u: Tid)
    requires InCalls(calls, mid) && u in calls && calls[u].Unpublish? && calls[u].cleaned
    requires MountsOk(calls, sh.core) && (d ==> DisjointRemotes(calls))
    requires forall p :: 0 <= p < |mid| && calls[mid[p]].targetPath == calls[u].targetPath
                         ==> FailingUnpublish(calls[mid[p]], calls[u].targetPath)
    ensures Same(d, RunCall(RunSeq(calls, sh, mid), u, calls[u]),
                    RunCall(RunSeq(calls, sh, Elsewhere(calls, mid, calls[u].targetPath)), u, calls[u]))
    decreases |mid|
  {
    if mid != [] {
      var t := calls[u].targetPath;
      var i, rest := mid[0], mid[1..];
      assert mid == [i] + rest;
      var sh1 := RunCall(sh, i, calls[i]);
      RunSeqAppend(calls, sh, [i], rest);
      assert RunSeq(calls, sh, [i]) == RunCall(RunSeq(calls, sh, []), i, calls[i]) == sh1;
      RunCallKeeps(calls, sh, i);
      RetriesLeaveNoTrace(calls, d, sh1, rest, u);
      ElsewhereAppend(calls, i, rest, t);
      var others := Elsewhere(calls, rest, t);
      assert Elsewhere(calls, [i], t) == if calls[i].targetPath == t then [] else [i];
      if calls[i].targetPath == t {
        ElsewhereTargets(calls, rest, t);
        PassElsewhere(calls, d, sh, others, i);
        var x := RunSeq(calls, sh, others);
        RunCallSame(d, RunSeq(calls, sh1, others), RunCall(x, i, calls[i]), u, calls[u]);
        FailThenSucceed(x, i, calls[i], u, calls[u]);
        assert Elsewhere(calls, mid, t) == others;
      } else {
        RunSeqAppend(calls, sh, [i], others);
        assert Elsewhere(calls, mid, t) == [i] + others;
      }
    }
  }

  /** Main result, on concurrent runs: if the history of a quiescent run is pre + mid + [u] + post, where u is a
      successful unpublish and mid has, on u's target, only failing unpublishes, then the run ends as if the
      failing ones had never been made. */
  lemma RetriedUnpublish(r: Run, pre: seq<Tid>, mid: seq<Tid>, u: Tid, post: seq<Tid>)
    requires r.Valid() && OneVolumeWhereStored(r.calls) && Quiescent(r.Last())
    requires r.Last().hist == pre + mid + [u] + post
    requires u in r.calls && r.calls[u].Unpublish? && r.calls[u].cleaned
    requires forall k :: k in mid && k in r.calls && r.calls[k].targetPath == r.calls[u].targetPath
                         ==> FailingUnpublish(r.calls[k], r.calls[u].targetPath)
    ensures InCalls(r.calls, mid)
    ensures InCalls(r.calls, pre + Elsewhere(r.calls, mid, r.calls[u].targetPath) + [u] + post)
    ensures var once := pre + Elsewhere(r.calls, mid, r.calls[u].targetPath) + [u] + post;
            Same(Tidy(r.calls), r.Last().shared, RunSeq(r.calls, InitShared(r.base), once))
  {
    Linearizable(r);
    var h, calls, base := r.Last().hist, r.calls, InitShared(r.base);
    var t := calls[u].targetPath;
    assert forall p :: 0 <= p < |pre| ==> pre[p] == h[p];
    assert forall p :: 0 <= p < |mid| ==> mid[p] == h[|pre| + p];
    assert forall p :: 0 <= p < |post| ==> post[p] == h[|pre| + |mid| + 1 + p];
    SplitRun(calls, base, pre, mid, u, post);
    SplitRun(calls, base, pre, Elsewhere(calls, mid, t), u, post);
    var x := RunSeq(calls, base, pre);
    RunSeqKeeps(calls, base, pre);
    RetriesLeaveNoTrace(calls, Tidy(calls), x, mid, u);
    RunSeqSame(calls, Tidy(calls), RunCall(RunSeq(calls, x, mid), u, calls[u]),
               RunCall(RunSeq(calls, x, Elsewhere(calls, mid, t)), u, calls[u]), post);
  }

  lemma SplitRun(calls: map<Tid, Call>, base: Shared, pre: seq<Tid>, mid: seq<Tid>, u: Tid, post: seq<Tid>)
    requires InCalls(calls, pre) && InCalls(calls, mid) && u in calls && InCalls(calls, post)
    ensures InCalls(calls, pre + mid + [u] + post)
    ensures RunSeq(calls, base, pre + mid + [u] + post)
         == RunSeq(calls, RunCall(RunSeq(calls, RunSeq(calls, base, pre), mid), u, calls[u]), post)
  {
    RunSeqAppend(calls, base, pre, mid);
    RunSeqAppend(calls, base, pre + mid, [u]);
    RunSeqAppend(calls, base, pre + mid + [u], post);
    var y := RunSeq(calls, base, pre + mid);
    assert RunSeq(calls, y, [u]) == RunCall(RunSeq(calls, y, []), u, calls[u]);
  }

  // ---- when a call damages what it should leave alone ----

  predicate LiveMount(sh: Shared, target: string) {
    target in sh.core.mounts && sh.core.mounts[target].ctx !in sh.core.tornDown
  }

  /** Every live mount has all the sections that it was stored with. */
  ghost predicate AllServed(sh: Shared) {
    forall t :: LiveMount(sh, t) ==> sh.core.mounts[t].remotes <= sh.config.Keys
  }

  /** The section names that the call deletes. */
  function Dropped(sh: Shared, c: Call): set<string> {
    if c.Publish? then (if Entered(c) && !c.mounted then c.sections.Keys else {})
    else if c.targetPath in sh.core.mounts then sh.core.mounts[c.targetPath].remotes
    else {}
  }

  /** The call is an unpublish that tears this very mount down. */
  predicate TornBy(sh: Shared, c: Call, target: string)
    requires target in sh.core.mounts
  {
    c.Unpublish? && c.targetPath in sh.core.mounts && sh.core.mounts[c.targetPath].ctx == sh.core.mounts[target].ctx
  }

  /** A call leaves every live mount served if and only if no live mount, other than the one it tears down, has a
      section name that the call deletes, and a mount that it stores has no section without keys that was not there.
      A publish whose mount fails on a path that is already mounted with the same remotes, and an unpublish of one of
      two mounts that share a remote, are the two ways to take a section away. */
  lemma ServedExactlyWhenDisjoint(sh: Shared, i: Tid, c: Call)
    requires AllServed(sh)
    ensures AllServed(RunCall(sh, i, c)) <==>
      && (forall t :: LiveMount(sh, t) && !TornBy(sh, c, t) ==> sh.core.mounts[t].remotes !! Dropped(sh, c))
      && (Stores(c) && i !in sh.core.tornDown ==> c.sections.Keys <= sh.config.Keys + NonEmpty(c.sections))
  {
    var sh' := RunCall(sh, i, c);
    if Stores(c) {
      ServedByStore(sh, i, c);
    } else {
      forall t | LiveMount(sh, t) && !TornBy(sh, c, t)
        ensures LiveMount(sh', t) && sh'.core.mounts[t] == sh.core.mounts[t]
      {
      }
      forall t | LiveMount(sh', t)
        ensures LiveMount(sh, t) && !TornBy(sh, c, t) && sh'.core.mounts[t] == sh.core.mounts[t]
      {
      }
      if AllServed(sh') {
        forall t | LiveMount(sh, t) && !TornBy(sh, c, t)
          ensures sh.core.mounts[t].remotes !! Dropped(sh, c)
        {
          assert sh'.core.mounts[t].remotes <= sh'.config.Keys;
        }
      }
    }
  }

  lemma ServedByStore(sh: Shared, i: Tid, c: Call)
    requires AllServed(sh) && Stores(c)
    ensures Dropped(sh, c) == {}
    ensures AllServed(RunCall(sh, i, c)) <==>
      (i !in sh.core.tornDown ==> c.sections.Keys <= sh.config.Keys + NonEmpty(c.sections))
  {
    var sh' := RunCall(sh, i, c);
    assert sh'.config.Keys == sh.config.Keys + NonEmpty(c.sections);
    hide LoadAll;
    assert LiveMount(sh', c.targetPath) <==> i !in sh.core.tornDown;
    assert sh'.core.mounts[c.targetPath].remotes == c.sections.Keys;
    forall t | t != c.targetPath && LiveMount(sh', t)
      ensures sh'.core.mounts[t].remotes <= sh'.config.Keys
    {
      assert LiveMount(sh, t);
    }
  }

  /** Every value of the part is in the configuration already. */
  ghost predicate Within(part: Config, config: Config) {
    forall n, k :: n in part && k in part[n] ==> n in config && k in config[n] && config[n][k] == part[n][k]
  }

  /** A publish that fails leaves the configuration as it was exactly when it failed before loading, or none of
      its sections existed before and loading succeeded, or the part of the load that came through before
      UpdateRemote failed changed nothing: after a failed UpdateRemote nothing is rolled back. */
  lemma FailedPublishRestores(sh: Shared, i: Tid, c: Call)
    requires c.Publish? && Outcome(c) == Failed
    ensures RunCall(sh, i, c).config == sh.config <==>
      || !c.prepared
      || (c.load.Loaded? && c.sections.Keys !! sh.config.Keys)
      || (c.load.UpdateFailed? && Within(PartialLoad(c), sh.config))
  {
    if c.prepared && c.load.Loaded? {
      var config' := LoadAll(sh.config, c.sections) - c.sections.Keys;
      forall n | n in config' ensures config'[n] == sh.config[n] {
        var none: Section := map[];
        assert sh.config[n] + none == sh.config[n];
      }
      assert config'.Keys == sh.config.Keys - c.sections.Keys;
      if config' == sh.config {
        assert sh.config.Keys - c.sections.Keys == sh.config.Keys;
      }
    } else if c.prepared {
      LoadUnchanged(sh.config, PartialLoad(c));
    }
  }

  lemma LoadUnchanged(config: Config, part: Config)
    ensures LoadAll(config, part) == config <==> Within(part, config)
  {
    if LoadAll(config, part) == config {
      forall n, k | n in part && k in part[n]
        ensures n in config && k in config[n] && config[n][k] == part[n][k]
      {
        assert n in LoadAll(config, part);
        assert config[n] == Get(config, n) + part[n];
      }
    }
    if Within(part, config) {
      forall n | n in config
        ensures LoadAll(config, part)[n] == config[n]
      {
        assert config[n] + Get(part, n) == config[n];
      }
      forall n | n in part && part[n] != map[]
        ensures n in config
      {
        var k :| k in part[n];
      }
      assert LoadAll(config, part).Keys == config.Keys;
    }
  }

  // ---- publishing what is published already ----

  /** The mount of the path is still stored, and its sections are as they were. */
  ghost predicate Undisturbed(sh: Shared, sh': Shared, target: string, m: Mount) {
    MountAt(sh', target) == Some(m)
    && forall name :: name in m.remotes && name in sh.config ==> name in sh'.config && sh'.config[name] == sh.config[name]
  }

  /** A publish of a path that has a mount with the same section names leaves that mount and its sections alone exactly
      when it fails before loading, or the part of the load that came through before UpdateRemote failed changed
      nothing, or it fails to mount and there is no section to lose.  In particular no publish that succeeds does. */
  lemma PublishAgainExactly(sh: Shared, i: Tid, c: Call, m: Mount)
    requires c.Publish? && MountAt(sh, c.targetPath) == Some(m) && m.ctx != i
    requires c.sections.Keys == m.remotes && m.remotes <= sh.config.Keys
    ensures Undisturbed(sh, RunCall(sh, i, c), c.targetPath, m) <==>
      || !c.prepared
      || (c.load.UpdateFailed? && Within(PartialLoad(c), sh.config))
      || (c.load.Loaded? && !c.mounted && m.remotes == {})
  {
    if c.prepared && c.load.UpdateFailed? {
      PartUndisturbed(sh.config, PartialLoad(c), m.remotes);
    } else if c.prepared {
      PublishAgainHarms(sh, i, c, m);
      assert m.remotes == {} || exists name :: name in m.remotes;
      hide LoadAll;
    }
  }

  lemma PartUndisturbed(config: Config, part: Config, names: set<string>)
    requires part.Keys <= names <= config.Keys
    ensures (forall name :: name in names ==> LoadAll(config, part)[name] == config[name]) <==> Within(part, config)
  {
    LoadUnchanged(config, part);
    var loaded := LoadAll(config, part);
    if forall name :: name in names ==> loaded[name] == config[name] {
      forall name | name in config
        ensures loaded[name] == config[name]
      {
        if name !in names { assert config[name] + map[] == config[name]; }
      }
      assert loaded == config;
    }
    hide Within;
  }

  /** If it comes to create a mount, it leaves the older one behind: a mount that replaces it without cancelling its
      context, which nobody can cancel any more, or, where mounting fails, a mount without its sections. */
  lemma PublishAgainHarms(sh: Shared, i: Tid, c: Call, m: Mount)
    requires Entered(c) && MountAt(sh, c.targetPath) == Some(m) && m.ctx != i && c.sections.Keys == m.remotes
    ensures var sh' := RunCall(sh, i, c);
      && (m.ctx in sh'.core.cancelled <==> m.ctx in sh.core.cancelled)
      && (c.mounted ==> MountAt(sh', c.targetPath) == Some(Mount(i, m.remotes)))
      && (c.mounted && (forall t :: t in sh.core.mounts && t != c.targetPath ==> sh.core.mounts[t].ctx != m.ctx)
          ==> forall t :: t in sh'.core.mounts ==> sh'.core.mounts[t].ctx != m.ctx)
      && (!c.mounted ==> MountAt(sh', c.targetPath) == Some(m) && m.remotes !! sh'.config.Keys)
  {
    hide LoadAll;
  }

  /** So publish is not idempotent: the second of two successful publishes is never without effect. */
  lemma PublishNotIdempotent(sh: Shared, i: Tid, j: Tid, c: Call)
    requires Stores(c) && i != j && i !in sh.core.cancelled
    ensures var once, twice := RunCall(sh, i, c), RunCall(RunCall(sh, i, c), j, c);
            once.core.mounts[c.targetPath].ctx == i && twice.core.mounts[c.targetPath].ctx == j
            && i !in twice.core.cancelled && twice.core != once.core
  {
    var once := RunCall(sh, i, c);
    PublishAgainHarms(once, j, c, Mount(i, c.sections.Keys));
    hide LoadAll;
  }
}

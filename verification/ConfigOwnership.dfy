/** Which sections of the rclone configuration exist, and for whom, over whole runs. */
module ConfigOwnership {
  import opened Options
  import opened MountProtocol
  import opened Linearization
  import opened MountContexts

  /** The publish has loaded its sections and has neither rolled back nor stored its mount. */
  predicate InFlightLoaded(th: Thread) {
    th.pc.Creating? || th.pc.Mounting? || th.pc.CancelOwn? || th.pc.RollingBack? || th.pc.Storing?
  }

  /** The sections of publish i are wanted: it is in flight past loading, or its mount is stored and not torn down. */
  ghost predicate Live(s: State, i: Tid) {
    i in s.threads && (InFlightLoaded(s.threads[i]) || (Stored(s, i) && i !in s.shared.core.tornDown))
  }

  ghost function LiveSet(s: State): set<Tid> {
    set i | i in s.threads && Live(s, i)
  }

  ghost predicate Publishes(calls: map<Tid, Call>, live: set<Tid>) {
    forall i :: i in live ==> i in calls && calls[i].Publish?
  }

  /** The sections that come into being: those with keys. */
  function Kept(sections: Config): Config {
    map name | name in sections && sections[name] != map[] :: sections[name]
  }

  /** The publish has a section that comes into being. */
  predicate Keyed(c: Call) {
    c.Publish? && Kept(c.sections) != map[]
  }

  ghost predicate KeyedPath(calls: map<Tid, Call>, target: string) {
    exists i :: i in calls && Keyed(calls[i]) && calls[i].targetPath == target
  }

  /** The live publishes that matter for the configuration. */
  ghost function KeyedLive(calls: map<Tid, Call>, s: State): set<Tid> {
    set i | i in s.threads && Live(s, i) && i in calls && Keyed(calls[i])
  }

  ghost function OwnedNames(calls: map<Tid, Call>, live: set<Tid>): set<string>
    requires Publishes(calls, live)
  {
    set i, name | i in live && name in Kept(calls[i].sections) :: name
  }

  /** The configuration holds the base sections as they were and, unaltered, the sections of the live publishes,
      and nothing else. */
  ghost predicate ConfigOwned(calls: map<Tid, Call>, base: Config, live: set<Tid>, config: Config) {
    && Publishes(calls, live)
    && config.Keys == base.Keys + OwnedNames(calls, live)
    && (forall name :: name in base ==> config[name] == base[name])
    && (forall i, name :: i in live && name in Kept(calls[i].sections) ==>
          name in config && config[name] == Kept(calls[i].sections)[name])
  }

  /** No live publish but i itself has a section that comes into being and shares its name with one of i, and the base has
      none of i's names. */
  ghost predicate Alone(calls: map<Tid, Call>, base: Config, live: set<Tid>, i: Tid)
    requires Publishes(calls, live)
  {
    i in calls && calls[i].Publish? && calls[i].sections.Keys !! base.Keys
    && (forall j :: j in live && j != i ==> Kept(calls[j].sections).Keys !! calls[i].sections.Keys)
  }

  lemma OwnedNamesAdd(calls: map<Tid, Call>, live: set<Tid>, i: Tid)
    requires Publishes(calls, live) && i in calls && calls[i].Publish?
    ensures Publishes(calls, live + {i})
    ensures OwnedNames(calls, live + {i}) == OwnedNames(calls, live) + Kept(calls[i].sections).Keys
  {
    hide Kept;
    var a, b := OwnedNames(calls, live + {i}), OwnedNames(calls, live) + Kept(calls[i].sections).Keys;
    forall name | name in a ensures name in b {
      var j :| j in live + {i} && name in Kept(calls[j].sections);
    }
    forall name | name in b ensures name in a {
      if name !in Kept(calls[i].sections) {
        var j :| j in live && name in Kept(calls[j].sections);
        assert j in live + {i};
      } else {
        assert i in live + {i};
      }
    }
  }

  lemma OwnedNamesAlone(calls: map<Tid, Call>, base: Config, live: set<Tid>, i: Tid)
    requires Publishes(calls, live) && Alone(calls, base, live, i) && i !in live
    ensures OwnedNames(calls, live) !! calls[i].sections.Keys
  {
    forall name | name in OwnedNames(calls, live) ensures name !in calls[i].sections {
      var j :| j in live && name in Kept(calls[j].sections);
    }
  }

  lemma OwnedNamesRemove(calls: map<Tid, Call>, base: Config, live: set<Tid>, i: Tid)
    requires Publishes(calls, live) && Alone(calls, base, live, i)
    ensures OwnedNames(calls, live - {i}) == OwnedNames(calls, live) - calls[i].sections.Keys
  {
    OwnedNamesAlone(calls, base, live - {i}, i);
    KeptKeys(calls[i].sections);
    if i in live {
      OwnedNamesAdd(calls, live - {i}, i);
      assert live - {i} + {i} == live;
    } else {
      assert live - {i} == live;
    }
  }

  lemma KeptKeys(sections: Config)
    ensures Kept(sections).Keys <= sections.Keys
  {
  }

  lemma AddLive(calls: map<Tid, Call>, base: Config, live: set<Tid>, config: Config, i: Tid)
    requires ConfigOwned(calls, base, live, config) && Alone(calls, base, live, i) && i !in live
    ensures ConfigOwned(calls, base, live + {i}, LoadAll(config, calls[i].sections))
  {
    hide LoadAll, OwnedNames, Kept;
    var kept := Kept(calls[i].sections);
    KeptKeys(calls[i].sections);
    OwnedNamesAdd(calls, live, i);
    OwnedNamesAlone(calls, base, live, i);
    LoadFresh(config, calls[i].sections);
    forall j, name | j in live + {i} && name in Kept(calls[j].sections)
      ensures name in config + kept && (config + kept)[name] == Kept(calls[j].sections)[name]
    {
      if j != i { assert name in config && name !in kept; }
    }
  }

  lemma EmptyMerges(m: Section)
    ensures m + map[] == m && map[] + m == m
  {
  }

  lemma LoadFresh(config: Config, sections: Config)
    requires config.Keys !! sections.Keys
    ensures LoadAll(config, sections) == config + Kept(sections)
  {
    var x, y := LoadAll(config, sections), config + Kept(sections);
    assert x.Keys == y.Keys;
    forall name | name in y
      ensures x[name] == y[name]
    {
      EmptyMerges(y[name]);
    }
  }

  lemma RemoveLive(calls: map<Tid, Call>, base: Config, live: set<Tid>, config: Config, i: Tid)
    requires ConfigOwned(calls, base, live, config) && Alone(calls, base, live, i)
    ensures ConfigOwned(calls, base, live - {i}, config - calls[i].sections.Keys)
  {
    hide OwnedNames, Kept;
    OwnedNamesRemove(calls, base, live, i);
    var config' := config - calls[i].sections.Keys;
    assert config'.Keys == base.Keys + OwnedNames(calls, live) - calls[i].sections.Keys;
    forall j, name | j in live - {i} && name in Kept(calls[j].sections)
      ensures name in config' && config'[name] == Kept(calls[j].sections)[name]
    {
      KeptKeys(calls[j].sections);
      assert name in config && name !in calls[i].sections;
    }
  }

  // ---- hypotheses on the calls and on how the orchestrator issues them ----

  ghost predicate UpdatesSucceed(calls: map<Tid, Call>) {
    forall i :: i in calls && calls[i].Publish? ==> calls[i].load.Loaded?
  }

  ghost predicate ForeignBase(calls: map<Tid, Call>, base: Config) {
    forall i :: i in calls && calls[i].Publish? ==> calls[i].sections.Keys !! base.Keys
  }

  /** On the path of a publish with keys all calls name its volume. */
  ghost predicate OneVolumeWhereKeyed(calls: map<Tid, Call>) {
    forall i, j | i in calls && j in calls && calls[i].targetPath == calls[j].targetPath ::
      Keyed(calls[i]) ==> calls[i].volumeId == calls[j].volumeId
  }

  /** A section name that publishes of different paths share has no keys in either. */
  ghost predicate SharedKeyless(calls: map<Tid, Call>) {
    forall i, j | i in calls && j in calls && calls[i].targetPath != calls[j].targetPath ::
      calls[i].Publish? && calls[j].Publish? ==> Kept(calls[i].sections).Keys !! calls[j].sections.Keys
  }

  ghost predicate Hypotheses(calls: map<Tid, Call>, base: Config) {
    OneVolumeWhereKeyed(calls) && SharedKeyless(calls) && UpdatesSucceed(calls) && ForeignBase(calls, base)
  }

  /** On such a path one call at a time holds its lock. */
  ghost predicate OneHolderWhereKeyed(calls: map<Tid, Call>, s: State) {
    forall i, j :: i in s.threads && j in s.threads && Holds(s.threads[i].pc) && Holds(s.threads[j].pc) && i != j
                   && s.threads[i].call.targetPath == s.threads[j].call.targetPath
                   ==> !KeyedPath(calls, s.threads[i].call.targetPath)
  }

  lemma KeyedOneVolume(calls: map<Tid, Call>, i: Tid, j: Tid)
    requires OneVolumeWhereKeyed(calls) && i in calls && j in calls && calls[i].targetPath == calls[j].targetPath
    requires KeyedPath(calls, calls[i].targetPath)
    ensures calls[i].volumeId == calls[j].volumeId
  {
    var k :| k in calls && Keyed(calls[k]) && calls[k].targetPath == calls[i].targetPath;
  }

  lemma HolderWhereKeyed(calls: map<Tid, Call>, s: State)
    requires LockInv(calls, s) && OneVolumeWhereKeyed(calls)
    ensures OneHolderWhereKeyed(calls, s)
  {
    LocksApart(calls, s);
    hide HeldExactly, HistExactly, KeyedPath, OneVolumeWhereKeyed;
    forall i, j | i in s.threads && j in s.threads && Holds(s.threads[i].pc) && Holds(s.threads[j].pc) && i != j
                  && s.threads[i].call.targetPath == s.threads[j].call.targetPath
      ensures !KeyedPath(calls, s.threads[i].call.targetPath)
    {
      assert RunsCall(calls, i, s.threads[i]) && RunsCall(calls, j, s.threads[j]);
      if KeyedPath(calls, calls[i].targetPath) { KeyedOneVolume(calls, i, j); }
    }
  }

  /** On such a path an unpublish sees what it has read. */
  ghost predicate ReadsWhereKeyed(calls: map<Tid, Call>, s: State) {
    forall u :: u in s.threads && AfterRead(s.threads[u].pc) && KeyedPath(calls, s.threads[u].call.targetPath)
                ==> MountAt(s.shared, s.threads[u].call.targetPath) == s.threads[u].mc
  }

  lemma KeyedGuarded(calls: map<Tid, Call>, s: State)
    requires OneVolumeWhereKeyed(calls) && ThreadsInv(calls, s) && ReadsStable(calls, s)
    ensures ReadsWhereKeyed(calls, s)
  {
    hide KeyedPath, OneVolumeWhereKeyed;
    forall u | u in s.threads && AfterRead(s.threads[u].pc) && KeyedPath(calls, s.threads[u].call.targetPath)
      ensures Guarded(calls, s.threads[u].call)
    {
      assert RunsCall(calls, u, s.threads[u]);
      forall j | j in calls && calls[j].targetPath == calls[u].targetPath ensures calls[j].volumeId == calls[u].volumeId {
        KeyedOneVolume(calls, u, j);
      }
    }
  }

  // ---- the invariant ----

  ghost predicate UnstoredWhilePublishing(calls: map<Tid, Call>, s: State) {
    forall i :: i in s.threads && PublishPc(s.threads[i].pc) && KeyedPath(calls, s.threads[i].call.targetPath)
                ==> s.threads[i].call.targetPath !in s.shared.core.mounts
  }

  /** A stored mount, and one that an unpublish has read, was stored by its publish. */
  ghost predicate StoredByPublish(s: State) {
    && (forall t :: t in s.shared.core.mounts ==>
          s.shared.core.mounts[t].ctx in s.threads && HasStored(s.threads[s.shared.core.mounts[t].ctx]))
    && (forall u :: u in s.threads && s.threads[u].mc.Some? ==>
          s.threads[u].mc.value.ctx in s.threads && HasStored(s.threads[s.threads[u].mc.value.ctx]))
  }

  /** Only cancelled mounts are torn down, and an unpublish past teardown has torn down what it read. */
  ghost predicate TornInOrder(s: State) {
    && s.shared.core.tornDown <= s.shared.core.cancelled
    && (forall u :: u in s.threads && (s.threads[u].pc.Cleaning? || s.threads[u].pc.Deleting?) && s.threads[u].mc.Some?
                    ==> s.threads[u].mc.value.ctx in s.shared.core.tornDown)
  }

  ghost predicate Orderly(calls: map<Tid, Call>, s: State) {
    UnstoredWhilePublishing(calls, s) && StoredByPublish(s) && TornInOrder(s)
  }

  lemma UnstoredLocal(calls: map<Tid, Call>, s: State, s': State, i: Tid)
    requires StateOk(s) && UnstoredWhilePublishing(calls, s) && OneHolderWhereKeyed(calls, s)
    requires i in s.threads && !Terminal(s.threads[i].pc)
    requires s'.threads == s.threads[i := LocalStep(s.shared, i, s.threads[i]).1]
    requires s'.shared == LocalStep(s.shared, i, s.threads[i]).0
    ensures UnstoredWhilePublishing(calls, s')
  {
    var th := s.threads[i];
    LocalStepEffect(s.shared, i, th);
    assert PublishPc(s'.threads[i].pc) ==> PublishPc(th.pc) && !th.pc.Storing?;
    hide LocalStep;
    hide KeyedPath;
    forall j | j in s'.threads && PublishPc(s'.threads[j].pc) && KeyedPath(calls, s'.threads[j].call.targetPath)
      ensures s'.threads[j].call.targetPath !in s'.shared.core.mounts
    {
      assert j != i ==> s.threads[j].call.targetPath != th.call.targetPath || Terminal(th.pc);
    }
  }

  lemma StoredByLocal(calls: map<Tid, Call>, s: State, s': State, i: Tid)
    requires StateOk(s) && StoredByPublish(s)
    requires i in s.threads && !Terminal(s.threads[i].pc) && RunsCall(calls, i, s.threads[i])
    requires s'.threads == s.threads[i := LocalStep(s.shared, i, s.threads[i]).1]
    requires s'.shared == LocalStep(s.shared, i, s.threads[i]).0
    ensures StoredByPublish(s')
  {
    var th := s.threads[i];
    StoredStays(calls, s.shared, i, th);
    LocalMounts(s.shared, i, th);
    hide LocalStep, HasStored, RunsCall, StateOk, ThreadOk;
    forall t | t in s'.shared.core.mounts
      ensures s'.shared.core.mounts[t].ctx in s'.threads && HasStored(s'.threads[s'.shared.core.mounts[t].ctx])
    {
    }
  }

  lemma StoredStays(calls: map<Tid, Call>, sh: Shared, i: Tid, th: Thread)
    requires RunsCall(calls, i, th) && !Terminal(th.pc)
    ensures var th' := LocalStep(sh, i, th).1; (HasStored(th) ==> HasStored(th')) && (th.pc.Storing? ==> HasStored(th'))
  {
  }

  /** A step adds to the mounts only its own mount, and reads only what is stored. */
  lemma LocalMounts(sh: Shared, i: Tid, th: Thread)
    requires ThreadOk(th) && !Terminal(th.pc)
    ensures var (sh', th') := LocalStep(sh, i, th);
            && (forall t :: t in sh'.core.mounts ==>
                  (t in sh.core.mounts && sh'.core.mounts[t] == sh.core.mounts[t])
                  || (th.pc.Storing? && sh'.core.mounts[t].ctx == i))
            && (th'.mc == th.mc
                || (th.call.targetPath in sh.core.mounts && th'.mc == Some(sh.core.mounts[th.call.targetPath]))
                || th'.mc.None?)
  {
  }

  lemma TornLocal(s: State, s': State, i: Tid)
    requires StateOk(s) && TornInOrder(s) && ContextsExact(s)
    requires i in s.threads && !Terminal(s.threads[i].pc)
    requires s.threads[i].pc.Reading? ==> s.threads[i].mc.None?
    requires s'.threads == s.threads[i := LocalStep(s.shared, i, s.threads[i]).1]
    requires s'.shared == LocalStep(s.shared, i, s.threads[i]).0
    ensures TornInOrder(s')
  {
    var th := s.threads[i];
    LocalStepEffect(s.shared, i, th);
    if th.pc.Dropping? { assert th.mc.value.ctx in Cancels(i, th); }
  }

  /** How a step of goroutine i changes the set of live publishes. */
  function LiveAfter(live: set<Tid>, i: Tid, th: Thread): set<Tid>
    requires ThreadOk(th)
  {
    match th.pc
    case Loading => if th.call.load.Loaded? && Keyed(th.call) then live + {i} else live
    case RollingBack => live - {i}
    case Dropping => live - {th.mc.value.ctx}
    case _ => live
  }

  lemma StoredElsewhere(s: State, s': State, i: Tid, j: Tid)
    requires StateOk(s) && i in s.threads && j in s.threads && !Terminal(s.threads[i].pc)
    requires s'.threads.Keys == s.threads.Keys && s'.threads[j].call == s.threads[j].call
    requires s'.shared == LocalStep(s.shared, i, s.threads[i]).0
    requires s.threads[i].pc.Storing? || s.threads[i].pc.Deleting? ==>
      s.threads[j].call.targetPath != s.threads[i].call.targetPath
    ensures Stored(s', j) == Stored(s, j)
  {
    LocalStepEffect(s.shared, i, s.threads[i]);
  }

  lemma LiveDeleting(calls: map<Tid, Call>, s: State, s': State, i: Tid, j: Tid)
    requires StateOk(s) && TornInOrder(s) && OneHolderWhereKeyed(calls, s) && ReadsWhereKeyed(calls, s)
    requires i in s.threads && !Terminal(s.threads[i].pc) && j in s.threads && j != i
    requires RunsCall(calls, i, s.threads[i]) && RunsCall(calls, j, s.threads[j])
    requires s'.threads == s.threads[i := LocalStep(s.shared, i, s.threads[i]).1]
    requires s'.shared == LocalStep(s.shared, i, s.threads[i]).0
    requires s.threads[i].pc.Deleting? && s.threads[i].call.targetPath == s.threads[j].call.targetPath
    requires KeyedPath(calls, s.threads[j].call.targetPath)
    ensures Live(s', j) == Live(s, j)
  {
    hide KeyedPath;
    var th := s.threads[i];
    assert MountAt(s.shared, th.call.targetPath) == th.mc;
    assert !Stored(s', j);
    assert Stored(s, j) ==> j in s.shared.core.tornDown;
  }

  lemma LiveElsewhere(calls: map<Tid, Call>, s: State, s': State, i: Tid, j: Tid)
    requires StateOk(s) && StoredByPublish(s)
    requires i in s.threads && !Terminal(s.threads[i].pc) && j in s.threads && j != i
    requires RunsCall(calls, i, s.threads[i]) && RunsCall(calls, j, s.threads[j])
    requires s'.threads == s.threads[i := LocalStep(s.shared, i, s.threads[i]).1]
    requires s'.shared == LocalStep(s.shared, i, s.threads[i]).0
    requires s.threads[i].pc.Storing? || s.threads[i].pc.Deleting? ==>
      s.threads[j].call.targetPath != s.threads[i].call.targetPath
    ensures Live(s', j) <==> j in LiveAfter(if Live(s, j) then {j} else {}, i, s.threads[i])
  {
    var th := s.threads[i];
    StoredElsewhere(s, s', i, j);
    LocalStepEffect(s.shared, i, th);
    if th.pc.Dropping? && j == th.mc.value.ctx {
      assert !InFlightLoaded(s.threads[j]);
    }
    hide LocalStep, Stored;
  }

  lemma LiveOther(calls: map<Tid, Call>, s: State, s': State, i: Tid, j: Tid)
    requires StateOk(s) && StateOk(s') && Orderly(calls, s) && OneHolderWhereKeyed(calls, s) && ReadsWhereKeyed(calls, s)
    requires i in s.threads && !Terminal(s.threads[i].pc) && j in s.threads && j != i
    requires RunsCall(calls, i, s.threads[i]) && RunsCall(calls, j, s.threads[j])
    requires s'.threads == s.threads[i := LocalStep(s.shared, i, s.threads[i]).1]
    requires s'.shared == LocalStep(s.shared, i, s.threads[i]).0
    requires KeyedPath(calls, s.threads[j].call.targetPath)
    ensures Live(s', j) <==> j in LiveAfter(if Live(s, j) then {j} else {}, i, s.threads[i])
  {
    hide KeyedPath, Keyed;
    var th := s.threads[i];
    if th.call.targetPath == s.threads[j].call.targetPath && th.pc.Storing? {
      assert !Stored(s, j) && !Stored(s', j);
    } else if th.call.targetPath == s.threads[j].call.targetPath && th.pc.Deleting? {
      hide LocalStep, Stored, ReadsWhereKeyed, StoredByPublish, TornInOrder, UnstoredWhilePublishing, Live;
      LiveDeleting(calls, s, s', i, j);
    } else {
      hide LocalStep, Stored, ReadsWhereKeyed, StoredByPublish, TornInOrder, UnstoredWhilePublishing, Live;
      LiveElsewhere(calls, s, s', i, j);
    }
  }

  lemma LiveSelf(calls: map<Tid, Call>, s: State, s': State, i: Tid)
    requires StateOk(s) && StateOk(s') && Orderly(calls, s) && ContextsExact(s)
    requires i in s.threads && !Terminal(s.threads[i].pc) && RunsCall(calls, i, s.threads[i])
    requires s'.threads == s.threads[i := LocalStep(s.shared, i, s.threads[i]).1]
    requires s'.shared == LocalStep(s.shared, i, s.threads[i]).0
    requires Keyed(calls[i])
    ensures Live(s', i) <==> i in LiveAfter(if Live(s, i) then {i} else {}, i, s.threads[i])
  {
    hide Keyed, KeyedPath, UnstoredWhilePublishing;
    if !s.threads[i].pc.RollingBack? { NotTorn(calls, s, i); }
    LocalStepEffect(s.shared, i, s.threads[i]);
    assert s.threads[i].pc.Storing? ==> Stored(s', i);
    hide HasStored;
  }

  lemma NotTorn(calls: map<Tid, Call>, s: State, i: Tid)
    requires Orderly(calls, s) && ContextsExact(s) && i in s.threads && !HasStored(s.threads[i]) && OnPath(s.threads[i])
    requires !s.threads[i].pc.RollingBack? && !Left(s.threads[i].pc)
    ensures i !in s.shared.core.tornDown
  {
  }

  // ---- whole runs ----

  ghost predicate OwnInv(calls: map<Tid, Call>, base: Config, s: State) {
    CtxInv(calls, s) && Orderly(calls, s) && ConfigOwned(calls, base, KeyedLive(calls, s), s.shared.config)
  }

  lemma LiveStep(calls: map<Tid, Call>, s: State, s': State, i: Tid)
    requires StateOk(s) && StateOk(s') && ThreadsInv(calls, s) && Orderly(calls, s) && OneHolderWhereKeyed(calls, s)
    requires ReadsWhereKeyed(calls, s) && ContextsExact(s) && i in s.threads && !Terminal(s.threads[i].pc)
    requires s'.threads == s.threads[i := LocalStep(s.shared, i, s.threads[i]).1]
    requires s'.shared == LocalStep(s.shared, i, s.threads[i]).0
    ensures KeyedLive(calls, s') == LiveAfter(KeyedLive(calls, s), i, s.threads[i])
  {
    hide LocalStep, Live, Orderly, OneHolderWhereKeyed, ReadsWhereKeyed, ContextsExact, RunsCall, Keyed;
    assert RunsCall(calls, i, s.threads[i]);
    CallOf(calls, i, s.threads[i]);
    forall j | j in s.threads && Keyed(calls[j])
      ensures Live(s', j) <==> j in LiveAfter(if Live(s, j) then {j} else {}, i, s.threads[i])
    {
      assert RunsCall(calls, j, s.threads[j]);
      CallOf(calls, j, s.threads[j]);
      if j == i { LiveSelf(calls, s, s', i); } else { LiveOther(calls, s, s', i, j); }
    }
    hide KeyedPath;
    SameLive(calls, s, s', i);
  }

  lemma CallOf(calls: map<Tid, Call>, i: Tid, th: Thread)
    requires RunsCall(calls, i, th)
    ensures i in calls && th.call == calls[i] && ThreadOk(th) && (Keyed(calls[i]) ==> KeyedPath(calls, calls[i].targetPath))
  {
  }

  lemma SameLive(calls: map<Tid, Call>, s: State, s': State, i: Tid)
    requires s.threads.Keys == s'.threads.Keys == calls.Keys && i in s.threads && ThreadOk(s.threads[i])
    requires s.threads[i].call == calls[i]
    requires forall j :: j in s.threads && Keyed(calls[j]) ==>
      (Live(s', j) <==> j in LiveAfter(if Live(s, j) then {j} else {}, i, s.threads[i]))
    ensures KeyedLive(calls, s') == LiveAfter(KeyedLive(calls, s), i, s.threads[i])
  {
    hide Live, Keyed;
  }

  /** Different live publishes have different targets, so their section names are disjoint. */
  lemma LiveTargets(calls: map<Tid, Call>, s: State, i: Tid, j: Tid)
    requires ThreadsInv(calls, s) && OneHolderWhereKeyed(calls, s) && Orderly(calls, s)
    requires i in s.threads && j in s.threads && Live(s, j) && i != j
    requires Live(s, i) || Stored(s, i) || s.threads[i].pc.Loading?
    requires KeyedPath(calls, s.threads[j].call.targetPath) && s.threads[i].call.Publish? && s.threads[j].call.Publish?
    ensures s.threads[i].call.targetPath != s.threads[j].call.targetPath
  {
    hide KeyedPath;
  }

  lemma LivePublishes(calls: map<Tid, Call>, s: State)
    requires ThreadsInv(calls, s)
    ensures Publishes(calls, KeyedLive(calls, s))
  {
    forall j | j in KeyedLive(calls, s)
      ensures calls[j].Publish?
    {
      assert RunsCall(calls, j, s.threads[j]);
    }
  }

  lemma AloneAt(calls: map<Tid, Call>, base: Config, s: State, i: Tid)
    requires ThreadsInv(calls, s) && OneHolderWhereKeyed(calls, s) && Orderly(calls, s) && Hypotheses(calls, base)
    requires Publishes(calls, KeyedLive(calls, s)) && i in s.threads && calls[i].Publish?
    requires Live(s, i) || Stored(s, i) || s.threads[i].pc.Loading? || !KeyedPath(calls, calls[i].targetPath)
    ensures Alone(calls, base, KeyedLive(calls, s), i)
  {
    assert RunsCall(calls, i, s.threads[i]);
    hide Orderly, OneHolderWhereKeyed, Kept;
    forall j | j in KeyedLive(calls, s) && j != i
      ensures Kept(calls[j].sections).Keys !! calls[i].sections.Keys
    {
      assert RunsCall(calls, j, s.threads[j]);
      assert KeyedPath(calls, calls[j].targetPath);
      if KeyedPath(calls, calls[i].targetPath) { LiveTargets(calls, s, i, j); }
    }
  }

  lemma KeylessLoad(config: Config, sections: Config)
    requires Kept(sections) == map[]
    ensures LoadAll(config, sections) == config
  {
    assert forall name :: name in sections && sections[name] != map[] ==> name in Kept(sections);
    var loaded := LoadAll(config, sections);
    assert loaded.Keys == config.Keys;
    forall name | name in config ensures loaded[name] == config[name] { EmptyMerges(config[name]); }
  }

  lemma ConfigLoading(calls: map<Tid, Call>, base: Config, s: State, i: Tid, config': Config)
    requires StateOk(s) && ThreadsInv(calls, s) && OneHolderWhereKeyed(calls, s) && Orderly(calls, s) && Hypotheses(calls, base)
    requires i in s.threads && s.threads[i].pc.Loading?
    requires ConfigOwned(calls, base, KeyedLive(calls, s), s.shared.config)
    requires config' == Apply(s.shared.config, StepDelta(s.threads[i]))
    ensures ConfigOwned(calls, base, LiveAfter(KeyedLive(calls, s), i, s.threads[i]), config')
  {
    var th := s.threads[i];
    assert RunsCall(calls, i, th);
    assert th.call.load.Loaded?;
    hide LocalStep, ConfigOwned, LoadAll, Kept;
    if Keyed(th.call) {
      LivePublishes(calls, s);
      NotYetStored(calls, s, i);
      AloneAt(calls, base, s, i);
      hide Hypotheses, Orderly, OneHolderWhereKeyed;
      AddLive(calls, base, KeyedLive(calls, s), s.shared.config, i);
    } else {
      KeylessLoad(s.shared.config, th.call.sections);
    }
  }

  lemma NotYetStored(calls: map<Tid, Call>, s: State, i: Tid)
    requires Orderly(calls, s) && ThreadsInv(calls, s) && i in s.threads && s.threads[i].pc.Loading?
    ensures i !in KeyedLive(calls, s)
  {
    assert !Stored(s, i);
    hide KeyedPath;
  }

  lemma ConfigRollingBack(calls: map<Tid, Call>, base: Config, s: State, i: Tid, config': Config)
    requires StateOk(s) && ThreadsInv(calls, s) && OneHolderWhereKeyed(calls, s) && Orderly(calls, s) && Hypotheses(calls, base)
    requires i in s.threads && s.threads[i].pc.RollingBack?
    requires ConfigOwned(calls, base, KeyedLive(calls, s), s.shared.config)
    requires config' == Apply(s.shared.config, StepDelta(s.threads[i]))
    ensures ConfigOwned(calls, base, LiveAfter(KeyedLive(calls, s), i, s.threads[i]), config')
  {
    hide LocalStep, ConfigOwned, LoadAll, Kept, KeyedPath, OneVolumeWhereKeyed, SharedKeyless, Stored;
    var th := s.threads[i];
    assert RunsCall(calls, i, th);
    LivePublishes(calls, s);
    AloneAt(calls, base, s, i);
    hide Orderly, OneHolderWhereKeyed, Hypotheses, ThreadsInv;
    RemoveLive(calls, base, KeyedLive(calls, s), s.shared.config, i);
  }

  lemma ConfigDropping(calls: map<Tid, Call>, base: Config, s: State, i: Tid, config': Config)
    requires ReadsWhereKeyed(calls, s)
    requires StateOk(s) && ThreadsInv(calls, s) && OneHolderWhereKeyed(calls, s) && Orderly(calls, s) && Hypotheses(calls, base)
    requires i in s.threads && s.threads[i].pc.Dropping?
    requires ConfigOwned(calls, base, KeyedLive(calls, s), s.shared.config)
    requires config' == Apply(s.shared.config, StepDelta(s.threads[i]))
    ensures ConfigOwned(calls, base, LiveAfter(KeyedLive(calls, s), i, s.threads[i]), config')
  {
    hide LocalStep, ConfigOwned, LoadAll, Stored, KeyedPath, Kept, OneVolumeWhereKeyed, SharedKeyless;
    var c := s.threads[i].mc.value.ctx;
    assert RunsCall(calls, i, s.threads[i]);
    ReadMount(calls, s, i);
    LivePublishes(calls, s);
    AloneAt(calls, base, s, c);
    hide Orderly, OneHolderWhereKeyed, ReadsWhereKeyed, Hypotheses, ThreadsInv;
    RemoveLive(calls, base, KeyedLive(calls, s), s.shared.config, c);
  }

  /** What an unpublish is about to tear down. */
  lemma ReadMount(calls: map<Tid, Call>, s: State, i: Tid)
    requires StateOk(s) && ReadsWhereKeyed(calls, s) && ThreadsInv(calls, s) && i in s.threads && s.threads[i].pc.Dropping?
    ensures var m := s.threads[i].mc.value;
      && m.ctx in s.threads && calls[m.ctx].Publish? && m.remotes == calls[m.ctx].sections.Keys
      && (Stored(s, m.ctx) || !KeyedPath(calls, calls[m.ctx].targetPath))
  {
    hide KeyedPath, MountsOk;
    var th := s.threads[i];
    assert RunsCall(calls, i, th);
    assert FromPublish(calls, th.call.targetPath, th.mc.value);
    assert RunsCall(calls, th.mc.value.ctx, s.threads[th.mc.value.ctx]);
  }

  lemma ConfigLocal(calls: map<Tid, Call>, base: Config, s: State, i: Tid, config': Config)
    requires StateOk(s) && ThreadsInv(calls, s) && OneHolderWhereKeyed(calls, s) && Orderly(calls, s) && Hypotheses(calls, base)
    requires ReadsWhereKeyed(calls, s) && i in s.threads && !Terminal(s.threads[i].pc)
    requires ConfigOwned(calls, base, KeyedLive(calls, s), s.shared.config)
    requires config' == LocalStep(s.shared, i, s.threads[i]).0.config
    ensures ConfigOwned(calls, base, LiveAfter(KeyedLive(calls, s), i, s.threads[i]), config')
  {
    var th := s.threads[i];
    LocalStepDelta(s.shared, i, th);
    hide LocalStep, ConfigOwned, ThreadsInv, OneHolderWhereKeyed, Orderly, Hypotheses, ReadsWhereKeyed, KeyedLive, LoadAll;
    if th.pc.Loading? {
      ConfigLoading(calls, base, s, i, config');
    } else if th.pc.RollingBack? {
      ConfigRollingBack(calls, base, s, i, config');
    } else if th.pc.Dropping? {
      ConfigDropping(calls, base, s, i, config');
    }
  }

  lemma OwnLocal(calls: map<Tid, Call>, base: Config, s: State, s': State, i: Tid)
    requires StateOk(s) && StateOk(s') && OwnInv(calls, base, s) && Hypotheses(calls, base)
    requires i in s.threads && !Terminal(s.threads[i].pc)
    requires s'.threads == s.threads[i := LocalStep(s.shared, i, s.threads[i]).1]
    requires s'.shared == LocalStep(s.shared, i, s.threads[i]).0
    ensures Orderly(calls, s') && ConfigOwned(calls, base, KeyedLive(calls, s'), s'.shared.config)
  {
    hide LocalStep, ConfigOwned, KeyedLive, ContextsExact, ReadsStable, ReadsWhereKeyed, HistExactly, TargetOrder;
    assert RunsCall(calls, i, s.threads[i]);
    HolderWhereKeyed(calls, s);
    KeyedGuarded(calls, s);
    UnstoredLocal(calls, s, s', i);
    StoredByLocal(calls, s, s', i);
    TornLocal(s, s', i);
    LiveStep(calls, s, s', i);
    ConfigLocal(calls, base, s, i, s'.shared.config);
  }

  lemma OrderlyIdle(calls: map<Tid, Call>, s: State, s': State, i: Tid)
    requires s'.threads.Keys == s.threads.Keys && s'.shared == s.shared && Orderly(calls, s) && i in s.threads
    requires forall j :: j in s.threads && j != i ==> s'.threads[j] == s.threads[j]
    requires HasStored(s'.threads[i]) == HasStored(s.threads[i]) && s'.threads[i].mc == s.threads[i].mc
    requires PublishPc(s'.threads[i].pc) ==> s'.threads[i].call.targetPath !in s.shared.core.mounts
    requires !s'.threads[i].pc.Cleaning? && !s'.threads[i].pc.Deleting?
    ensures Orderly(calls, s')
  {
    assert forall j :: j in s.threads ==> HasStored(s'.threads[j]) == HasStored(s.threads[j]);
    hide HasStored;
  }

  lemma LiveIdle(calls: map<Tid, Call>, s: State, s': State, i: Tid)
    requires s'.threads.Keys == s.threads.Keys && s'.shared == s.shared && i in s.threads
    requires forall j :: j in s.threads && j != i ==> s'.threads[j] == s.threads[j]
    requires s'.threads[i].call == s.threads[i].call
    requires !InFlightLoaded(s.threads[i]) && !InFlightLoaded(s'.threads[i])
    ensures KeyedLive(calls, s') == KeyedLive(calls, s)
  {
    assert forall j :: j in s.threads ==> Live(s', j) == Live(s, j);
  }

  lemma OwnIdle(calls: map<Tid, Call>, s: State, s': State, i: Tid)
    requires StepShape(s, s', i) && Disciplined(s, i) && Orderly(calls, s) && i in s.threads && Terminal(s.threads[i].pc)
    requires HasStored(s'.threads[i]) == HasStored(s.threads[i])
    ensures Orderly(calls, s') && KeyedLive(calls, s') == KeyedLive(calls, s) && s'.shared == s.shared
  {
    hide HasStored, Key, Orderly, KeyedLive;
    OrderlyIdle(calls, s, s', i);
    LiveIdle(calls, s, s', i);
  }

  lemma OwnStep(calls: map<Tid, Call>, base: Config, s: State, i: Tid)
    requires StateOk(s) && OwnInv(calls, base, s) && Hypotheses(calls, base) && Disciplined(s, i)
    ensures OwnInv(calls, base, Step(s, i))
  {
    CtxStep(calls, s, i);
    StepHasShape(calls, s, i);
    if i in s.threads {
      assert RunsCall(calls, i, s.threads[i]);
      if !Terminal(s.threads[i].pc) {
        hide CtxInv, Disciplined, Orderly, ConfigOwned, KeyedLive;
        OwnLocal(calls, base, s, Step(s, i), i);
      } else {
        hide CtxInv, Step, Disciplined, Orderly, ConfigOwned, KeyedLive;
        if !s.threads[i].pc.Done? { IdleContexts(calls, i, s.threads[i], Step(s, i).threads[i]); }
        OwnIdle(calls, s, Step(s, i), i);
      }
    }
  }

  lemma OwnInit(calls: map<Tid, Call>, base: Config)
    ensures OwnInv(calls, base, Init(calls, base))
  {
    CtxInit(calls, base);
    hide CtxInv;
    assert KeyedLive(calls, Init(calls, base)) == {};
  }

  lemma {:induction false} OwnRun(r: Run)
    requires r.Valid() && Hypotheses(r.calls, r.base) && PublishedOnlyUnstored(r)
    ensures StateOk(r.Last()) && OwnInv(r.calls, r.base, r.Last())
    decreases |r.sched|
  {
    if r.sched == [] {
      OwnInit(r.calls, r.base);
    } else {
      hide Step, OwnInv, Disciplined;
      r.BeforeValid();
      var b := r.Before();
      assert forall k :: 0 <= k < |b.sched| ==> r.states[k] == b.states[k] && r.sched[k] == b.sched[k];
      OwnRun(b);
      assert b.Last() == r.states[|r.sched| - 1];
      OwnStep(r.calls, r.base, b.Last(), r.sched[|r.sched| - 1]);
    }
  }

  /** Publishes without keys own nothing. */
  lemma OwnedByAll(calls: map<Tid, Call>, base: Config, s: State)
    requires ThreadsInv(calls, s)
    ensures Publishes(calls, LiveSet(s)) && Publishes(calls, KeyedLive(calls, s))
    ensures ConfigOwned(calls, base, KeyedLive(calls, s), s.shared.config) <==> ConfigOwned(calls, base, LiveSet(s), s.shared.config)
  {
    hide Live;
    forall j | j in LiveSet(s)
      ensures calls[j].Publish?
    {
      assert RunsCall(calls, j, s.threads[j]);
      LivePublish(calls, s, j);
    }
    SameOwned(calls, s);
  }

  lemma LivePublish(calls: map<Tid, Call>, s: State, j: Tid)
    requires Live(s, j) && RunsCall(calls, j, s.threads[j]) && MountsOk(calls, s.shared.core)
    ensures calls[j].Publish?
  {
  }

  lemma SameOwned(calls: map<Tid, Call>, s: State)
    requires Publishes(calls, LiveSet(s))
    ensures Publishes(calls, KeyedLive(calls, s)) && OwnedNames(calls, KeyedLive(calls, s)) == OwnedNames(calls, LiveSet(s))
    ensures forall i, name :: i in LiveSet(s) && name in Kept(calls[i].sections) ==> i in KeyedLive(calls, s)
  {
    hide Live, Kept;
    forall name | name in OwnedNames(calls, LiveSet(s))
      ensures name in OwnedNames(calls, KeyedLive(calls, s))
    {
      var i :| i in LiveSet(s) && name in Kept(calls[i].sections);
      assert i in KeyedLive(calls, s);
    }
    forall name | name in OwnedNames(calls, KeyedLive(calls, s))
      ensures name in OwnedNames(calls, LiveSet(s))
    {
      var i :| i in KeyedLive(calls, s) && name in Kept(calls[i].sections);
      assert i in LiveSet(s);
    }
  }

  /** Main result: in every reachable state the configuration is the base configuration plus, with the values
      they were loaded with, the sections of the publishes in flight past loading and of the stored mounts that
      are not torn down. */
  lemma ConfigExactlyOwned(r: Run)
    requires r.Valid() && Hypotheses(r.calls, r.base) && PublishedOnlyUnstored(r)
    ensures ConfigOwned(r.calls, r.base, LiveSet(r.Last()), r.Last().shared.config)
  {
    OwnRun(r);
    hide Run.Valid, Hypotheses, ConfigOwned, LiveSet, KeyedLive, Orderly, ContextsExact, ReadsStable, TargetOrder, HeldExactly, HistExactly;
    OwnedByAll(r.calls, r.base, r.Last());
  }

  ghost predicate Intact(calls: map<Tid, Call>, config: Config, m: Mount) {
    m.ctx in calls && calls[m.ctx].Publish? && m.remotes == calls[m.ctx].sections.Keys
    && forall name :: name in m.remotes && calls[m.ctx].sections[name] != map[] ==>
         name in config && config[name] == calls[m.ctx].sections[name]
  }

  /** No live mount loses a section, and none of its sections outlives its teardown. */
  lemma SectionsLiveAsLongAsMounts(r: Run, target: string)
    requires r.Valid() && Hypotheses(r.calls, r.base) && PublishedOnlyUnstored(r)
    requires target in r.Last().shared.core.mounts
    ensures var m, config := r.Last().shared.core.mounts[target], r.Last().shared.config;
            if m.ctx in r.Last().shared.core.tornDown then m.remotes !! config.Keys else Intact(r.calls, config, m)
  {
    OwnRun(r);
    hide Run.Valid, ContextsExact, ReadsStable, HistExactly, TargetOrder, HeldExactly, ConfigOwned, Orderly, OneVolumeWhereKeyed,
         SharedKeyless, KeyedLive;
    HolderWhereKeyed(r.calls, r.Last());
    MountSections(r.calls, r.base, r.Last(), target);
  }

  lemma MountSections(calls: map<Tid, Call>, base: Config, s: State, target: string)
    requires ThreadsInv(calls, s) && Orderly(calls, s) && OneHolderWhereKeyed(calls, s) && Hypotheses(calls, base)
    requires ConfigOwned(calls, base, KeyedLive(calls, s), s.shared.config) && target in s.shared.core.mounts
    ensures var m := s.shared.core.mounts[target];
            if m.ctx in s.shared.core.tornDown then m.remotes !! s.shared.config.Keys
            else Intact(calls, s.shared.config, m)
  {
    hide OwnedNames, OneHolderWhereKeyed, Kept, KeyedPath, OneVolumeWhereKeyed, SharedKeyless;
    var m := s.shared.core.mounts[target];
    assert FromPublish(calls, target, m);
    assert RunsCall(calls, m.ctx, s.threads[m.ctx]);
    assert Stored(s, m.ctx);
    if m.ctx in s.shared.core.tornDown {
      AloneAt(calls, base, s, m.ctx);
      assert !InFlightLoaded(s.threads[m.ctx]);
      hide Orderly, Hypotheses, ThreadsInv;
      OwnedNamesAlone(calls, base, KeyedLive(calls, s), m.ctx);
    } else {
      hide Orderly, Hypotheses, ThreadsInv;
      LiveIntact(calls, base, s, m.ctx);
    }
  }

  lemma LiveIntact(calls: map<Tid, Call>, base: Config, s: State, i: Tid)
    requires ConfigOwned(calls, base, KeyedLive(calls, s), s.shared.config) && Live(s, i)
    requires i in s.threads && i in calls && calls[i].Publish?
    ensures forall name :: name in calls[i].sections && calls[i].sections[name] != map[] ==>
      name in s.shared.config && s.shared.config[name] == calls[i].sections[name]
  {
    hide OwnedNames, Live;
    forall name | name in calls[i].sections && calls[i].sections[name] != map[]
      ensures name in s.shared.config && s.shared.config[name] == calls[i].sections[name]
    {
      assert name in Kept(calls[i].sections);
      assert i in KeyedLive(calls, s);
    }
  }

  /** With every mount gone and no call in flight, the configuration is what it was before the first call. */
  lemma NothingLeftBehind(r: Run)
    requires r.Valid() && Hypotheses(r.calls, r.base) && PublishedOnlyUnstored(r)
    requires Quiescent(r.Last()) && r.Last().shared.core.mounts == map[]
    ensures r.Last().shared.config == r.base
  {
    ConfigExactlyOwned(r);
    NoLive(r.Last());
    hide ConfigOwned, Run.Valid;
    NoneOwned(r.calls, r.base, r.Last().shared.config);
  }

  lemma NoLive(s: State)
    requires Quiescent(s) && s.shared.core.mounts == map[]
    ensures LiveSet(s) == {}
  {
  }

  lemma NoneOwned(calls: map<Tid, Call>, base: Config, config: Config)
    requires ConfigOwned(calls, base, {}, config)
    ensures config == base
  {
    assert OwnedNames(calls, {}) == {};
    hide OwnedNames;
  }
}

/** For which requests every mount has exactly its own sections in the configuration, whatever the directory checks, the
    mounter and the cleanup answer. */
module OwnershipExactly {
  import opened Options
  import opened MountProtocol
  import opened Linearization
  import opened MountContexts
  import opened ConfigOwnership
  import LostMount

  /** The same requests with the same sections, and any outcomes. */
  ghost predicate SameLoads(calls: map<Tid, Call>, calls': map<Tid, Call>) {
    LostMount.SameRequests(calls, calls')
    && forall i :: i in calls && calls[i].Publish? ==> calls'[i].sections == calls[i].sections
  }

  lemma SameHypotheses(calls: map<Tid, Call>, calls': map<Tid, Call>, base: Config)
    requires SameLoads(calls, calls') && OneVolumeWhereKeyed(calls) && SharedKeyless(calls) && ForeignBase(calls, base)
    ensures OneVolumeWhereKeyed(calls') && SharedKeyless(calls') && ForeignBase(calls', base)
  {
    hide Kept;
    forall i | i in calls
      ensures LostMount.SameRequest(calls[i], calls'[i]) && Keyed(calls'[i]) == Keyed(calls[i])
    {
    }
  }

  /** Everything succeeds, but for the mounts that fail. */
  function Outcomes(calls: map<Tid, Call>, failing: set<Tid>): map<Tid, Call> {
    map i | i in calls ::
      if calls[i].Publish? then Publish(calls[i].volumeId, calls[i].targetPath, true, calls[i].sections, Loaded, i !in failing)
      else Unpublish(calls[i].volumeId, calls[i].targetPath, true)
  }

  lemma OutcomesLoad(calls: map<Tid, Call>, failing: set<Tid>)
    ensures SameLoads(calls, Outcomes(calls, failing)) && UpdatesSucceed(Outcomes(calls, failing))
  {
  }

  // ---- runs of whole calls ----

  /** One call alone. */
  lemma OneCall(calls: map<Tid, Call>, base: Config, i: Tid) returns (r: Run)
    requires i in calls
    ensures r.Valid() && r.calls == calls && r.base == base && Quiescent(r.Last()) && PublishedOnlyUnstored(r)
    ensures r.Last().shared == RunCall(InitShared(base), i, calls[i])
  {
    LostMount.ReachInit(calls, base);
    LostMount.InitStart(calls, base);
    hide LostMount.Reachable, Init, Complete, Key, RunCall, StateOk, PublishedOnlyUnstored;
    var s1 := LostMount.Acquired(calls, base, Init(calls, base), i);
    var s2 := LostMount.Finishes(calls, base, s1, i);
    CompleteIsRunCall(s1.shared, i, calls[i]);
    r := LostMount.RunTo(calls, base, s2);
  }

  /** One call, and then another one on another path. */
  lemma InTurn(calls: map<Tid, Call>, base: Config, i: Tid, j: Tid) returns (r: Run)
    requires i in calls && j in calls && calls[i].targetPath != calls[j].targetPath
    ensures r.Valid() && r.calls == calls && r.base == base && Quiescent(r.Last()) && PublishedOnlyUnstored(r)
    ensures r.Last().shared == RunCall(RunCall(InitShared(base), i, calls[i]), j, calls[j])
  {
    hide LostMount.Reachable, Init, Complete, Key, RunCall, StateOk, PublishedOnlyUnstored;
    LostMount.ReachInit(calls, base);
    LostMount.InitStart(calls, base);
    NotThere(InitShared(base), i, calls[i], calls[j].targetPath);
    var s1 := LostMount.Acquired(calls, base, Init(calls, base), i);
    var s2 := LostMount.Finishes(calls, base, s1, i);
    CompleteIsRunCall(s1.shared, i, calls[i]);
    assert s2.locks == {};
    var s3 := LostMount.Acquired(calls, base, s2, j);
    var s4 := LostMount.Finishes(calls, base, s3, j);
    CompleteIsRunCall(s3.shared, j, calls[j]);
    r := LostMount.RunTo(calls, base, s4);
  }

  lemma NotThere(sh: Shared, i: Tid, c: Call, target: string)
    requires sh.core.mounts == map[] && c.targetPath != target
    ensures target !in RunCall(sh, i, c).core.mounts
  {
    hide LoadAll;
  }

  // ---- who is live at the end ----

  lemma LiveAtEnd(r: Run, i: Tid)
    requires r.Valid() && Quiescent(r.Last())
    ensures i in LiveSet(r.Last()) <==>
      i in r.calls && MountAt(r.Last().shared, r.calls[i].targetPath).Some?
      && MountAt(r.Last().shared, r.calls[i].targetPath).value.ctx == i && i !in r.Last().shared.core.tornDown
  {
    LocksExact(r);
    hide HeldExactly, HistExactly, Run.Valid;
    assert i in r.Last().threads ==> RunsCall(r.calls, i, r.Last().threads[i]);
  }

  ghost predicate Owned(r: Run)
    requires r.states != []
  {
    ConfigOwned(r.calls, r.base, LiveSet(r.Last()), r.Last().shared.config)
  }

  /** A section of the base is gone. */
  lemma BaseLost(r: Run, name: string)
    requires r.Valid() && name in r.base && name !in r.Last().shared.config
    ensures !Owned(r)
  {
    hide Run.Valid, LiveSet, OwnedNames;
  }

  /** A section of a live mount is gone. */
  lemma MountRobbed(r: Run, i: Tid, name: string)
    requires r.Valid() && i in LiveSet(r.Last()) && i in r.calls && r.calls[i].Publish? && name in Kept(r.calls[i].sections)
    requires name !in r.Last().shared.config
    ensures !Owned(r)
  {
    hide Run.Valid, LiveSet, OwnedNames, Kept;
  }

  /** A section that nobody owns is there. */
  lemma SectionLeft(r: Run, name: string)
    requires r.Valid() && name in r.Last().shared.config && name !in r.base
    requires forall i :: i in LiveSet(r.Last()) && i in r.calls && r.calls[i].Publish? ==> name !in Kept(r.calls[i].sections)
    ensures !Owned(r)
  {
    hide LiveSet, Kept;
    assert Publishes(r.calls, LiveSet(r.Last())) ==> name !in OwnedNames(r.calls, LiveSet(r.Last()));
  }

  lemma KeptLoads(config: Config, sections: Config, name: string)
    requires name in Kept(sections)
    ensures name in LoadAll(config, sections)
  {
  }

  // ---- every failing condition has a run ----

  /** A publish whose mount fails deletes the sections of the base that have its names. */
  lemma BaseShared(calls: map<Tid, Call>, base: Config, i: Tid, name: string) returns (r: Run)
    requires i in calls && calls[i].Publish? && name in calls[i].sections && name in base
    ensures r.Valid() && r.base == base && SameLoads(calls, r.calls) && UpdatesSucceed(r.calls) && PublishedOnlyUnstored(r) && !Owned(r)
  {
    OutcomesLoad(calls, {i});
    r := OneCall(Outcomes(calls, {i}), base, i);
    hide Run.Valid, PublishedOnlyUnstored, SameLoads, UpdatesSucceed, LoadAll, Owned;
    BaseLost(r, name);
  }

  /** What is left when a publish has stored its mount and the mount of another one has then failed. */
  lemma RobbedAfter(r: Run, i: Tid, j: Tid, name: string)
    requires r.Valid() && Quiescent(r.Last()) && i in r.calls && j in r.calls && i != j
    requires Stores(r.calls[i]) && Entered(r.calls[j]) && !r.calls[j].mounted
    requires name in Kept(r.calls[i].sections) && name in r.calls[j].sections
    requires r.Last().shared == RunCall(RunCall(InitShared(r.base), i, r.calls[i]), j, r.calls[j])
    ensures !Owned(r)
  {
    LiveAtEnd(r, i);
    hide Run.Valid, LiveSet, LoadAll, Owned, Kept, Quiescent;
    MountRobbed(r, i, name);
  }

  /** Publishes of two paths that share a name: the mount of the second one fails. */
  lemma NameShared(calls: map<Tid, Call>, base: Config, i: Tid, j: Tid, name: string) returns (r: Run)
    requires i in calls && j in calls && calls[i].Publish? && calls[j].Publish? && calls[i].targetPath != calls[j].targetPath
    requires name in Kept(calls[i].sections) && name in calls[j].sections
    ensures r.Valid() && r.base == base && SameLoads(calls, r.calls) && UpdatesSucceed(r.calls) && PublishedOnlyUnstored(r) && !Owned(r)
  {
    OutcomesLoad(calls, {j});
    r := InTurn(Outcomes(calls, {j}), base, i, j);
    hide Run.Valid, PublishedOnlyUnstored, SameLoads, UpdatesSucceed, RunCall, Owned, Kept;
    RobbedAfter(r, i, j, name);
  }

  lemma OtherKeys(calls: map<Tid, Call>, failing: set<Tid>, i: Tid, j: Tid)
    requires i in calls && j in calls && calls[i].targetPath == calls[j].targetPath && calls[i].volumeId != calls[j].volumeId
    ensures Key(Outcomes(calls, failing)[i]) != Key(Outcomes(calls, failing)[j])
  {
    LockKeyVolume(calls[i].volumeId, calls[j].volumeId, calls[i].targetPath);
    hide LockKey;
  }

  /** Two volumes on one path: a publish is overtaken by another publish, or by an unpublish. */
  lemma VolumesShared(calls: map<Tid, Call>, base: Config, i: Tid, j: Tid, name: string) returns (r: Run)
    requires i in calls && j in calls && calls[i].targetPath == calls[j].targetPath && calls[i].volumeId != calls[j].volumeId
    requires calls[i].Publish? && name in Kept(calls[i].sections) && name !in base
    ensures r.Valid() && r.base == base && SameLoads(calls, r.calls) && UpdatesSucceed(r.calls) && PublishedOnlyUnstored(r) && !Owned(r)
  {
    hide Key, Kept, SameLoads, UpdatesSucceed, Run.Valid, PublishedOnlyUnstored, Quiescent, RunCall, Owned;
    if calls[j].Unpublish? {
      OutcomesLoad(calls, {});
      OtherKeys(calls, {}, i, j);
      r := LostMount.TwoVolumesLoseAMount(Outcomes(calls, {}), base, j, i);
      LeftByUnpublish(r, i, name);
    } else if name in calls[j].sections {
      OutcomesLoad(calls, {j});
      OtherKeys(calls, {j}, i, j);
      r := LostMount.LateCall(Outcomes(calls, {j}), base, j, i);
      RobbedAfter(r, i, j, name);
    } else {
      OutcomesLoad(calls, {});
      OtherKeys(calls, {}, i, j);
      r := LostMount.LateCall(Outcomes(calls, {}), base, j, i);
      LeftByPublish(r, i, j, name);
    }
  }

  lemma LeftByUnpublish(r: Run, i: Tid, name: string)
    requires r.Valid() && Quiescent(r.Last()) && i in r.calls && r.calls[i].Publish? && name in Kept(r.calls[i].sections)
    requires name !in r.base && r.Last().shared == Shared(Core(map[], {i}, {}, {}), LoadAll(r.base, r.calls[i].sections))
    ensures !Owned(r)
  {
    KeptLoads(r.base, r.calls[i].sections, name);
    forall k ensures k !in LiveSet(r.Last()) { LiveAtEnd(r, k); }
    hide Run.Valid, LiveSet, LoadAll, Owned, Kept, Quiescent;
    SectionLeft(r, name);
  }

  lemma LeftByPublish(r: Run, i: Tid, j: Tid, name: string)
    requires r.Valid() && Quiescent(r.Last()) && i in r.calls && j in r.calls && i != j && r.calls[i].targetPath == r.calls[j].targetPath
    requires Stores(r.calls[i]) && Stores(r.calls[j])
    requires name in Kept(r.calls[i].sections) && name !in r.calls[j].sections && name !in r.base
    requires r.Last().shared == RunCall(RunCall(InitShared(r.base), i, r.calls[i]), j, r.calls[j])
    ensures !Owned(r)
  {
    StoredOver(InitShared(r.base), i, r.calls[i], j, r.calls[j]);
    KeptLoads(r.base, r.calls[i].sections, name);
    hide LoadAll, RunCall;
    StaysLoaded(LoadAll(r.base, r.calls[i].sections), r.calls[j].sections, name);
    KeptKeys(r.calls[j].sections);
    hide LiveSet, Owned, Kept, Quiescent;
    forall k | k in LiveSet(r.Last())
      ensures k == j
    {
      LiveAtEnd(r, k);
    }
    hide Run.Valid;
    SectionLeft(r, name);
  }

  lemma StoredOver(sh: Shared, i: Tid, c: Call, j: Tid, e: Call)
    requires sh.core.mounts == map[] && Stores(c) && Stores(e) && c.targetPath == e.targetPath
    ensures var sh' := RunCall(RunCall(sh, i, c), j, e);
      sh'.core.mounts == map[e.targetPath := Mount(j, e.sections.Keys)] && sh'.config == LoadAll(LoadAll(sh.config, c.sections), e.sections)
  {
    hide LoadAll;
  }

  lemma StaysLoaded(config: Config, sections: Config, name: string)
    requires name in config
    ensures name in LoadAll(config, sections)
  {
  }

  /** For requests whose loads succeed, published only where nothing is stored: in every run, whatever else fails, the
      configuration is the base plus exactly the sections of the live publishes, if and only if on the path of a publish
      with keys all calls name its volume, publishes of different paths share only names without keys, and the base has
      no name of a publish. */
  lemma OwnedExactly(calls: map<Tid, Call>, base: Config)
    ensures OneVolumeWhereKeyed(calls) && SharedKeyless(calls) && ForeignBase(calls, base) <==>
      forall r: Run :: r.Valid() && r.base == base && SameLoads(calls, r.calls) && UpdatesSucceed(r.calls) && PublishedOnlyUnstored(r)
        ==> Owned(r)
  {
    hide Owned, SameLoads, UpdatesSucceed, PublishedOnlyUnstored;
    if OneVolumeWhereKeyed(calls) && SharedKeyless(calls) && ForeignBase(calls, base) {
      forall r: Run | r.Valid() && r.base == base && SameLoads(calls, r.calls) && UpdatesSucceed(r.calls) && PublishedOnlyUnstored(r)
        ensures Owned(r)
      {
        SameHypotheses(calls, r.calls, base);
        OwnedRun(r);
      }
    } else {
      var r := NotOwned(calls, base);
    }
  }

  lemma OwnedRun(r: Run)
    requires r.Valid() && PublishedOnlyUnstored(r)
    requires OneVolumeWhereKeyed(r.calls) && SharedKeyless(r.calls) && ForeignBase(r.calls, r.base) && UpdatesSucceed(r.calls)
    ensures Owned(r)
  {
    ConfigExactlyOwned(r);
  }

  lemma NotOwned(calls: map<Tid, Call>, base: Config) returns (r: Run)
    requires !(OneVolumeWhereKeyed(calls) && SharedKeyless(calls) && ForeignBase(calls, base))
    ensures r.Valid() && r.base == base && SameLoads(calls, r.calls) && UpdatesSucceed(r.calls) && PublishedOnlyUnstored(r) && !Owned(r)
  {
    hide Run.Valid, Owned, SameLoads, UpdatesSucceed, PublishedOnlyUnstored, Kept;
    if !ForeignBase(calls, base) {
      var i :| i in calls && calls[i].Publish? && !(calls[i].sections.Keys !! base.Keys);
      var name :| name in calls[i].sections && name in base;
      r := BaseShared(calls, base, i, name);
    } else if !SharedKeyless(calls) {
      var i, j :| i in calls && j in calls && calls[i].targetPath != calls[j].targetPath && calls[i].Publish? && calls[j].Publish?
        && !(Kept(calls[i].sections).Keys !! calls[j].sections.Keys);
      var name :| name in Kept(calls[i].sections) && name in calls[j].sections;
      r := NameShared(calls, base, i, j, name);
    } else {
      var i, j :| i in calls && j in calls && calls[i].targetPath == calls[j].targetPath && Keyed(calls[i])
        && calls[i].volumeId != calls[j].volumeId;
      var name :| name in Kept(calls[i].sections);
      KeptKeys(calls[i].sections);
      r := VolumesShared(calls, base, i, j, name);
    }
  }
}

/** The node server's mount lifecycle as a state machine.

    Any number of NodePublishVolume and NodeUnpublishVolume goroutines interleave.  A block under a mutex is
    one step, a call into the mounter, the kernel or rclone is one step with an arbitrary outcome.  The
    outcomes a call will meet are part of the call, so a run is fixed by the calls and by the schedule, and
    "for all calls and schedules" is "for all runs".  A publish creates at most one context, which is named
    after the goroutine that creates it. */
module MountProtocol {
  import opened Options

  type Tid = nat
  type Section = map<string, string>
  type Config = map<string, Section>

  datatype LoadOutcome = Loaded | UpdateFailed(written: Config)

  datatype Call =
    | Publish(volumeId: string, targetPath: string, prepared: bool, sections: Config, load: LoadOutcome, mounted: bool)
    | Unpublish(volumeId: string, targetPath: string, cleaned: bool)

  datatype Result = Ok | Failed | Aborted

  datatype Mount = Mount(ctx: Tid, remotes: set<string>)

  /** `tornDown` is a history variable: the contexts of mounts whose sections an unpublish has deleted. */
  datatype Core = Core(mounts: map<string, Mount>, created: set<Tid>, cancelled: set<Tid>, tornDown: set<Tid>)

  datatype Shared = Shared(core: Core, config: Config)

  datatype Pc =
    | Start
    // NodePublishVolume
    | Preparing | Loading | Creating | Mounting | CancelOwn | RollingBack | Storing
    // NodeUnpublishVolume
    | Reading | Unmounting | Dropping | Cleaning | Deleting
    // both
    | Releasing(result: Result) | Done(result: Result)

  /** `mc` is the mount context that NodeUnpublishVolume has read. */
  datatype Thread = Thread(call: Call, pc: Pc, mc: Option<Mount>)

  /** `hist` is a history variable: the goroutines in the order in which they acquired their volume lock. */
  datatype State = State(locks: set<string>, shared: Shared, threads: map<Tid, Thread>, hist: seq<Tid>)

  function LockKey(volumeId: string, targetPath: string): string {
    volumeId + "-" + targetPath
  }

  function Key(c: Call): string {
    LockKey(c.volumeId, c.targetPath)
  }

  function Get(config: Config, name: string): Section {
    if name in config then config[name] else map[]
  }

  /** SetValue of every key of every section; a section without keys does not come into being. */
  function LoadAll(config: Config, sections: Config): Config {
    map name | name in config.Keys + sections.Keys && (name in config || sections[name] != map[]) ::
      Get(config, name) + Get(sections, name)
  }

  /** What an aborted load leaves: some values of some of the call's own sections. */
  function PartialLoad(c: Call): Config
    requires c.Publish? && c.load.UpdateFailed?
  {
    map name | name in c.load.written && name in c.sections :: c.load.written[name]
  }

  function First(c: Call): Pc {
    if c.Publish? then Preparing else Reading
  }

  predicate Idle(pc: Pc) {
    pc.Start? || pc.Done?
  }

  predicate Terminal(pc: Pc) {
    pc.Start? || pc.Releasing? || pc.Done?
  }

  predicate PublishPc(pc: Pc) {
    pc.Preparing? || pc.Loading? || pc.Creating? || pc.Mounting? || pc.CancelOwn? || pc.RollingBack? || pc.Storing?
  }

  predicate UnpublishPc(pc: Pc) {
    pc.Reading? || pc.Unmounting? || pc.Dropping? || pc.Cleaning? || pc.Deleting?
  }

  /** The goroutine is in its own code, and in the unpublish path it unmounts only what it has read. */
  predicate ThreadOk(th: Thread) {
    && (PublishPc(th.pc) ==> th.call.Publish?)
    && (UnpublishPc(th.pc) ==> th.call.Unpublish?)
    && (th.pc.Unmounting? || th.pc.Dropping? ==> th.mc.Some?)
  }

  /** What the outcomes of the call must have been for the goroutine to be where it is. */
  predicate OnPath(th: Thread) {
    var c := th.call;
    match th.pc
    case Loading => c.Publish? && c.prepared
    case Creating => Entered(c)
    case Mounting => Entered(c)
    case CancelOwn => Entered(c) && !c.mounted
    case RollingBack => Entered(c) && !c.mounted
    case Storing => Entered(c) && c.mounted
    case Deleting => c.Unpublish? && c.cleaned
    case Releasing(r) => r == Outcome(c)
    case Done(r) => r == Aborted || r == Outcome(c)
    case _ => true
  }

  /** The publish comes to createAndMountFilesystem. */
  predicate Entered(c: Call) {
    c.Publish? && c.prepared && c.load.Loaded?
  }

  /** The publish comes to store a mount. */
  predicate Stores(c: Call) {
    Entered(c) && c.mounted
  }

  /** The call reads or changes the stored mount of its path. */
  predicate Touches(c: Call) {
    Stores(c) || c.Unpublish?
  }

  /** The call changes the stored mount of its path. */
  predicate Changes(c: Call) {
    Stores(c) || (c.Unpublish? && c.cleaned)
  }

  /** The calls into the outside that the request needs have all succeeded. */
  predicate Succeeds(c: Call) {
    match c
    case Publish(_, _, prepared, _, load, mounted) => prepared && load.Loaded? && mounted
    case Unpublish(_, _, cleaned) => cleaned
  }

  function Outcome(c: Call): Result {
    if c.Publish? then (if Entered(c) && c.mounted then Ok else Failed)
    else if c.cleaned then Ok else Failed
  }

  /** One step of goroutine i between its lock acquisition and its lock release. */
  function LocalStep(sh: Shared, i: Tid, th: Thread): (next: (Shared, Thread))
    requires ThreadOk(th) && !Terminal(th.pc)
    ensures ThreadOk(next.1) && next.1.call == th.call
  {
    var c := th.call;
    match th.pc
    case Preparing =>
      (sh, th.(pc := if c.prepared then Loading else Releasing(Failed)))
    case Loading =>
      if c.load.Loaded?
      then (sh.(config := LoadAll(sh.config, c.sections)), th.(pc := Creating))
      else (sh.(config := LoadAll(sh.config, PartialLoad(c))), th.(pc := Releasing(Failed)))
    case Creating =>
      (sh.(core := sh.core.(created := sh.core.created + {i})), th.(pc := Mounting))
    case Mounting =>
      (sh, th.(pc := if c.mounted then Storing else CancelOwn))
    case CancelOwn =>
      (sh.(core := sh.core.(cancelled := sh.core.cancelled + {i})), th.(pc := RollingBack))
    case RollingBack =>
      (sh.(config := sh.config - c.sections.Keys), th.(pc := Releasing(Failed)))
    case Storing =>
      (sh.(core := sh.core.(mounts := sh.core.mounts[c.targetPath := Mount(i, c.sections.Keys)])),
       th.(pc := Releasing(Ok)))
    case Reading =>
      if c.targetPath in sh.core.mounts
      then (sh, th.(pc := Unmounting, mc := Some(sh.core.mounts[c.targetPath])))
      else (sh, th.(pc := Cleaning, mc := None))
    case Unmounting =>
      (sh.(core := sh.core.(cancelled := sh.core.cancelled + {th.mc.value.ctx})), th.(pc := Dropping))
    case Dropping =>
      (Shared(sh.core.(tornDown := sh.core.tornDown + {th.mc.value.ctx}), sh.config - th.mc.value.remotes),
       th.(pc := Cleaning))
    case Cleaning =>
      (sh, th.(pc := if c.cleaned then Deleting else Releasing(Failed)))
    case Deleting =>
      (sh.(core := sh.core.(mounts := sh.core.mounts - {c.targetPath})), th.(pc := Releasing(Ok)))
  }

  ghost predicate StateOk(s: State) {
    && (forall i :: i in s.threads ==> ThreadOk(s.threads[i]))
    && (forall p :: 0 <= p < |s.hist| ==> s.hist[p] in s.threads)
  }

  /** One step of goroutine i; an absent or finished goroutine does nothing. */
  function Step(s: State, i: Tid): (s': State)
    requires StateOk(s)
    ensures StateOk(s') && s'.threads.Keys == s.threads.Keys
  {
    if i !in s.threads || s.threads[i].pc.Done? then s
    else
      var th := s.threads[i];
      if th.pc.Start? then
        if Key(th.call) in s.locks
        then s.(threads := s.threads[i := th.(pc := Done(Aborted))])
        else State(s.locks + {Key(th.call)}, s.shared, s.threads[i := th.(pc := First(th.call))], s.hist + [i])
      else if th.pc.Releasing? then
        s.(locks := s.locks - {Key(th.call)}, threads := s.threads[i := th.(pc := Done(th.pc.result))])
      else
        var (sh, th') := LocalStep(s.shared, i, th);
        s.(shared := sh, threads := s.threads[i := th'])
  }

  /** All goroutines at their first instruction, a node server without mounts, any rclone configuration. */
  function Init(calls: map<Tid, Call>, base: Config): (s: State)
    ensures StateOk(s) && s.threads.Keys == calls.Keys
  {
    State({}, InitShared(base), map i | i in calls :: Thread(calls[i], Start, None), [])
  }

  function InitShared(base: Config): Shared {
    Shared(Core(map[], {}, {}, {}), base)
  }

  /** A run of the node server: the goroutine sched[k] steps from states[k] to states[k + 1]. */
  datatype Run = Run(calls: map<Tid, Call>, base: Config, sched: seq<Tid>, states: seq<State>) {

    ghost predicate Valid() {
      && |states| == |sched| + 1
      && states[0] == Init(calls, base)
      && (forall k {:trigger Moves(k)} :: 0 <= k < |sched| ==> Moves(k))
    }

    ghost predicate Moves(k: nat)
      requires k < |sched| && |states| == |sched| + 1
    {
      StateOk(states[k]) && states[k + 1] == Step(states[k], sched[k])
    }

    function Last(): State
      requires states != []
    {
      states[|states| - 1]
    }

    function Before(): Run
      requires sched != [] && |states| == |sched| + 1
    {
      Run(calls, base, sched[..|sched| - 1], states[..|sched|])
    }

    lemma BeforeValid()
      requires Valid() && sched != []
      ensures Before().Valid() && Before().calls == calls && Before().base == base
      ensures StateOk(Before().Last()) && Last() == Step(Before().Last(), sched[|sched| - 1])
    {
      assert Moves(|sched| - 1);
      forall k | 0 <= k < |sched| - 1
        ensures Before().Moves(k)
      {
        assert Moves(k);
      }
    }
  }

  predicate Quiescent(s: State) {
    forall i :: i in s.threads ==> Idle(s.threads[i].pc)
  }

  /** Each target path is always used with one volume ID. */
  ghost predicate OneVolumePerTarget(calls: map<Tid, Call>) {
    forall i, j :: i in calls && j in calls && calls[i].targetPath == calls[j].targetPath
                   ==> calls[i].volumeId == calls[j].volumeId
  }

  /** Where a publish stores a mount, every publish that stores one and every unpublish has its volume ID. */
  ghost predicate OneVolumeWhereStored(calls: map<Tid, Call>) {
    forall i, j | i in calls && j in calls && calls[i].targetPath == calls[j].targetPath ::
      Stores(calls[i]) && Touches(calls[j]) ==> calls[i].volumeId == calls[j].volumeId
  }

  /** Where a publish stores a mount, every call that changes the stored mount has its volume ID. */
  ghost predicate OneVolumeWhereChanged(calls: map<Tid, Call>) {
    forall i, j | i in calls && j in calls && calls[i].targetPath == calls[j].targetPath ::
      Stores(calls[i]) && Changes(calls[j]) ==> calls[i].volumeId == calls[j].volumeId
  }

  /** Publishes of different target paths load sections with different names. */
  ghost predicate DisjointRemotes(calls: map<Tid, Call>) {
    forall i, j :: i in calls && j in calls && calls[i].Publish? && calls[j].Publish?
                   && calls[i].targetPath != calls[j].targetPath
                   ==> calls[i].sections.Keys !! calls[j].sections.Keys
  }

  /** A stored mount is what the publish that created its context has stored. */
  ghost predicate FromPublish(calls: map<Tid, Call>, target: string, m: Mount) {
    m.ctx in calls && Stores(calls[m.ctx]) && calls[m.ctx].targetPath == target
    && m.remotes == calls[m.ctx].sections.Keys
  }

  ghost predicate MountsOk(calls: map<Tid, Call>, core: Core) {
    forall t :: t in core.mounts ==> FromPublish(calls, t, core.mounts[t])
  }

  /** Goroutine i runs call i, and what it has read was stored by a publish of its own target. */
  ghost predicate RunsCall(calls: map<Tid, Call>, i: Tid, th: Thread) {
    && i in calls && th.call == calls[i] && ThreadOk(th) && OnPath(th)
    && (th.mc.Some? ==> th.call.Unpublish? && FromPublish(calls, th.call.targetPath, th.mc.value))
    && (th.pc.Start? || th.pc.Reading? ==> th.mc.None?)
  }

  lemma LocalStepKeeps(calls: map<Tid, Call>, sh: Shared, i: Tid, th: Thread)
    requires RunsCall(calls, i, th) && !Terminal(th.pc) && MountsOk(calls, sh.core)
    ensures RunsCall(calls, i, LocalStep(sh, i, th).1)
    ensures MountsOk(calls, LocalStep(sh, i, th).0.core)
    ensures Holds(LocalStep(sh, i, th).1.pc) && LocalStep(sh, i, th).1.pc != Releasing(Aborted)
  {
  }

  // ---- how the orchestrator issues calls ----

  /** The goroutine does not acquire the lock of a publish while its target has a stored mount. */
  ghost predicate Disciplined(s: State, i: Tid) {
    i in s.threads && s.threads[i].pc.Start? && s.threads[i].call.Publish? && Key(s.threads[i].call) !in s.locks
    ==> s.threads[i].call.targetPath !in s.shared.core.mounts
  }

  ghost predicate PublishedOnlyUnstored(r: Run) {
    forall k :: 0 <= k < |r.sched| && k < |r.states| ==> Disciplined(r.states[k], r.sched[k])
  }

  // ---- the volume lock ----

  /** Between acquiring and releasing its volume lock. */
  predicate Holds(pc: Pc) {
    !Idle(pc)
  }

  predicate Acquired(pc: Pc) {
    !pc.Start? && pc != Done(Aborted)
  }

  ghost predicate ThreadsInv(calls: map<Tid, Call>, s: State) {
    && s.threads.Keys == calls.Keys
    && (forall i :: i in s.threads ==> RunsCall(calls, i, s.threads[i]) && s.threads[i].pc != Releasing(Aborted))
    && MountsOk(calls, s.shared.core)
  }

  function Holders(s: State): set<Tid> {
    set i | i in s.threads && Holds(s.threads[i].pc)
  }

  function Keys(calls: map<Tid, Call>): map<Tid, string> {
    map i | i in calls :: Key(calls[i])
  }

  /** The held keys are exactly the keys of the goroutines between TryAcquire and Release, and each key has one. */
  ghost predicate HeldExactly(keys: map<Tid, string>, holders: set<Tid>, locks: set<string>) {
    && holders <= keys.Keys
    && (forall i :: i in holders ==> keys[i] in locks)
    && (forall k :: k in locks ==> exists i :: i in holders && keys[i] == k)
    && (forall i, j :: (i in holders && j in holders && keys[i] == keys[j]) ==> i == j)
  }

  /** The history lists exactly the goroutines that have acquired, once each. */
  ghost predicate HistExactly(s: State) {
    && (forall i :: i in s.hist <==> i in s.threads && Acquired(s.threads[i].pc))
    && (forall p, q :: 0 <= p < q < |s.hist| ==> s.hist[p] != s.hist[q])
  }

  ghost predicate LockInv(calls: map<Tid, Call>, s: State) {
    ThreadsInv(calls, s) && HeldExactly(Keys(calls), Holders(s), s.locks) && HistExactly(s)
  }

  /** What a step of goroutine i from s to s' does, apart from what its own code does to the shared data. */
  ghost predicate StepShape(s: State, s': State, i: Tid) {
    && s'.threads.Keys == s.threads.Keys
    && (forall j :: j in s.threads && j != i ==> s'.threads[j] == s.threads[j])
    && (i !in s.threads ==> s' == s)
    && (i in s.threads ==> ThreadShape(s, s', i, s.threads[i], s'.threads[i]))
  }

  predicate ThreadShape(s: State, s': State, i: Tid, th: Thread, th': Thread) {
    var key := Key(th.call);
    && th'.call == th.call
    && (if th.pc.Done? then s' == s
        else if th.pc.Start? && key in s.locks then
          th' == th.(pc := Done(Aborted)) && s'.locks == s.locks && s'.hist == s.hist && s'.shared == s.shared
        else if th.pc.Start? then
          th' == th.(pc := First(th.call)) && s'.locks == s.locks + {key} && s'.hist == s.hist + [i] && s'.shared == s.shared
        else if th.pc.Releasing? then
          th' == th.(pc := Done(th.pc.result)) && s'.locks == s.locks - {key} && s'.hist == s.hist && s'.shared == s.shared
        else
          Holds(th'.pc) && s'.locks == s.locks && s'.hist == s.hist)
  }

  lemma StepHasShape(calls: map<Tid, Call>, s: State, i: Tid)
    requires StateOk(s) && ThreadsInv(calls, s)
    ensures StepShape(s, Step(s, i), i)
    ensures i in s.threads && !Terminal(s.threads[i].pc) ==>
              (Step(s, i).shared, Step(s, i).threads[i]) == LocalStep(s.shared, i, s.threads[i])
    ensures i in s.threads && !Terminal(s.threads[i].pc) ==> RunsCall(calls, i, Step(s, i).threads[i])
    ensures MountsOk(calls, Step(s, i).shared.core)
    ensures i in s.threads ==> Step(s, i).threads[i].pc != Releasing(Aborted)
  {
    if i in s.threads && !Terminal(s.threads[i].pc) {
      LocalStepKeeps(calls, s.shared, i, s.threads[i]);
    }
  }

  lemma IdleSteps(calls: map<Tid, Call>, i: Tid, th: Thread)
    requires RunsCall(calls, i, th)
    ensures th.pc.Start? ==> RunsCall(calls, i, th.(pc := Done(Aborted))) && RunsCall(calls, i, th.(pc := First(th.call)))
    ensures th.pc.Releasing? ==> RunsCall(calls, i, th.(pc := Done(th.pc.result)))
  {
  }

  lemma ThreadsInvStep(calls: map<Tid, Call>, s: State, i: Tid)
    requires StateOk(s) && ThreadsInv(calls, s)
    ensures ThreadsInv(calls, Step(s, i))
  {
    StepHasShape(calls, s, i);
    if i in s.threads {
      assert RunsCall(calls, i, s.threads[i]);
      IdleSteps(calls, i, s.threads[i]);
    }
    ThreadsInvKept(calls, s, Step(s, i), i);
  }

  lemma ThreadsInvKept(calls: map<Tid, Call>, s: State, s': State, i: Tid)
    requires ThreadsInv(calls, s) && s'.threads.Keys == s.threads.Keys && MountsOk(calls, s'.shared.core)
    requires forall j :: j in s.threads && j != i ==> s'.threads[j] == s.threads[j]
    requires i in s.threads ==> RunsCall(calls, i, s'.threads[i]) && s'.threads[i].pc != Releasing(Aborted)
    ensures ThreadsInv(calls, s')
  {
    forall j | j in s'.threads
      ensures RunsCall(calls, j, s'.threads[j]) && s'.threads[j].pc != Releasing(Aborted)
    {
      assert RunsCall(calls, j, s.threads[j]);
    }
  }

  lemma Acquire(keys: map<Tid, string>, holders: set<Tid>, locks: set<string>, i: Tid)
    requires HeldExactly(keys, holders, locks) && i in keys && keys[i] !in locks
    ensures HeldExactly(keys, holders + {i}, locks + {keys[i]})
  {
    var holders' := holders + {i};
    forall k | k in locks + {keys[i]}
      ensures exists j :: j in holders' && keys[j] == k
    {
      if k in locks {
        var j :| j in holders && keys[j] == k;
        assert j in holders';
      } else {
        assert i in holders';
      }
    }
  }

  lemma Release(keys: map<Tid, string>, holders: set<Tid>, locks: set<string>, i: Tid)
    requires HeldExactly(keys, holders, locks) && i in holders
    ensures HeldExactly(keys, holders - {i}, locks - {keys[i]})
  {
    var holders' := holders - {i};
    forall k | k in locks - {keys[i]}
      ensures exists j :: j in holders' && keys[j] == k
    {
      var j :| j in holders && keys[j] == k;
      assert j in holders';
    }
  }

  lemma HeldExactlyStep(keys: map<Tid, string>, s: State, s': State, i: Tid)
    requires StepShape(s, s', i) && HeldExactly(keys, Holders(s), s.locks)
    requires i in s.threads ==> i in keys && keys[i] == Key(s.threads[i].call)
    ensures HeldExactly(keys, Holders(s'), s'.locks)
  {
    if i in s.threads {
      var th := s.threads[i];
      if th.pc.Start? && keys[i] !in s.locks {
        assert Holders(s') == Holders(s) + {i};
        Acquire(keys, Holders(s), s.locks, i);
      } else if th.pc.Releasing? {
        assert Holders(s') == Holders(s) - {i};
        Release(keys, Holders(s), s.locks, i);
      } else {
        assert Holders(s') == Holders(s);
      }
    }
  }

  lemma HistExactlyStep(s: State, s': State, i: Tid)
    requires StepShape(s, s', i) && HistExactly(s)
    requires i in s.threads ==> s.threads[i].pc != Releasing(Aborted)
    ensures HistExactly(s')
  {
  }

  lemma LockInvStep(calls: map<Tid, Call>, s: State, i: Tid)
    requires StateOk(s) && LockInv(calls, s)
    ensures LockInv(calls, Step(s, i))
  {
    StepHasShape(calls, s, i);
    ThreadsInvStep(calls, s, i);
    hide Step, Holders, HeldExactly, HistExactly, ThreadShape;
    HeldExactlyStep(Keys(calls), s, Step(s, i), i);
    HistExactlyStep(s, Step(s, i), i);
  }

  /** Mutual exclusion in every reachable state, with no hypothesis on the calls. */
  lemma {:induction false} LocksExact(r: Run)
    requires r.Valid()
    ensures StateOk(r.Last()) && LockInv(r.calls, r.Last())
    decreases |r.sched|
  {
    if r.sched != [] {
      hide Step, LockInv;
      r.BeforeValid();
      LocksExact(r.Before());
      LockInvStep(r.calls, r.Before().Last(), r.sched[|r.sched| - 1]);
    }
  }

  /** On one target path the lock excludes two calls exactly when they name the same volume. */
  lemma LockKeyVolume(v: string, w: string, target: string)
    ensures LockKey(v, target) == LockKey(w, target) <==> v == w
  {
    if LockKey(v, target) == LockKey(w, target) {
      assert |v| == |w|;
      assert v == LockKey(v, target)[..|v|];
      assert w == LockKey(w, target)[..|w|];
    }
  }

  /** With absolute target paths and volume IDs free of '/', the lock separates every two (volume, target) pairs. */
  lemma LockKeyInjective(v: string, t: string, w: string, u: string)
    requires '/' !in v && '/' !in w && t != "" && u != "" && t[0] == '/' && u[0] == '/'
    ensures LockKey(v, t) == LockKey(w, u) <==> v == w && t == u
  {
    var a, b := LockKey(v, t), LockKey(w, u);
    if a == b {
      SlashAt(v, t);
      SlashAt(w, u);
      assert |v| == |w|;
      assert v == a[..|v|] && t == a[|v| + 1..];
      assert w == b[..|w|] && u == b[|w| + 1..];
    }
  }

  lemma SlashAt(v: string, t: string)
    requires '/' !in v && t != "" && t[0] == '/'
    ensures LockKey(v, t)[|v| + 1] == '/'
    ensures forall p :: 0 <= p <= |v| ==> LockKey(v, t)[p] != '/'
  {
  }
}

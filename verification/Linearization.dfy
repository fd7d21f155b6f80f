/** Every interleaving of publishes and unpublishes has the effect of running the calls that were not aborted
    one after the other, in the order in which they acquired their volume lock. */
module Linearization {
  import opened Options
  import opened MountProtocol

  // ---- the sequential specification: a call as one operation on the shared data ----

  function Publish1(sh: Shared, i: Tid, c: Call): Shared
    requires c.Publish?
  {
    if !c.prepared then sh
    else if c.load.UpdateFailed? then sh.(config := LoadAll(sh.config, PartialLoad(c)))
    else
      var core := sh.core.(created := sh.core.created + {i});
      var config := LoadAll(sh.config, c.sections);
      if c.mounted
      then Shared(core.(mounts := core.mounts[c.targetPath := Mount(i, c.sections.Keys)]), config)
      else Shared(core.(cancelled := core.cancelled + {i}), config - c.sections.Keys)
  }

  function Unpublish1(sh: Shared, c: Call): Shared
    requires c.Unpublish?
  {
    var torn :=
      if c.targetPath in sh.core.mounts then
        var m := sh.core.mounts[c.targetPath];
        Shared(sh.core.(cancelled := sh.core.cancelled + {m.ctx}, tornDown := sh.core.tornDown + {m.ctx}),
               sh.config - m.remotes)
      else sh;
    if c.cleaned then torn.(core := torn.core.(mounts := torn.core.mounts - {c.targetPath})) else torn
  }

  function RunCall(sh: Shared, i: Tid, c: Call): Shared {
    if c.Publish? then Publish1(sh, i, c) else Unpublish1(sh, c)
  }

  predicate InCalls(calls: map<Tid, Call>, order: seq<Tid>) {
    forall p :: 0 <= p < |order| ==> order[p] in calls
  }

  function RunSeq(calls: map<Tid, Call>, sh: Shared, order: seq<Tid>): Shared
    requires forall p :: 0 <= p < |order| ==> order[p] in calls
  {
    if order == [] then sh
    else
      var n := |order| - 1;
      RunCall(RunSeq(calls, sh, order[..n]), order[n], calls[order[n]])
  }

  // ---- completing a goroutine that has started ----

  function Rank(pc: Pc): nat {
    match pc
    case Preparing => 7 case Loading => 6 case Creating => 5 case Mounting => 4
    case CancelOwn => 3 case RollingBack => 2 case Storing => 1
    case Reading => 6 case Unmounting => 5 case Dropping => 4 case Cleaning => 3 case Deleting => 2
    case _ => 0
  }

  /** The shared data after goroutine i has run on to its lock release with nobody else running. */
  function Complete(sh: Shared, i: Tid, th: Thread): Shared
    requires ThreadOk(th)
    decreases Rank(th.pc)
  {
    if Terminal(th.pc) then sh
    else
      var (sh', th') := LocalStep(sh, i, th);
      Complete(sh', i, th')
  }

  lemma {:induction false} CompleteUnpublish(sh: Shared, i: Tid, c: Call)
    requires c.Unpublish?
    ensures Complete(sh, i, Thread(c, Reading, None)) == Unpublish1(sh, c)
  {
    var (sh1, th1) := LocalStep(sh, i, Thread(c, Reading, None));
    if c.targetPath in sh.core.mounts {
      assert th1.pc.Unmounting?;
      var (sh2, th2) := LocalStep(sh1, i, th1);
      var (sh3, th3) := LocalStep(sh2, i, th2);
      assert Complete(sh1, i, th1) == Complete(sh2, i, th2) == Complete(sh3, i, th3);
      CompleteCleaning(sh3, i, th3);
    } else {
      CompleteCleaning(sh1, i, th1);
    }
  }

  lemma {:induction false} CompleteCleaning(sh: Shared, i: Tid, th: Thread)
    requires th.pc.Cleaning? && ThreadOk(th)
    ensures Complete(sh, i, th)
         == if th.call.cleaned then sh.(core := sh.core.(mounts := sh.core.mounts - {th.call.targetPath})) else sh
  {
    var (sh1, th1) := LocalStep(sh, i, th);
    if th1.pc.Deleting? {
      var (sh2, th2) := LocalStep(sh1, i, th1);
      assert Complete(sh2, i, th2) == sh2;
    }
  }

  lemma {:induction false} CompletePublish(sh: Shared, i: Tid, c: Call)
    requires c.Publish?
    ensures Complete(sh, i, Thread(c, Preparing, None)) == Publish1(sh, i, c)
  {
    var (sh1, th1) := LocalStep(sh, i, Thread(c, Preparing, None));
    if c.prepared {
      var (sh2, th2) := LocalStep(sh1, i, th1);
      if c.load.Loaded? {
        var (sh3, th3) := LocalStep(sh2, i, th2);
        var (sh4, th4) := LocalStep(sh3, i, th3);
        assert Complete(sh1, i, th1) == Complete(sh2, i, th2) == Complete(sh3, i, th3) == Complete(sh4, i, th4);
        CompleteMounted(sh4, i, th4);
      } else {
        assert Complete(sh2, i, th2) == sh2;
      }
    }
  }

  lemma {:induction false} CompleteMounted(sh: Shared, i: Tid, th: Thread)
    requires th.call.Publish? && th.pc == (if th.call.mounted then Storing else CancelOwn)
    requires ThreadOk(th)
    ensures Complete(sh, i, th)
         == if th.call.mounted
            then sh.(core := sh.core.(mounts := sh.core.mounts[th.call.targetPath := Mount(i, th.call.sections.Keys)]))
            else Shared(sh.core.(cancelled := sh.core.cancelled + {i}), sh.config - th.call.sections.Keys)
  {
    var (sh1, th1) := LocalStep(sh, i, th);
    if !th.call.mounted {
      var (sh2, th2) := LocalStep(sh1, i, th1);
      assert Complete(sh2, i, th2) == sh2;
    }
  }

  /** The sequential specification is what a goroutine does when it runs alone. */
  lemma CompleteIsRunCall(sh: Shared, i: Tid, c: Call)
    ensures Complete(sh, i, Thread(c, First(c), None)) == RunCall(sh, i, c)
  {
    if c.Publish? { CompletePublish(sh, i, c); } else { CompleteUnpublish(sh, i, c); }
  }

  // ---- steps of different targets commute ----

  /** Same mounts and contexts, and the same configuration where remote names are disjoint. */
  predicate Same(disjoint: bool, a: Shared, b: Shared) {
    a.core == b.core && (disjoint ==> a.config == b.config)
  }

  lemma LocalStepSame(d: bool, a: Shared, b: Shared, i: Tid, th: Thread)
    requires ThreadOk(th) && !Terminal(th.pc) && Same(d, a, b)
    ensures Same(d, LocalStep(a, i, th).0, LocalStep(b, i, th).0)
    ensures LocalStep(a, i, th).1 == LocalStep(b, i, th).1
  {
  }

  lemma {:induction false} CompleteSame(d: bool, a: Shared, b: Shared, i: Tid, th: Thread)
    requires ThreadOk(th) && Same(d, a, b)
    ensures Same(d, Complete(a, i, th), Complete(b, i, th))
    decreases Rank(th.pc)
  {
    if !Terminal(th.pc) {
      LocalStepSame(d, a, b, i, th);
      var (a', th') := LocalStep(a, i, th);
      CompleteSame(d, a', LocalStep(b, i, th).0, i, th');
    }
  }

  /** The section names that a goroutine may touch from here on. */
  function Footprint(th: Thread): set<string> {
    if th.call.Publish? then th.call.sections.Keys
    else if th.mc.Some? then th.mc.value.remotes
    else {}
  }

  /** What a step does to the configuration. */
  datatype Delta = Keep | Load(sections: Config) | Drop(names: set<string>)

  function Apply(c: Config, d: Delta): Config {
    match d case Keep => c case Load(s) => LoadAll(c, s) case Drop(names) => c - names
  }

  function Names(d: Delta): set<string> {
    match d case Keep => {} case Load(s) => s.Keys case Drop(names) => names
  }

  function StepDelta(th: Thread): Delta
    requires ThreadOk(th)
  {
    match th.pc
    case Loading => Load(if th.call.load.Loaded? then th.call.sections else PartialLoad(th.call))
    case RollingBack => Drop(th.call.sections.Keys)
    case Dropping => Drop(th.mc.value.remotes)
    case _ => Keep
  }

  lemma LocalStepDelta(sh: Shared, i: Tid, th: Thread)
    requires ThreadOk(th) && !Terminal(th.pc)
    ensures LocalStep(sh, i, th).0.config == Apply(sh.config, StepDelta(th))
  {
  }

  lemma GetLoad(c: Config, a: Config, n: string)
    ensures Get(LoadAll(c, a), n) == Get(c, n) + Get(a, n)
  {
  }

  lemma GetLoadTwice(c: Config, a: Config, b: Config, n: string)
    ensures Get(LoadAll(LoadAll(c, a), b), n) == Get(c, n) + Get(a, n) + Get(b, n)
  {
    GetLoad(c, a, n);
    GetLoad(LoadAll(c, a), b, n);
  }

  lemma SwapEmpty(g: Section, x: Section, y: Section)
    requires x == map[] || y == map[]
    ensures g + x + y == g + y + x
  {
  }

  lemma GetLoadLoad(c: Config, a: Config, b: Config, n: string)
    requires Get(a, n) == map[] || Get(b, n) == map[]
    ensures Get(LoadAll(LoadAll(c, a), b), n) == Get(LoadAll(LoadAll(c, b), a), n)
  {
    GetLoadTwice(c, a, b, n);
    GetLoadTwice(c, b, a, n);
    SwapEmpty(Get(c, n), Get(a, n), Get(b, n));
  }

  function NonEmpty(a: Config): set<string> {
    set n | n in a && a[n] != map[]
  }

  lemma LoadKeys(c: Config, a: Config, b: Config)
    ensures LoadAll(LoadAll(c, a), b).Keys == c.Keys + NonEmpty(a) + NonEmpty(b)
  {
  }

  lemma SameGets(x: Config, y: Config)
    requires x.Keys == y.Keys && forall n :: n in x ==> Get(x, n) == Get(y, n)
    ensures x == y
  {
    forall n | n in x
      ensures x[n] == y[n]
    {
      assert Get(x, n) == Get(y, n);
    }
  }

  lemma LoadLoad(c: Config, a: Config, b: Config)
    requires a.Keys !! b.Keys
    ensures LoadAll(LoadAll(c, a), b) == LoadAll(LoadAll(c, b), a)
  {
    hide LoadAll;
    LoadKeys(c, a, b);
    LoadKeys(c, b, a);
    forall n: string
      ensures Get(LoadAll(LoadAll(c, a), b), n) == Get(LoadAll(LoadAll(c, b), a), n)
    {
      assert Get(a, n) == map[] || Get(b, n) == map[];
      GetLoadLoad(c, a, b, n);
    }
    hide Get;
    SameGets(LoadAll(LoadAll(c, a), b), LoadAll(LoadAll(c, b), a));
  }

  lemma LoadDrop(c: Config, a: Config, names: set<string>)
    requires a.Keys !! names
    ensures LoadAll(c, a) - names == LoadAll(c - names, a)
  {
    var x, y := LoadAll(c, a) - names, LoadAll(c - names, a);
    assert x.Keys == y.Keys;
    forall n | n in x.Keys
      ensures x[n] == y[n]
    {
      assert Get(c - names, n) == Get(c, n);
    }
  }

  lemma DeltasCommute(c: Config, d: Delta, e: Delta)
    requires Names(d) !! Names(e)
    ensures Apply(Apply(c, d), e) == Apply(Apply(c, e), d)
  {
    if d.Load? && e.Load? { LoadLoad(c, d.sections, e.sections); }
    if d.Load? && e.Drop? { LoadDrop(c, d.sections, e.names); }
    if d.Drop? && e.Load? { LoadDrop(c, e.sections, d.names); }
    if d.Drop? && e.Drop? { assert c - d.names - e.names == c - e.names - d.names; }
  }

  /** The calls take different locks. */
  predicate Apart(c: Call, e: Call) {
    c.targetPath != e.targetPath || c.volumeId != e.volumeId
  }

  /** No publish stores a mount on the path. */
  ghost predicate NeverStored(calls: map<Tid, Call>, target: string) {
    forall k :: k in calls && Stores(calls[k]) ==> calls[k].targetPath != target
  }

  /** The calls may overlap: they work on different paths, or, as far as mounts and contexts are concerned, one of them
      does not touch the stored mount, or there never is one. */
  ghost predicate MayOverlap(calls: map<Tid, Call>, d: bool, c: Call, e: Call) {
    if c.targetPath != e.targetPath then d ==> DisjointRemotes(calls)
    else !d && (!Touches(c) || !Touches(e) || NeverStored(calls, c.targetPath))
  }

  /** Each target path is used with one volume ID and remotes of its own. */
  ghost predicate Tidy(calls: map<Tid, Call>) {
    OneVolumePerTarget(calls) && DisjointRemotes(calls)
  }

  lemma ApartMayOverlap(calls: map<Tid, Call>, i: Tid, j: Tid)
    requires i in calls && j in calls && Apart(calls[i], calls[j]) && OneVolumeWhereStored(calls)
    ensures MayOverlap(calls, Tidy(calls), calls[i], calls[j])
  {
  }

  lemma StepsCommute(calls: map<Tid, Call>, d: bool, sh: Shared, i: Tid, th: Thread, j: Tid, uh: Thread)
    requires RunsCall(calls, i, th) && RunsCall(calls, j, uh) && !Terminal(th.pc) && !Terminal(uh.pc)
    requires MayOverlap(calls, d, th.call, uh.call) && MountsOk(calls, sh.core)
    requires d ==> Footprint(th) !! Footprint(uh)
    ensures var (a, th') := LocalStep(sh, i, th); var (b, uh') := LocalStep(sh, j, uh);
            && LocalStep(a, j, uh).1 == uh' && LocalStep(b, i, th).1 == th'
            && Same(d, LocalStep(a, j, uh).0, LocalStep(b, i, th).0)
  {
    CoreCommutes(calls, d, sh, i, th, j, uh);
    if d { ConfigCommutes(sh, i, th, j, uh); }
  }

  /** What a step does to the mounts and the contexts. */
  datatype Effect =
    | NoEffect | Create(ctx: Tid) | Cancel(ctx: Tid) | TearDown(ctx: Tid)
    | Store(target: string, m: Mount) | Remove(target: string)

  function Perform(core: Core, e: Effect): Core {
    match e
    case NoEffect => core
    case Create(ctx) => core.(created := core.created + {ctx})
    case Cancel(ctx) => core.(cancelled := core.cancelled + {ctx})
    case TearDown(ctx) => core.(tornDown := core.tornDown + {ctx})
    case Store(target, m) => core.(mounts := core.mounts[target := m])
    case Remove(target) => core.(mounts := core.mounts - {target})
  }

  function StepEffect(i: Tid, th: Thread): Effect
    requires ThreadOk(th)
  {
    match th.pc
    case Creating => Create(i)
    case CancelOwn => Cancel(i)
    case Storing => Store(th.call.targetPath, Mount(i, th.call.sections.Keys))
    case Unmounting => Cancel(th.mc.value.ctx)
    case Dropping => TearDown(th.mc.value.ctx)
    case Deleting => Remove(th.call.targetPath)
    case _ => NoEffect
  }

  lemma LocalStepEffect(sh: Shared, i: Tid, th: Thread)
    requires ThreadOk(th) && !Terminal(th.pc)
    ensures LocalStep(sh, i, th).0.core == Perform(sh.core, StepEffect(i, th))
  {
  }

  /** Of the shared data only the read of an unpublish depends, on the mount of its own target path. */
  lemma LocalStepReads(a: Shared, b: Shared, i: Tid, th: Thread)
    requires ThreadOk(th) && !Terminal(th.pc)
    requires th.pc.Reading? ==> MountAt(a, th.call.targetPath) == MountAt(b, th.call.targetPath)
    ensures LocalStep(a, i, th).1 == LocalStep(b, i, th).1
  {
  }

  function MountAt(sh: Shared, target: string): Option<Mount> {
    if target in sh.core.mounts then Some(sh.core.mounts[target]) else None
  }

  lemma LocalStepElsewhere(sh: Shared, i: Tid, th: Thread, target: string)
    requires ThreadOk(th) && !Terminal(th.pc) && th.call.targetPath != target
    ensures MountAt(LocalStep(sh, i, th).0, target) == MountAt(sh, target)
  {
    LocalStepEffect(sh, i, th);
  }

  /** One stores and the other stores or removes, on one path. */
  predicate Clash(e: Effect, f: Effect) {
    (e.Store? || e.Remove?) && (f.Store? || f.Remove?) && e.target == f.target && (e.Store? || f.Store?)
  }

  lemma EffectsCommute(core: Core, e: Effect, f: Effect)
    requires !Clash(e, f)
    ensures Perform(Perform(core, e), f) == Perform(Perform(core, f), e)
  {
    var a, b := Perform(Perform(core, e), f), Perform(Perform(core, f), e);
    assert a.mounts == b.mounts;
    assert a.created == b.created && a.cancelled == b.cancelled && a.tornDown == b.tornDown;
  }

  /** What a call does that does not touch the stored mount, or works where there is none. */
  lemma LocalStepUntouched(calls: map<Tid, Call>, sh: Shared, i: Tid, th: Thread, target: string)
    requires RunsCall(calls, i, th) && !Terminal(th.pc) && MountsOk(calls, sh.core)
    requires th.call.targetPath != target || !Touches(th.call) || NeverStored(calls, target)
    ensures MountAt(LocalStep(sh, i, th).0, target) == MountAt(sh, target)
  {
    LocalStepEffect(sh, i, th);
  }

  lemma CoreCommutes(calls: map<Tid, Call>, d: bool, sh: Shared, i: Tid, th: Thread, j: Tid, uh: Thread)
    requires RunsCall(calls, i, th) && RunsCall(calls, j, uh) && !Terminal(th.pc) && !Terminal(uh.pc)
    requires MayOverlap(calls, d, th.call, uh.call) && MountsOk(calls, sh.core)
    ensures var (a, th') := LocalStep(sh, i, th); var (b, uh') := LocalStep(sh, j, uh);
            && LocalStep(a, j, uh).1 == uh' && LocalStep(b, i, th).1 == th'
            && LocalStep(a, j, uh).0.core == LocalStep(b, i, th).0.core
  {
    var a, b := LocalStep(sh, i, th).0, LocalStep(sh, j, uh).0;
    if uh.pc.Reading? { LocalStepUntouched(calls, sh, i, th, uh.call.targetPath); }
    if th.pc.Reading? { LocalStepUntouched(calls, sh, j, uh, th.call.targetPath); }
    LocalStepReads(a, sh, j, uh);
    LocalStepReads(b, sh, i, th);
    LocalStepEffect(sh, i, th);
    LocalStepEffect(sh, j, uh);
    LocalStepEffect(a, j, uh);
    LocalStepEffect(b, i, th);
    hide LocalStep;
    EffectsCommute(sh.core, StepEffect(i, th), StepEffect(j, uh));
  }

  lemma ConfigCommutes(sh: Shared, i: Tid, th: Thread, j: Tid, uh: Thread)
    requires ThreadOk(th) && ThreadOk(uh) && !Terminal(th.pc) && !Terminal(uh.pc)
    requires Footprint(th) !! Footprint(uh)
    requires (th.mc.Some? ==> th.call.Unpublish?) && (uh.mc.Some? ==> uh.call.Unpublish?)
    ensures LocalStep(LocalStep(sh, i, th).0, j, uh).0.config == LocalStep(LocalStep(sh, j, uh).0, i, th).0.config
  {
    var a, b := LocalStep(sh, i, th).0, LocalStep(sh, j, uh).0;
    LocalStepDelta(sh, i, th);
    LocalStepDelta(sh, j, uh);
    LocalStepDelta(a, j, uh);
    LocalStepDelta(b, i, th);
    hide LocalStep;
    DeltasCommute(sh.config, StepDelta(th), StepDelta(uh));
  }

  /** Completing one goroutine and stepping another commute. */
  lemma {:induction false} CompleteStepCommute(
    calls: map<Tid, Call>, d: bool, sh: Shared, i: Tid, th: Thread, j: Tid, uh: Thread)
    requires RunsCall(calls, i, th) && RunsCall(calls, j, uh) && !Terminal(th.pc) && MountsOk(calls, sh.core)
    requires MayOverlap(calls, d, th.call, uh.call)
    ensures LocalStep(Complete(sh, j, uh), i, th).1 == LocalStep(sh, i, th).1
    ensures Same(d, Complete(LocalStep(sh, i, th).0, j, uh), LocalStep(Complete(sh, j, uh), i, th).0)
    decreases Rank(uh.pc)
  {
    if !Terminal(uh.pc) {
      var (a, th') := LocalStep(sh, i, th);
      var (b, uh') := LocalStep(sh, j, uh);
      if d { FootprintsDisjoint(calls, i, th, j, uh); }
      StepsCommute(calls, d, sh, i, th, j, uh);
      LocalStepKeeps(calls, sh, j, uh);
      CompleteStepCommute(calls, d, b, i, th, j, uh');
      CompleteSame(d, LocalStep(a, j, uh).0, LocalStep(b, i, th).0, j, uh');
    }
  }

  lemma FootprintsDisjoint(calls: map<Tid, Call>, i: Tid, th: Thread, j: Tid, uh: Thread)
    requires RunsCall(calls, i, th) && RunsCall(calls, j, uh) && DisjointRemotes(calls)
    requires th.call.targetPath != uh.call.targetPath
    ensures Footprint(th) !! Footprint(uh)
  {
  }

  lemma {:induction false} CompleteKeeps(calls: map<Tid, Call>, sh: Shared, i: Tid, th: Thread)
    requires RunsCall(calls, i, th) && MountsOk(calls, sh.core)
    ensures MountsOk(calls, Complete(sh, i, th).core)
    decreases Rank(th.pc)
  {
    if !Terminal(th.pc) {
      LocalStepKeeps(calls, sh, i, th);
      var (sh', th') := LocalStep(sh, i, th);
      CompleteKeeps(calls, sh', i, th');
    }
  }

  // ---- completing every goroutine, in acquisition order ----

  ghost predicate AllRun(calls: map<Tid, Call>, threads: map<Tid, Thread>, order: seq<Tid>) {
    forall p :: 0 <= p < |order| ==> order[p] in threads && RunsCall(calls, order[p], threads[order[p]])
  }

  ghost function CompleteAll(calls: map<Tid, Call>, sh: Shared, threads: map<Tid, Thread>, order: seq<Tid>): Shared
    requires AllRun(calls, threads, order)
  {
    if order == [] then sh
    else
      var n := |order| - 1;
      Complete(CompleteAll(calls, sh, threads, order[..n]), order[n], threads[order[n]])
  }

  lemma {:induction false} CompleteAllKeeps(calls: map<Tid, Call>, sh: Shared, threads: map<Tid, Thread>, order: seq<Tid>)
    requires AllRun(calls, threads, order) && MountsOk(calls, sh.core)
    ensures MountsOk(calls, CompleteAll(calls, sh, threads, order).core)
  {
    if order != [] {
      var n := |order| - 1;
      CompleteAllKeeps(calls, sh, threads, order[..n]);
      CompleteKeeps(calls, CompleteAll(calls, sh, threads, order[..n]), order[n], threads[order[n]]);
    }
  }

  /** Every other goroutine in the order that has not finished may overlap with the call of goroutine i. */
  ghost predicate OthersMayOverlap(
    calls: map<Tid, Call>, d: bool, threads: map<Tid, Thread>, order: seq<Tid>, i: Tid, c: Call) {
    forall p :: 0 <= p < |order| && order[p] in threads && order[p] != i && !Terminal(threads[order[p]].pc)
                ==> MayOverlap(calls, d, c, threads[order[p]].call)
  }

  /** A step of a goroutine that is not in the order passes through the completion of those that are. */
  lemma {:induction false} PushThrough(
    calls: map<Tid, Call>, d: bool, sh: Shared, threads: map<Tid, Thread>, order: seq<Tid>, i: Tid, th: Thread)
    requires AllRun(calls, threads, order) && RunsCall(calls, i, th) && !Terminal(th.pc) && i !in order
    requires OthersMayOverlap(calls, d, threads, order, i, th.call) && MountsOk(calls, sh.core)
    ensures LocalStep(CompleteAll(calls, sh, threads, order), i, th).1 == LocalStep(sh, i, th).1
    ensures Same(d, CompleteAll(calls, LocalStep(sh, i, th).0, threads, order),
                    LocalStep(CompleteAll(calls, sh, threads, order), i, th).0)
  {
    if order != [] {
      var n := |order| - 1;
      var j := order[n];
      var init := order[..n];
      PushThrough(calls, d, sh, threads, init, i, th);
      var x := CompleteAll(calls, sh, threads, init);
      var y := CompleteAll(calls, LocalStep(sh, i, th).0, threads, init);
      CompleteSame(d, y, LocalStep(x, i, th).0, j, threads[j]);
      CompleteAllKeeps(calls, sh, threads, init);
      assert j != i;
      if !Terminal(threads[j].pc) {
        CompleteStepCommute(calls, d, x, i, th, j, threads[j]);
      }
    }
  }

  /** A step of a goroutine does not change what completing everybody leads to. */
  lemma {:induction false} StepAbsorbed(
    calls: map<Tid, Call>, d: bool, sh: Shared, threads: map<Tid, Thread>, order: seq<Tid>, i: Tid)
    requires AllRun(calls, threads, order) && i in order && !Terminal(threads[i].pc)
    requires forall p, q :: 0 <= p < q < |order| ==> order[p] != order[q]
    requires OthersMayOverlap(calls, d, threads, order, i, threads[i].call) && MountsOk(calls, sh.core)
    ensures var (sh', th') := LocalStep(sh, i, threads[i]);
            && AllRun(calls, threads[i := th'], order)
            && Same(d, CompleteAll(calls, sh', threads[i := th'], order), CompleteAll(calls, sh, threads, order))
  {
    var (sh', th') := LocalStep(sh, i, threads[i]);
    LocalStepKeeps(calls, sh, i, threads[i]);
    var n := |order| - 1;
    var j := order[n];
    var init := order[..n];
    if j == i {
      assert i !in init;
      CompleteAllFrame(calls, sh', threads, threads[i := th'], init);
      PushThrough(calls, d, sh, threads, init, i, threads[i]);
      var x := CompleteAll(calls, sh, threads, init);
      CompleteSame(d, CompleteAll(calls, sh', threads, init), LocalStep(x, i, threads[i]).0, i, th');
    } else {
      assert i in init;
      StepAbsorbed(calls, d, sh, threads, init, i);
      CompleteSame(d, CompleteAll(calls, sh', threads[i := th'], init), CompleteAll(calls, sh, threads, init), j, threads[j]);
    }
  }

  /** Only what the listed goroutines still have to do matters. */
  lemma {:induction false} CompleteAllFrame(
    calls: map<Tid, Call>, sh: Shared, threads: map<Tid, Thread>, threads': map<Tid, Thread>, order: seq<Tid>)
    requires AllRun(calls, threads, order)
    requires AllRun(calls, threads', order)
    requires forall p :: 0 <= p < |order| ==>
      threads'[order[p]] == threads[order[p]] || (Terminal(threads[order[p]].pc) && Terminal(threads'[order[p]].pc))
    ensures CompleteAll(calls, sh, threads', order) == CompleteAll(calls, sh, threads, order)
  {
    if order != [] {
      CompleteAllFrame(calls, sh, threads, threads', order[..|order| - 1]);
    }
  }

  lemma {:induction false} CompleteAllIdle(calls: map<Tid, Call>, sh: Shared, threads: map<Tid, Thread>, order: seq<Tid>)
    requires AllRun(calls, threads, order)
    requires forall p :: 0 <= p < |order| ==> Terminal(threads[order[p]].pc)
    ensures CompleteAll(calls, sh, threads, order) == sh
  {
    if order != [] {
      CompleteAllIdle(calls, sh, threads, order[..|order| - 1]);
    }
  }

  // ---- the linearization ----

  /** Calls that take the same lock do not overlap: in the history, all but the last of them have finished. */
  ghost predicate TargetOrder(s: State) {
    forall p, q :: 0 <= p < q < |s.hist| && s.hist[p] in s.threads && s.hist[q] in s.threads
                   && !Apart(s.threads[s.hist[p]].call, s.threads[s.hist[q]].call)
                   ==> s.threads[s.hist[p]].pc.Done?
  }

  /** Completing everybody gives the sequential run of the history. */
  ghost predicate Lin(calls: map<Tid, Call>, base: Config, s: State) {
    && AllRun(calls, s.threads, s.hist)
    && Same(Tidy(calls), CompleteAll(calls, s.shared, s.threads, s.hist), RunSeq(calls, InitShared(base), s.hist))
  }

  lemma TargetOrderStep(calls: map<Tid, Call>, s: State, i: Tid)
    requires StateOk(s) && LockInv(calls, s) && TargetOrder(s)
    ensures TargetOrder(Step(s, i))
  {
    StepHasShape(calls, s, i);
    if i in s.threads && s.threads[i].pc.Start? && Key(s.threads[i].call) !in s.locks {
      SameKeyFinished(calls, s, i);
    }
    hide Step;
    TargetOrderKept(s, Step(s, i), i);
  }

  lemma SameKeyFinished(calls: map<Tid, Call>, s: State, i: Tid)
    requires LockInv(calls, s)
    requires i in s.threads && s.threads[i].pc.Start? && Key(s.threads[i].call) !in s.locks
    ensures forall j :: j in s.hist && !Apart(s.threads[j].call, s.threads[i].call) ==> s.threads[j].pc.Done?
  {
    forall j | j in s.hist && !Apart(s.threads[j].call, s.threads[i].call)
      ensures s.threads[j].pc.Done?
    {
      assert RunsCall(calls, i, s.threads[i]) && RunsCall(calls, j, s.threads[j]);
      assert Keys(calls)[j] == Key(s.threads[i].call);
      assert Holds(s.threads[j].pc) ==> j in Holders(s);
    }
  }

  lemma TargetOrderKept(s: State, s': State, i: Tid)
    requires StateOk(s) && StepShape(s, s', i) && TargetOrder(s)
    requires i in s.threads && s.threads[i].pc.Start? && Key(s.threads[i].call) !in s.locks ==>
      forall j :: j in s.hist && !Apart(s.threads[j].call, s.threads[i].call) ==> s.threads[j].pc.Done?
    ensures TargetOrder(s')
  {
    hide Key;
  }

  lemma FrameStep(calls: map<Tid, Call>, s: State, s': State, i: Tid)
    requires AllRun(calls, s.threads, s.hist) && AllRun(calls, s'.threads, s.hist)
    requires s'.threads.Keys == s.threads.Keys && i in s.threads
    requires forall j :: j in s.threads && j != i ==> s'.threads[j] == s.threads[j]
    requires i in s.hist ==> Terminal(s.threads[i].pc) && Terminal(s'.threads[i].pc)
    ensures CompleteAll(calls, s.shared, s'.threads, s.hist) == CompleteAll(calls, s.shared, s.threads, s.hist)
  {
    CompleteAllFrame(calls, s.shared, s.threads, s'.threads, s.hist);
  }

  /** Acquiring the lock appends one call to the sequential run. */
  lemma LinAcquire(calls: map<Tid, Call>, base: Config, s: State, s': State, i: Tid)
    requires Lin(calls, base, s) && i in s.threads && i !in s.hist && s'.hist == s.hist + [i] && s'.shared == s.shared
    requires s'.threads.Keys == s.threads.Keys && AllRun(calls, s'.threads, s'.hist)
    requires forall j :: j in s.threads && j != i ==> s'.threads[j] == s.threads[j]
    requires i in calls && s'.threads[i] == Thread(calls[i], First(calls[i]), None)
    ensures Lin(calls, base, s')
  {
    assert s'.hist[..|s'.hist| - 1] == s.hist;
    assert forall p :: 0 <= p < |s.hist| ==> s.hist[p] == s'.hist[p];
    FrameStep(calls, s, s', i);
    var x, y := CompleteAll(calls, s.shared, s.threads, s.hist), RunSeq(calls, InitShared(base), s.hist);
    CompleteSame(Tidy(calls), x, y, i, s'.threads[i]);
    CompleteIsRunCall(y, i, calls[i]);
  }

  lemma AllRunHolds(calls: map<Tid, Call>, s: State)
    requires ThreadsInv(calls, s) && StateOk(s)
    ensures AllRun(calls, s.threads, s.hist)
  {
  }

  lemma LinLocal(calls: map<Tid, Call>, base: Config, s: State, s': State, i: Tid)
    requires Lin(calls, base, s) && HistExactly(s) && TargetOrder(s) && MountsOk(calls, s.shared.core)
    requires OneVolumeWhereStored(calls)
    requires i in s.threads && RunsCall(calls, i, s.threads[i]) && !Terminal(s.threads[i].pc)
    requires s'.hist == s.hist && s'.threads == s.threads[i := LocalStep(s.shared, i, s.threads[i]).1]
    requires s'.shared == LocalStep(s.shared, i, s.threads[i]).0
    ensures Lin(calls, base, s')
  {
    assert i in s.hist;
    OthersCanOverlap(calls, s, i);
    StepAbsorbed(calls, Tidy(calls), s.shared, s.threads, s.hist, i);
  }

  lemma LinIdle(calls: map<Tid, Call>, base: Config, s: State, s': State, i: Tid)
    requires Lin(calls, base, s) && s'.hist == s.hist && s'.shared == s.shared && AllRun(calls, s'.threads, s'.hist)
    requires s'.threads.Keys == s.threads.Keys && i in s.threads
    requires forall j :: j in s.threads && j != i ==> s'.threads[j] == s.threads[j]
    requires Terminal(s.threads[i].pc) && Terminal(s'.threads[i].pc)
    ensures Lin(calls, base, s')
  {
    FrameStep(calls, s, s', i);
  }

  lemma LinStep(calls: map<Tid, Call>, base: Config, s: State, s': State, i: Tid)
    requires StateOk(s) && StateOk(s') && LockInv(calls, s) && ThreadsInv(calls, s') && TargetOrder(s) && Lin(calls, base, s)
    requires StepShape(s, s', i) && OneVolumeWhereStored(calls)
    requires i in s.threads && !Terminal(s.threads[i].pc) ==>
               s'.threads == s.threads[i := LocalStep(s.shared, i, s.threads[i]).1]
               && s'.shared == LocalStep(s.shared, i, s.threads[i]).0
    ensures Lin(calls, base, s')
  {
    if i in s.threads {
      AllRunHolds(calls, s');
      var th := s.threads[i];
      assert RunsCall(calls, i, th) && RunsCall(calls, i, s'.threads[i]);
      if !Terminal(th.pc) {
        LinLocal(calls, base, s, s', i);
      } else if i !in s.hist && i in s'.hist {
        LinAcquire(calls, base, s, s', i);
      } else {
        LinIdle(calls, base, s, s', i);
      }
    }
  }

  lemma OthersCanOverlap(calls: map<Tid, Call>, s: State, i: Tid)
    requires TargetOrder(s) && i in s.hist && i in s.threads && !s.threads[i].pc.Done? && OneVolumeWhereStored(calls)
    requires AllRun(calls, s.threads, s.hist)
    ensures OthersMayOverlap(calls, Tidy(calls), s.threads, s.hist, i, s.threads[i].call)
  {
    var q :| 0 <= q < |s.hist| && s.hist[q] == i;
    assert RunsCall(calls, i, s.threads[i]);
    forall p | 0 <= p < |s.hist| && s.hist[p] in s.threads && s.hist[p] != i && !Terminal(s.threads[s.hist[p]].pc)
      ensures MayOverlap(calls, Tidy(calls), s.threads[i].call, s.threads[s.hist[p]].call)
    {
      assert p < q || q < p;
      assert RunsCall(calls, s.hist[p], s.threads[s.hist[p]]);
      ApartMayOverlap(calls, i, s.hist[p]);
    }
  }

  ghost predicate LinInv(calls: map<Tid, Call>, base: Config, s: State) {
    LockInv(calls, s) && TargetOrder(s) && Lin(calls, base, s)
  }

  lemma LinInvStep(calls: map<Tid, Call>, base: Config, s: State, i: Tid)
    requires StateOk(s) && OneVolumeWhereStored(calls) && LinInv(calls, base, s)
    ensures LinInv(calls, base, Step(s, i))
  {
    hide Lin;
    LockInvStep(calls, s, i);
    TargetOrderStep(calls, s, i);
    StepHasShape(calls, s, i);
    LinStep(calls, base, s, Step(s, i), i);
  }

  lemma LinInit(calls: map<Tid, Call>, base: Config)
    ensures LinInv(calls, base, Init(calls, base))
  {
  }

  lemma {:induction false} LinRun(r: Run)
    requires r.Valid() && OneVolumeWhereStored(r.calls)
    ensures LinInv(r.calls, r.base, r.Last())
    decreases |r.sched|
  {
    if r.sched == [] {
      LinInit(r.calls, r.base);
    } else {
      hide Step, LinInv;
      r.BeforeValid();
      LinRun(r.Before());
      LinInvStep(r.calls, r.base, r.Before().Last(), r.sched[|r.sched| - 1]);
    }
  }

  /** Main result: when no call is in flight, mounts and contexts are those of running the acquired calls one
      by one in acquisition order; so is the rclone configuration when each target path has one volume ID and remotes
      of its own. */
  lemma Linearizable(r: Run)
    requires r.Valid() && OneVolumeWhereStored(r.calls) && Quiescent(r.Last())
    ensures forall p :: 0 <= p < |r.Last().hist| ==> r.Last().hist[p] in r.calls
    ensures r.Last().shared.core == RunSeq(r.calls, InitShared(r.base), r.Last().hist).core
    ensures Tidy(r.calls) ==> r.Last().shared == RunSeq(r.calls, InitShared(r.base), r.Last().hist)
  {
    LinRun(r);
    var s := r.Last();
    CompleteAllIdle(r.calls, s.shared, s.threads, s.hist);
  }

  /** The history of a quiescent run lists exactly the calls that were not aborted and did begin, and each of
      them has answered OK if all that it needs has succeeded, and otherwise that it failed. */
  lemma LinearizableResults(r: Run)
    requires r.Valid() && Quiescent(r.Last())
    ensures r.Last().threads.Keys == r.calls.Keys
    ensures var h := r.Last().hist; forall p, q :: 0 <= p < q < |h| ==> h[p] != h[q]
    ensures forall i :: i in r.calls ==>
      var pc := r.Last().threads[i].pc;
      && (i in r.Last().hist <==> pc == Done(if Succeeds(r.calls[i]) then Ok else Failed))
      && (i !in r.Last().hist <==> pc.Start? || pc == Done(Aborted))
  {
    LocksExact(r);
    var s := r.Last();
    forall i | i in r.calls
      ensures (i in s.hist <==> s.threads[i].pc == Done(if Succeeds(r.calls[i]) then Ok else Failed))
              && (i !in s.hist <==> s.threads[i].pc.Start? || s.threads[i].pc == Done(Aborted))
    {
      IdleResult(r.calls, i, s.threads[i]);
    }
  }

  lemma IdleResult(calls: map<Tid, Call>, i: Tid, th: Thread)
    requires RunsCall(calls, i, th) && Idle(th.pc)
    ensures Acquired(th.pc) <==> th.pc == Done(Outcome(calls[i]))
    ensures !Acquired(th.pc) <==> th.pc.Start? || th.pc == Done(Aborted)
  {
  }

  /** In every reachable state: a target path with no call in flight has the mount of the sequential run. */
  lemma LinearizablePerTarget(r: Run, target: string)
    requires r.Valid() && OneVolumeWhereStored(r.calls)
    requires forall i :: i in r.Last().threads && r.Last().threads[i].call.targetPath == target
                         ==> Idle(r.Last().threads[i].pc)
    ensures forall p :: 0 <= p < |r.Last().hist| ==> r.Last().hist[p] in r.calls
    ensures MountAt(r.Last().shared, target) == MountAt(RunSeq(r.calls, InitShared(r.base), r.Last().hist), target)
  {
    LinRun(r);
    hide HistExactly, TargetOrder, HeldExactly;
    var s := r.Last();
    CompleteAllElsewhere(r.calls, s.shared, s.threads, s.hist, target);
  }

  lemma {:induction false} CompleteElsewhere(sh: Shared, i: Tid, th: Thread, target: string)
    requires ThreadOk(th) && (th.call.targetPath == target ==> Terminal(th.pc))
    ensures MountAt(Complete(sh, i, th), target) == MountAt(sh, target)
    decreases Rank(th.pc)
  {
    if !Terminal(th.pc) {
      var (sh', th') := LocalStep(sh, i, th);
      CompleteElsewhere(sh', i, th', target);
    }
  }

  lemma {:induction false} CompleteAllElsewhere(
    calls: map<Tid, Call>, sh: Shared, threads: map<Tid, Thread>, order: seq<Tid>, target: string)
    requires AllRun(calls, threads, order)
    requires forall p :: 0 <= p < |order| && threads[order[p]].call.targetPath == target ==> Terminal(threads[order[p]].pc)
    ensures MountAt(CompleteAll(calls, sh, threads, order), target) == MountAt(sh, target)
  {
    if order != [] {
      var n := |order| - 1;
      CompleteAllElsewhere(calls, sh, threads, order[..n], target);
      CompleteElsewhere(CompleteAll(calls, sh, threads, order[..n]), order[n], threads[order[n]], target);
    }
  }
}

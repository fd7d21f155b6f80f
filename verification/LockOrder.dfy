/** The mutexes of the driver under Go's rules: a writer that waits for a RWMutex keeps new readers out.
    Publish, unpublish and stats calls hold one mutex at a time and cannot deadlock; the Prometheus scrape reads
    ns.mu inside a read of ns.mu, and that is the only way the driver can. */
module LockOrder {
  import opened MountProtocol

  /** volumeLocks.mux, NodeServer.mu and NodeServer.configMu; a plain mutex is a RWMutex that nobody reads. */
  datatype Mutex = VolumeMux | NsMu | ConfigMu

  datatype Op = Lock(m: Mutex) | Unlock(m: Mutex) | RLock(m: Mutex) | RUnlock(m: Mutex) | Work

  /** The operations still to do, what is held, and whether a writer has announced itself. */
  datatype Locker = Locker(prog: seq<Op>, writeHeld: set<Mutex>, readHeld: multiset<Mutex>, waiting: bool)

  type System = map<Tid, Locker>

  function Fresh(prog: seq<Op>): Locker {
    Locker(prog, {}, multiset{}, false)
  }

  // ---- the programs of the driver ----

  function WriteSection(m: Mutex): seq<Op> {
    [Lock(m), Work, Unlock(m)]
  }

  function ReadSection(m: Mutex): seq<Op> {
    [RLock(m), Work, RUnlock(m)]
  }

  /** NodePublishVolume, whether or not it gets its volume lock. */
  function PublishProgram(c: Call, acquired: bool): seq<Op>
    requires c.Publish?
  {
    WriteSection(VolumeMux)
    + (if !acquired then []
       else
         [Work]
         + (if !c.prepared then []
            else WriteSection(ConfigMu) + (if !c.load.Loaded? then []
                                      else [Work] + (if c.mounted then WriteSection(NsMu)
                                                     else if c.sections != map[] then WriteSection(ConfigMu) else [])))
         + WriteSection(VolumeMux))
  }

  /** NodeUnpublishVolume, with the number of remotes of the mount it finds. */
  function UnpublishProgram(c: Call, acquired: bool, found: bool, remotes: nat): seq<Op>
    requires c.Unpublish?
  {
    WriteSection(VolumeMux)
    + (if !acquired then []
       else
         ReadSection(NsMu)
         + (if found then [Work] + (if remotes > 0 then WriteSection(ConfigMu) else []) else [])
         + [Work] + (if c.cleaned then WriteSection(NsMu) else [])
         + WriteSection(VolumeMux))
  }

  /** NodeGetVolumeStats: isMountHealthy looks up the mount context. */
  const StatsProgram: seq<Op> := [Work] + ReadSection(NsMu) + [Work]

  /** collectVFSMetrics: a read lock around one isMountHealthy for every mount whose directory can be read. */
  function ScrapeProgram(mounts: nat): seq<Op> {
    [RLock(NsMu), Work] + Healths(mounts) + [RUnlock(NsMu)]
  }

  function Healths(mounts: nat): seq<Op> {
    if mounts == 0 then [] else ReadSection(NsMu) + Healths(mounts - 1)
  }

  // ---- steps ----

  function Head(l: Locker): Op {
    if l.prog == [] then Work else l.prog[0]
  }

  ghost predicate Free(s: System, m: Mutex) {
    forall j :: j in s ==> m !in s[j].writeHeld && m !in s[j].readHeld
  }

  ghost predicate NoWriter(s: System, m: Mutex) {
    forall j :: j in s ==> m !in s[j].writeHeld && !(s[j].waiting && s[j].prog != [] && Head(s[j]) == Lock(m))
  }

  /** Lock announces itself, which never blocks, and then needs the mutex free; RLock needs that no writer
      holds it or waits for it. */
  ghost predicate Enabled(s: System, i: Tid) {
    i in s && s[i].prog != []
    && match Head(s[i])
       case Lock(m) => s[i].waiting ==> Free(s, m)
       case RLock(m) => NoWriter(s, m)
       case _ => true
  }

  function Advance(l: Locker): Locker
    requires l.prog != []
  {
    var rest := l.prog[1..];
    match Head(l)
    case Lock(m) => if l.waiting then Locker(rest, l.writeHeld + {m}, l.readHeld, false) else l.(waiting := true)
    case Unlock(m) => l.(prog := rest, writeHeld := l.writeHeld - {m})
    case RLock(m) => l.(prog := rest, readHeld := l.readHeld + multiset{m})
    case RUnlock(m) => l.(prog := rest, readHeld := l.readHeld - multiset{m})
    case Work => l.(prog := rest)
  }

  /** A run: each state follows from the one before by an enabled step. */
  ghost predicate IsRun(states: seq<System>) {
    states != [] && forall k {:trigger MovesAt(states, k)} :: 0 <= k < |states| - 1 ==> MovesAt(states, k)
  }

  function Last(states: seq<System>): System
    requires states != []
  {
    states[|states| - 1]
  }

  ghost predicate MovesAt(states: seq<System>, k: nat)
    requires k + 1 < |states|
  {
    exists i :: Enabled(states[k], i) && states[k + 1] == states[k][i := Advance(states[k][i])]
  }

  ghost predicate Finished(s: System) {
    forall i :: i in s ==> s[i].prog == []
  }

  /** Some goroutine has not finished and none can step. */
  ghost predicate Stuck(s: System) {
    !Finished(s) && forall i :: i in s ==> !Enabled(s, i)
  }

  // ---- discipline ----

  datatype Held = Nothing | WriteLocked(m: Mutex) | ReadLocked(m: Mutex, depth: nat)

  /** The program takes a mutex only when it holds none; with nested, also a read lock inside the same read lock. */
  predicate Ordered(prog: seq<Op>, h: Held, nested: bool)
    decreases |prog|
  {
    if prog == [] then h.Nothing?
    else
      var rest := prog[1..];
      match prog[0]
      case Work => Ordered(rest, h, nested)
      case Lock(m) => h.Nothing? && Ordered(rest, WriteLocked(m), nested)
      case Unlock(m) => h == WriteLocked(m) && Ordered(rest, Nothing, nested)
      case RLock(m) =>
        if h.Nothing? then Ordered(rest, ReadLocked(m, 1), nested)
        else nested && h.ReadLocked? && h.m == m && Ordered(rest, ReadLocked(m, h.depth + 1), nested)
      case RUnlock(m) =>
        h.ReadLocked? && h.m == m && h.depth > 0
        && Ordered(rest, if h.depth == 1 then Nothing else ReadLocked(m, h.depth - 1), nested)
  }

  predicate HoldsJust(l: Locker, h: Held) {
    match h
    case Nothing => l.writeHeld == {} && l.readHeld == multiset{}
    case WriteLocked(m) => l.writeHeld == {m} && l.readHeld == multiset{}
    case ReadLocked(m, d) => l.writeHeld == {} && d > 0 && l.readHeld == Reads(m, d)
  }

  /** What the goroutine holds agrees with where it is in an ordered program. */
  ghost predicate InOrder(l: Locker, nested: bool) {
    && (exists h :: HoldsJust(l, h) && Ordered(l.prog, h, nested))
    && (l.waiting ==> l.prog != [] && l.prog[0].Lock?)
  }

  ghost predicate AllInOrder(s: System, nests: set<Tid>) {
    forall i :: i in s ==> InOrder(s[i], i in nests)
  }

  function Reads(m: Mutex, depth: nat): multiset<Mutex> {
    multiset{}[m := depth]
  }

  lemma ReadsUp(m: Mutex, depth: nat)
    ensures Reads(m, depth) + multiset{m} == Reads(m, depth + 1) && multiset{} + multiset{m} == Reads(m, 1)
  {
  }

  lemma ReadsDown(m: Mutex, depth: nat)
    requires depth > 0
    ensures Reads(m, depth) - multiset{m} == Reads(m, depth - 1) && Reads(m, 0) == multiset{}
  {
  }

  /** What is held after the head of an ordered program. */
  function HeldNext(l: Locker, h: Held, nested: bool): Held
    requires l.prog != [] && Ordered(l.prog, h, nested)
  {
    match l.prog[0]
    case Work => h
    case Lock(m) => if l.waiting then WriteLocked(m) else h
    case Unlock(m) => Nothing
    case RLock(m) => if h.Nothing? then ReadLocked(m, 1) else ReadLocked(m, h.depth + 1)
    case RUnlock(m) => if h.depth == 1 then Nothing else ReadLocked(m, h.depth - 1)
  }

  lemma AdvanceHolds(l: Locker, h: Held, nested: bool)
    requires l.prog != [] && HoldsJust(l, h) && Ordered(l.prog, h, nested)
    ensures HoldsJust(Advance(l), HeldNext(l, h, nested))
  {
    if l.prog[0].RLock? {
      TakeRead(l, h, l.prog[0].m);
    } else if l.prog[0].RUnlock? {
      DropRead(l, h, l.prog[0].m);
    } else {
      hide Ordered;
    }
  }

  lemma TakeRead(l: Locker, h: Held, m: Mutex)
    requires l.prog != [] && l.prog[0] == RLock(m) && HoldsJust(l, h) && (h.Nothing? || (h.ReadLocked? && h.m == m))
    ensures HoldsJust(Advance(l), ReadLocked(m, if h.Nothing? then 1 else h.depth + 1))
  {
    ReadsUp(m, if h.Nothing? then 0 else h.depth);
    hide Reads;
  }

  lemma DropRead(l: Locker, h: Held, m: Mutex)
    requires l.prog != [] && l.prog[0] == RUnlock(m) && h.ReadLocked? && h.m == m && HoldsJust(l, h)
    ensures HoldsJust(Advance(l), if h.depth == 1 then Nothing else ReadLocked(m, h.depth - 1))
  {
    ReadsDown(m, h.depth);
    hide Reads;
  }

  lemma AdvanceOrdered(l: Locker, h: Held, nested: bool)
    requires l.prog != [] && Ordered(l.prog, h, nested)
    ensures Ordered(Advance(l).prog, HeldNext(l, h, nested), nested)
    ensures Advance(l).waiting ==> (l.prog[0].Lock? && Advance(l).prog == l.prog) || l.waiting
  {
  }

  lemma AdvanceInOrder(l: Locker, nested: bool)
    requires InOrder(l, nested) && l.prog != []
    ensures InOrder(Advance(l), nested)
  {
    var h :| HoldsJust(l, h) && Ordered(l.prog, h, nested);
    AdvanceHolds(l, h, nested);
    AdvanceOrdered(l, h, nested);
    assert l.waiting ==> !Advance(l).waiting;
    hide HoldsJust, Ordered, HeldNext, Advance;
  }

  lemma {:induction false} RunInOrder(states: seq<System>, nests: set<Tid>)
    requires IsRun(states) && AllInOrder(states[0], nests)
    ensures AllInOrder(Last(states), nests)
  {
    if |states| > 1 {
      var k := |states| - 2;
      var before := states[..k + 1];
      forall n | 0 <= n < |before| - 1 ensures MovesAt(before, n) {
        assert MovesAt(states, n);
      }
      RunInOrder(before, nests);
      assert MovesAt(states, k);
      var i :| Enabled(states[k], i) && states[k + 1] == states[k][i := Advance(states[k][i])];
      AdvanceInOrder(states[k][i], i in nests);
    }
  }

  // ---- deadlock ----

  /** A goroutine that holds a read lock waits to take it again, behind a writer that waits for the first. */
  ghost predicate NestedReadBehindWriter(s: System, i: Tid, j: Tid, m: Mutex) {
    && i in s && j in s && m in s[i].readHeld && s[i].prog != [] && s[i].prog[0] == RLock(m)
    && s[j].waiting && s[j].prog != [] && s[j].prog[0] == Lock(m)
  }

  lemma HolderStuck(s: System, nests: set<Tid>, i: Tid, h: Held)
    requires AllInOrder(s, nests) && i in s && HoldsJust(s[i], h) && Ordered(s[i].prog, h, i in nests)
    requires !h.Nothing? && !Enabled(s, i)
    ensures h.ReadLocked? && i in nests && s[i].prog != [] && s[i].prog[0] == RLock(h.m)
  {
  }

  /** With nobody holding anything, somebody can step. */
  lemma NobodyHolding(s: System, nests: set<Tid>, i: Tid)
    requires AllInOrder(s, nests) && i in s && s[i].prog != []
    requires forall j :: j in s ==> s[j].writeHeld == {} && s[j].readHeld == multiset{}
    ensures exists j :: Enabled(s, j)
  {
    if !Enabled(s, i) {
      assert s[i].prog[0].RLock?;
      var j :| j in s && s[j].waiting && s[j].prog != [] && Head(s[j]) == Lock(s[i].prog[0].m);
      assert Enabled(s, j);
    }
  }

  lemma StuckHolder(s: System, nests: set<Tid>)
    requires AllInOrder(s, nests) && Stuck(s)
    ensures exists i, h :: i in s && HoldsJust(s[i], h) && Ordered(s[i].prog, h, i in nests) && !h.Nothing?
  {
    var i :| i in s && s[i].prog != [];
    if forall j :: j in s ==> s[j].writeHeld == {} && s[j].readHeld == multiset{} {
      NobodyHolding(s, nests, i);
    } else {
      var j :| j in s && !(s[j].writeHeld == {} && s[j].readHeld == multiset{});
      var h :| HoldsJust(s[j], h) && Ordered(s[j].prog, h, j in nests);
      assert !h.Nothing?;
    }
  }

  /** Writers and readers exclude each other. */
  ghost predicate Exclusive(s: System) {
    forall i, j, m :: i in s && j in s && m in s[i].writeHeld && (m in s[j].readHeld || (m in s[j].writeHeld && i != j)) ==> false
  }

  lemma AdvanceExclusive(s: System, i: Tid)
    requires Exclusive(s) && Enabled(s, i)
    ensures Exclusive(s[i := Advance(s[i])])
  {
  }

  lemma {:induction false} RunExclusive(states: seq<System>)
    requires IsRun(states) && Exclusive(states[0])
    ensures Exclusive(Last(states))
  {
    if |states| > 1 {
      var k := |states| - 2;
      var before := states[..k + 1];
      forall n | 0 <= n < |before| - 1 ensures MovesAt(before, n) {
        assert MovesAt(states, n);
      }
      RunExclusive(before);
      assert MovesAt(states, k);
      var i :| Enabled(states[k], i) && states[k + 1] == states[k][i := Advance(states[k][i])];
      AdvanceExclusive(states[k], i);
    }
  }

  /** If nobody can step, it is because of a nested read behind a waiting writer. */
  lemma StuckOnlyByNestedRead(s: System, nests: set<Tid>)
    requires AllInOrder(s, nests) && Exclusive(s) && Stuck(s)
    ensures exists i, j, m :: i in nests && NestedReadBehindWriter(s, i, j, m)
  {
    StuckHolder(s, nests);
    var i, h :| i in s && HoldsJust(s[i], h) && Ordered(s[i].prog, h, i in nests) && !h.Nothing?;
    HolderStuck(s, nests, i, h);
    assert h.m in s[i].readHeld;
    assert !NoWriter(s, h.m);
    var j :| j in s && !(h.m !in s[j].writeHeld && !(s[j].waiting && s[j].prog != [] && Head(s[j]) == Lock(h.m)));
    assert NestedReadBehindWriter(s, i, j, h.m);
  }

  ghost predicate AllFresh(s: System) {
    forall i :: i in s ==> s[i] == Fresh(s[i].prog)
  }

  /** The programs of the RPC goroutines, and of the scrapes when nested.  A stats call that cannot read its directory
      only works, and a refused request does nothing here. */
  ghost predicate DriverProgram(prog: seq<Op>, nested: bool) {
    || (exists c: Call, acquired: bool :: c.Publish? && prog == PublishProgram(c, acquired))
    || (exists c: Call, acquired: bool, found: bool, n: nat :: c.Unpublish? && prog == UnpublishProgram(c, acquired, found, n))
    || prog == StatsProgram || prog == [Work] || prog == []
    || (nested && exists n: nat :: prog == ScrapeProgram(n))
  }

  /** Main result: any number of publish, unpublish and stats goroutines, in any state they can reach, have
      finished or can step. */
  lemma RpcsNeverDeadlock(states: seq<System>)
    requires IsRun(states) && AllFresh(states[0])
    requires forall i :: i in states[0] ==> DriverProgram(states[0][i].prog, false)
    ensures !Stuck(Last(states))
  {
    DriverInOrder(states[0], {});
    RunInOrder(states, {});
    RunExclusive(states);
    if Stuck(Last(states)) { StuckOnlyByNestedRead(Last(states), {}); }
  }

  lemma DriverInOrder(s: System, nests: set<Tid>)
    requires AllFresh(s) && forall i :: i in s ==> DriverProgram(s[i].prog, i in nests)
    ensures AllInOrder(s, nests) && Exclusive(s)
  {
    forall i | i in s
      ensures InOrder(s[i], i in nests)
    {
      ProgramOrdered(s[i].prog, i in nests);
      assert HoldsJust(s[i], Nothing);
    }
  }

  lemma {:induction false} OrderedConcat(a: seq<Op>, b: seq<Op>, h: Held, nested: bool)
    requires Ordered(a, h, nested) && Ordered(b, Nothing, nested)
    ensures Ordered(a + b, h, nested)
    decreases |a|
  {
    if a == [] {
      assert a + b == b;
    } else {
      assert (a + b)[1..] == a[1..] + b && (a + b)[0] == a[0];
      var rest := a[1..];
      match a[0]
      case Work => OrderedConcat(rest, b, h, nested);
      case Lock(m) => OrderedConcat(rest, b, WriteLocked(m), nested);
      case Unlock(m) => OrderedConcat(rest, b, Nothing, nested);
      case RLock(m) => OrderedConcat(rest, b, if h.Nothing? then ReadLocked(m, 1) else ReadLocked(m, h.depth + 1), nested);
      case RUnlock(m) => OrderedConcat(rest, b, if h.depth == 1 then Nothing else ReadLocked(m, h.depth - 1), nested);
    }
  }

  lemma SectionsOrdered(m: Mutex, nested: bool)
    ensures Ordered(WriteSection(m), Nothing, nested) && Ordered(ReadSection(m), Nothing, nested)
    ensures Ordered([Work], Nothing, nested) && Ordered([], Nothing, nested)
  {
    assert WriteSection(m)[1..] == [Work, Unlock(m)] && [Work, Unlock(m)][1..] == [Unlock(m)] && [Unlock(m)][1..] == [];
    assert ReadSection(m)[1..] == [Work, RUnlock(m)] && [Work, RUnlock(m)][1..] == [RUnlock(m)] && [RUnlock(m)][1..] == [];
    assert [Work][1..] == [];
  }

  /** Concatenations of ordered programs are ordered. */
  lemma Chain(a: seq<Op>, b: seq<Op>, nested: bool)
    requires Ordered(a, Nothing, nested) && Ordered(b, Nothing, nested)
    ensures Ordered(a + b, Nothing, nested)
  {
    OrderedConcat(a, b, Nothing, nested);
  }

  lemma PublishOrdered(c: Call, acquired: bool, nested: bool)
    requires c.Publish?
    ensures Ordered(PublishProgram(c, acquired), Nothing, nested)
  {
    hide Ordered;
    SectionsOrdered(VolumeMux, nested);
    SectionsOrdered(NsMu, nested);
    SectionsOrdered(ConfigMu, nested);
    var tail := if c.mounted then WriteSection(NsMu) else if c.sections != map[] then WriteSection(ConfigMu) else [];
    Chain([Work], tail, nested);
    var created := if !c.load.Loaded? then [] else [Work] + tail;
    Chain(WriteSection(ConfigMu), created, nested);
    var loaded := if !c.prepared then [] else WriteSection(ConfigMu) + created;
    Chain([Work], loaded, nested);
    Chain([Work] + loaded, WriteSection(VolumeMux), nested);
    Chain(WriteSection(VolumeMux), if !acquired then [] else [Work] + loaded + WriteSection(VolumeMux), nested);
  }

  lemma UnpublishOrdered(c: Call, acquired: bool, found: bool, remotes: nat, nested: bool)
    requires c.Unpublish?
    ensures Ordered(UnpublishProgram(c, acquired, found, remotes), Nothing, nested)
  {
    hide Ordered;
    SectionsOrdered(VolumeMux, nested);
    SectionsOrdered(NsMu, nested);
    SectionsOrdered(ConfigMu, nested);
    var drop := if remotes > 0 then WriteSection(ConfigMu) else [];
    Chain([Work], drop, nested);
    var torn := if found then [Work] + drop else [];
    Chain(ReadSection(NsMu), torn, nested);
    var a := ReadSection(NsMu) + torn;
    Chain(a, [Work], nested);
    var del := if c.cleaned then WriteSection(NsMu) else [];
    Chain(a + [Work], del, nested);
    Chain(a + [Work] + del, WriteSection(VolumeMux), nested);
    Chain(WriteSection(VolumeMux), if !acquired then [] else a + [Work] + del + WriteSection(VolumeMux), nested);
  }

  lemma {:induction false} HealthsOrdered(n: nat)
    ensures Ordered(Healths(n) + [RUnlock(NsMu)], ReadLocked(NsMu, 1), true)
  {
    if n == 0 {
      assert Healths(0) + [RUnlock(NsMu)] == [RUnlock(NsMu)];
      assert [RUnlock(NsMu)][1..] == [];
    } else {
      HealthsOrdered(n - 1);
      var rest := Healths(n - 1) + [RUnlock(NsMu)];
      var p := [RLock(NsMu), Work, RUnlock(NsMu)] + rest;
      assert Healths(n) + [RUnlock(NsMu)] == p;
      assert p[1..] == [Work, RUnlock(NsMu)] + rest;
      assert p[1..][1..] == [RUnlock(NsMu)] + rest;
      assert p[1..][1..][1..] == rest;
      assert Ordered(p[1..][1..], ReadLocked(NsMu, 2), true);
      assert Ordered(p[1..], ReadLocked(NsMu, 2), true);
    }
  }

  lemma ProgramOrdered(prog: seq<Op>, nested: bool)
    requires DriverProgram(prog, nested)
    ensures Ordered(prog, Nothing, nested)
  {
    hide Ordered;
    if c: Call, acquired: bool :| c.Publish? && prog == PublishProgram(c, acquired) {
      PublishOrdered(c, acquired, nested);
    } else if c: Call, acquired: bool, found: bool, n: nat :| c.Unpublish? && prog == UnpublishProgram(c, acquired, found, n) {
      UnpublishOrdered(c, acquired, found, n, nested);
    } else if prog == StatsProgram {
      SectionsOrdered(NsMu, nested);
      Chain([Work], ReadSection(NsMu), nested);
      Chain([Work] + ReadSection(NsMu), [Work], nested);
    } else if prog == [] || prog == [Work] {
      SectionsOrdered(NsMu, nested);
    } else {
      var n: nat :| prog == ScrapeProgram(n);
      ScrapeOrdered(n);
    }
  }

  lemma ScrapeOrdered(n: nat)
    ensures Ordered(ScrapeProgram(n), Nothing, true) && Ordered(ScrapeProgram(0), Nothing, false)
  {
    assert ScrapeProgram(0) == ReadSection(NsMu);
    SectionsOrdered(NsMu, false);
    HealthsOrdered(n);
    var rest := Healths(n) + [RUnlock(NsMu)];
    var p := ScrapeProgram(n);
    assert p == [RLock(NsMu), Work] + rest;
    assert p[1..] == [Work] + rest && p[1..][1..] == rest;
    assert Ordered(p[1..], ReadLocked(NsMu, 1), true);
  }
}

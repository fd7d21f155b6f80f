/** The Prometheus scrape reads ns.mu inside a read of ns.mu.  Exactly which sets of goroutines can deadlock because of
    that. */
module ScrapeDeadlock {
  import opened MapSums
  import opened MountProtocol
  import opened LockOrder

  /** A scrape that finds a mount whose directory it can read, and so looks the mount up while it holds its read lock. */
  ghost predicate IsScrape(prog: seq<Op>) {
    exists n: nat :: n > 0 && prog == ScrapeProgram(n)
  }

  /** A publish that stores its mount, or an unpublish that deletes one. */
  ghost predicate Writes(prog: seq<Op>) {
    || (exists c: Call :: c.Publish? && Stores(c) && prog == PublishProgram(c, true))
    || (exists c: Call, found: bool, n: nat :: c.Unpublish? && c.cleaned && prog == UnpublishProgram(c, true, found, n))
  }

  /** Any number of publishes, unpublishes, stats calls and scrapes at their first instruction. */
  ghost predicate DriverSystem(s: System) {
    AllFresh(s) && forall i :: i in s ==> DriverProgram(s[i].prog, true)
  }

  // ---- the programs that write ns.mu ----

  lemma PublishWrites(c: Call, acquired: bool)
    requires c.Publish?
    ensures Lock(NsMu) in PublishProgram(c, acquired) <==> acquired && Stores(c)
  {
    var tail := if c.mounted then WriteSection(NsMu) else if c.sections != map[] then WriteSection(ConfigMu) else [];
    var created := if !c.load.Loaded? then [] else [Work] + tail;
    var loaded := if !c.prepared then [] else WriteSection(ConfigMu) + created;
    assert Lock(NsMu) in tail <==> c.mounted;
    assert Lock(NsMu) in created <==> c.load.Loaded? && c.mounted;
    assert Lock(NsMu) in loaded <==> Stores(c);
    assert PublishProgram(c, acquired) == WriteSection(VolumeMux) + (if !acquired then [] else [Work] + loaded + WriteSection(VolumeMux));
    hide PublishProgram;
  }

  lemma UnpublishWrites(c: Call, acquired: bool, found: bool, remotes: nat)
    requires c.Unpublish?
    ensures Lock(NsMu) in UnpublishProgram(c, acquired, found, remotes) <==> acquired && c.cleaned
  {
    var drop := if remotes > 0 then WriteSection(ConfigMu) else [];
    var torn := if found then [Work] + drop else [];
    var del := if c.cleaned then WriteSection(NsMu) else [];
    assert Lock(NsMu) !in torn && (Lock(NsMu) in del <==> c.cleaned);
    assert UnpublishProgram(c, acquired, found, remotes)
        == WriteSection(VolumeMux) + (if !acquired then [] else ReadSection(NsMu) + torn + [Work] + del + WriteSection(VolumeMux));
    hide UnpublishProgram;
  }

  lemma {:induction false} HealthsRead(n: nat)
    ensures forall op :: op in Healths(n) ==> op == RLock(NsMu) || op == Work || op == RUnlock(NsMu)
  {
    if n > 0 { HealthsRead(n - 1); }
  }

  /** A scrape does nothing to any other mutex, and writes none. */
  lemma ScrapeReads(n: nat)
    ensures forall op :: op in ScrapeProgram(n) ==> op == RLock(NsMu) || op == Work || op == RUnlock(NsMu)
  {
    HealthsRead(n);
    hide Healths;
  }

  /** The programs that contain a write lock of ns.mu are the storing publishes and the deleting unpublishes. */
  lemma WritersLock(prog: seq<Op>)
    requires DriverProgram(prog, true)
    ensures Lock(NsMu) in prog <==> Writes(prog)
  {
    hide PublishProgram, UnpublishProgram, ScrapeProgram, Stores;
    if c: Call, acquired: bool :| c.Publish? && prog == PublishProgram(c, acquired) {
      PublishWrites(c, acquired);
    } else if c: Call, acquired: bool, found: bool, n: nat :| c.Unpublish? && prog == UnpublishProgram(c, acquired, found, n) {
      UnpublishWrites(c, acquired, found, n);
    } else if n: nat :| prog == ScrapeProgram(n) {
      ScrapeReads(n);
    }
    if c: Call :| c.Publish? && Stores(c) && prog == PublishProgram(c, true) { PublishWrites(c, true); }
    if c: Call, found: bool, n: nat :| c.Unpublish? && c.cleaned && prog == UnpublishProgram(c, true, found, n) {
      UnpublishWrites(c, true, found, n);
    }
  }

  // ---- every deadlock is a scrape behind such a writer ----

  /** What is still to be done was in the program from the start. */
  ghost predicate OpsOf(s: System, t: System) {
    t.Keys == s.Keys && forall i, op :: i in t && op in t[i].prog ==> op in s[i].prog
  }

  lemma {:induction false} RunKeepsOps(states: seq<System>)
    requires IsRun(states)
    ensures OpsOf(states[0], Last(states))
  {
    if |states| > 1 {
      var k := |states| - 2;
      var before := states[..k + 1];
      forall n | 0 <= n < |before| - 1 ensures MovesAt(before, n) {
        assert MovesAt(states, n);
      }
      RunKeepsOps(before);
      assert MovesAt(states, k);
      var i :| Enabled(states[k], i) && states[k + 1] == states[k][i := Advance(states[k][i])];
      assert forall op :: op in Advance(states[k][i]).prog ==> op in states[k][i].prog;
    }
  }

  ghost function Scrapes(s: System): set<Tid> {
    set i | i in s && IsScrape(s[i].prog)
  }

  lemma SystemInOrder(s: System)
    requires DriverSystem(s)
    ensures AllInOrder(s, Scrapes(s)) && Exclusive(s)
  {
    forall i | i in s
      ensures InOrder(s[i], i in Scrapes(s))
    {
      if i in Scrapes(s) {
        ProgramOrdered(s[i].prog, true);
      } else {
        NoNesting(s[i].prog);
      }
      assert HoldsJust(s[i], Nothing);
      hide Ordered, DriverProgram, IsScrape;
    }
  }

  lemma NoNesting(prog: seq<Op>)
    requires DriverProgram(prog, true) && !IsScrape(prog)
    ensures Ordered(prog, Nothing, false)
  {
    hide Ordered, PublishProgram, UnpublishProgram;
    if DriverProgram(prog, false) {
      ProgramOrdered(prog, false);
    } else {
      var n: nat :| prog == ScrapeProgram(n);
      ScrapeOrdered(n);
    }
  }

  /** With scrapes among the goroutines, every deadlock is a scrape that reads ns.mu a second time behind a publish or an
      unpublish that waits to write it. */
  lemma DeadlockIsAScrape(states: seq<System>)
    requires IsRun(states) && DriverSystem(states[0]) && Stuck(Last(states))
    ensures exists i, j :: i in states[0] && j in states[0] && IsScrape(states[0][i].prog) && Writes(states[0][j].prog)
                           && NestedReadBehindWriter(Last(states), i, j, NsMu)
  {
    var s, t := states[0], Last(states);
    SystemInOrder(s);
    RunInOrder(states, Scrapes(s));
    RunExclusive(states);
    RunKeepsOps(states);
    StuckOnlyByNestedRead(t, Scrapes(s));
    hide AllInOrder, Exclusive, IsRun, Stuck, DriverSystem, Writes, IsScrape, OpsOf;
    var i, j, m :| i in Scrapes(s) && NestedReadBehindWriter(t, i, j, m);
    NestedMeans(s, t, i, j, m);
  }

  lemma NestedMeans(s: System, t: System, i: Tid, j: Tid, m: Mutex)
    requires DriverSystem(s) && OpsOf(s, t) && i in Scrapes(s) && NestedReadBehindWriter(t, i, j, m)
    ensures i in s && j in s && IsScrape(s[i].prog) && Writes(s[j].prog) && m == NsMu
  {
    hide DriverProgram, Writes, ScrapeProgram;
    var n: nat :| n > 0 && s[i].prog == ScrapeProgram(n);
    ScrapeReads(n);
    assert RLock(m) in t[i].prog && Lock(m) in t[j].prog;
    WritersLock(s[j].prog);
  }

  // ---- and wherever both are there, they can deadlock ----

  lemma Extend(states: seq<System>, i: Tid)
    requires IsRun(states) && Enabled(Last(states), i)
    ensures var s := Last(states); IsRun(states + [s[i := Advance(s[i])]])
  {
    var s := Last(states);
    var states' := states + [s[i := Advance(s[i])]];
    forall k | 0 <= k < |states'| - 1 ensures MovesAt(states', k) {
      if k < |states| - 1 {
        assert MovesAt(states, k);
        assert states'[k] == states[k] && states'[k + 1] == states[k + 1];
      } else {
        assert states'[k] == s && states'[k + 1] == s[i := Advance(s[i])];
        assert Enabled(states'[k], i);
      }
    }
  }

  ghost predicate Reaches(s: System, s': System) {
    exists states :: IsRun(states) && states[0] == s && Last(states) == s'
  }

  lemma ReachSelf(s: System)
    ensures Reaches(s, s)
  {
    assert IsRun([s]) && [s][0] == s && Last([s]) == s;
  }

  lemma ReachNext(s: System, t: System, i: Tid)
    requires Reaches(s, t) && Enabled(t, i)
    ensures Reaches(s, t[i := Advance(t[i])])
  {
    var states :| IsRun(states) && states[0] == s && Last(states) == t;
    Extend(states, i);
    hide Enabled, Advance, IsRun;
    assert Last(states + [t[i := Advance(t[i])]]) == t[i := Advance(t[i])];
  }

  /** Nobody but goroutine j holds a mutex or waits for one. */
  ghost predicate OthersIdle(t: System, j: Tid) {
    j in t && forall k :: k in t && k != j ==> t[k] == Fresh(t[k].prog)
  }

  /** The first goroutine to move is not stopped by the others. */
  lemma AloneEnabled(t: System, j: Tid)
    requires OthersIdle(t, j) && InOrder(t[j], false) && t[j].prog != []
    ensures Enabled(t, j)
  {
    var h :| HoldsJust(t[j], h) && Ordered(t[j].prog, h, false);
    assert t[j].prog[0].Lock? || t[j].prog[0].RLock? ==> h.Nothing?;
    hide Ordered;
  }

  /** A writer of ns.mu runs alone to the point where it is about to take that lock. */
  lemma {:induction false} RunToLock(s: System, t: System, j: Tid) returns (t': System)
    requires Reaches(s, t) && OthersIdle(t, j) && InOrder(t[j], false)
    requires Lock(NsMu) in t[j].prog && (t[j].waiting ==> t[j].prog[0] != Lock(NsMu))
    ensures Reaches(s, t') && t'.Keys == t.Keys && forall k :: k in t && k != j ==> t'[k] == t[k]
    ensures t'[j].prog != [] && t'[j].prog[0] == Lock(NsMu) && t'[j] == Fresh(t'[j].prog)
    decreases Left(t[j])
  {
    if t[j].prog[0] == Lock(NsMu) {
      t' := t;
    } else {
      AloneEnabled(t, j);
      AdvanceInOrder(t[j], false);
      AdvanceLeft(t[j]);
      ReachNext(s, t, j);
      hide Reaches, Enabled, InOrder;
      t' := RunToLock(s, t[j := Advance(t[j])], j);
    }
  }

  /** The operations and announcements that a goroutine still has before it. */
  function Left(l: Locker): (n: int)
    ensures n >= 0
  {
    2 * |l.prog| + (if l.waiting then 0 else 1)
  }

  lemma AdvanceLeft(l: Locker)
    requires l.prog != []
    ensures Left(Advance(l)) < Left(l)
  {
  }

  /** The scrape waits to read again, behind the writer that it keeps waiting. */
  ghost predicate Locked(t: System, i: Tid, j: Tid) {
    i != j && NestedReadBehindWriter(t, i, j, NsMu)
  }

  lemma LockedStays(t: System, i: Tid, j: Tid)
    requires Locked(t, i, j)
    ensures !Enabled(t, i) && !Enabled(t, j)
  {
    assert Head(t[j]) == Lock(NsMu) && Head(t[i]) == RLock(NsMu);
  }

  ghost function AllLeft(t: System): int {
    Sum(t, Left)
  }

  /** The rest runs on until nobody can step. */
  lemma {:induction false} RunDown(s: System, t: System, i: Tid, j: Tid) returns (t': System)
    requires Reaches(s, t) && Locked(t, i, j)
    ensures Reaches(s, t') && Stuck(t')
    decreases AllLeft(t)
  {
    LockedStays(t, i, j);
    if k :| Enabled(t, k) {
      ReachNext(s, t, k);
      AdvanceLeft(t[k]);
      SumUpdate(t, Left, k, Advance(t[k]));
      var next := t[k := Advance(t[k])];
      SumNotNegative(next, Left);
      assert Locked(next, i, j);
      hide Reaches, Enabled, Left;
      t' := RunDown(s, next, i, j);
    } else {
      t' := t;
    }
  }

  /** The scrape takes its read lock and comes to look a mount up, while nobody holds or wants a mutex. */
  lemma ScrapeReadsFirst(s: System, t: System, i: Tid, n: nat) returns (t': System)
    requires Reaches(s, t) && i in t && n > 0 && t[i] == Fresh(ScrapeProgram(n))
    requires forall k :: k in t ==> t[k] == Fresh(t[k].prog)
    ensures Reaches(s, t') && t'.Keys == t.Keys && forall k :: k in t && k != i ==> t'[k] == t[k]
    ensures t'[i].prog != [] && t'[i].prog[0] == RLock(NsMu) && NsMu in t'[i].readHeld && t'[i].writeHeld == {}
  {
    var h2 := Healths(n) + [RUnlock(NsMu)];
    var h1 := [Work] + h2;
    assert ScrapeProgram(n) == [RLock(NsMu)] + h1 && ScrapeProgram(n)[1..] == h1 && h1[1..] == h2;
    assert h2[0] == RLock(NsMu);
    hide Reaches, Healths, ScrapeProgram;
    assert Enabled(t, i);
    ReachNext(s, t, i);
    var t1 := t[i := Advance(t[i])];
    assert t1[i].prog == h1 && Enabled(t1, i);
    ReachNext(s, t1, i);
    t' := t1[i := Advance(t1[i])];
  }

  /** A scrape and a writer of ns.mu, in any company, can reach a state in which nobody can move. */
  lemma ScrapeCanDeadlock(s: System, i: Tid, j: Tid) returns (t: System)
    requires DriverSystem(s) && i in s && j in s && IsScrape(s[i].prog) && Writes(s[j].prog)
    ensures Reaches(s, t) && Stuck(t)
  {
    var n: nat :| n > 0 && s[i].prog == ScrapeProgram(n);
    WritersLock(s[j].prog);
    ScrapeReads(n);
    WriterOrdered(s[j].prog);
    ReachSelf(s);
    assert HoldsJust(s[j], Nothing);
    hide Reaches, ScrapeProgram, Writes, IsScrape, DriverProgram, Ordered, Stuck;
    var t1 := RunToLock(s, s, j);
    var t2 := ScrapeReadsFirst(s, t1, i, n);
    assert Head(t2[j]) == Lock(NsMu) && !t2[j].waiting && Enabled(t2, j);
    ReachNext(s, t2, j);
    var t3 := t2[j := Advance(t2[j])];
    assert Locked(t3, i, j);
    t := RunDown(s, t3, i, j);
  }

  lemma WriterOrdered(prog: seq<Op>)
    requires Writes(prog)
    ensures Ordered(prog, Nothing, false)
  {
    hide Ordered;
    assert DriverProgram(prog, false) by { hide PublishProgram, UnpublishProgram, Stores; }
    ProgramOrdered(prog, false);
  }

  /** For any set of goroutines of the driver: they can deadlock if and only if one of them is a scrape that finds a
      mount and one of them is a publish that stores its mount or an unpublish that deletes one. */
  lemma DeadlockExactly(s: System)
    requires DriverSystem(s)
    ensures (exists t :: Reaches(s, t) && Stuck(t)) <==>
      (exists i, j :: i in s && j in s && IsScrape(s[i].prog) && Writes(s[j].prog))
  {
    hide DriverSystem, IsScrape, Writes, Stuck;
    if t :| Reaches(s, t) && Stuck(t) {
      var states :| IsRun(states) && states[0] == s && Last(states) == t;
      DeadlockIsAScrape(states);
    }
    if i, j :| i in s && j in s && IsScrape(s[i].prog) && Writes(s[j].prog) {
      var t := ScrapeCanDeadlock(s, i, j);
    }
  }
}

/** Runs of mounts and unmounts over the VFSes in use: which mount shares whose VFS, and so whose context, under the rule
    that the patch removes, and that none does under the patch. */
module VfsRuns {
  import opened VfsCache

  /** A mount is known by its place in the run.  Mount is its vfs.New; Fail its cancellation when the mount function has
      failed, which shuts nothing down; an unpublish makes an Unmount, which shuts the VFS down, and then a Cancel.  A
      retried unpublish makes them again. */
  datatype Event = Mount(kind: Kind) | Fail(mount: nat) | Unmount(mount: nat) | Cancel(mount: nat)

  /** What the driver can do: only a mount that has not failed is unmounted, and only an unmounted one is cancelled. */
  ghost predicate Possible(events: seq<Event>, p: nat)
    requires p < |events|
  {
    match events[p]
    case Mount(_) => true
    case Fail(k) => k < p && events[k].Mount? && Unmount(k) !in events[..p]
    case Unmount(k) => k < p && events[k].Mount? && Fail(k) !in events[..p]
    case Cancel(k) => Unmount(k) in events[..p]
  }

  ghost predicate Legal(events: seq<Event>) {
    forall p :: 0 <= p < |events| ==> Possible(events, p)
  }

  /** The VFSes, and which one each mount has been given. */
  datatype State = State(pool: Pool, vfs: map<nat, nat>)

  function Next(s: State, reuse: bool, e: Event, p: nat): State {
    match e
    case Mount(kind) =>
      var (pool, v) := Acquire(s.pool, reuse, Mounting(p, kind));
      State(pool, s.vfs[p := v])
    case Unmount(k) =>
      if k in s.vfs && s.vfs[k] < |s.pool.made| then s.(pool := Shut(s.pool, s.vfs[k])) else s
    case _ => s
  }

  function After(reuse: bool, events: seq<Event>): State {
    if events == [] then State(Pool([], map[]), map[])
    else
      var n := |events| - 1;
      Next(After(reuse, events[..n]), reuse, events[n], n)
  }

  // ---- what every run keeps ----

  /** Exactly the mounts have a VFS, and it is of their kind. */
  ghost predicate Served(events: seq<Event>, s: State) {
    && (forall k: nat :: k in s.vfs <==> k < |events| && events[k].Mount?)
    && (forall k :: k in s.vfs ==> s.vfs[k] < |s.pool.made| && s.pool.made[s.vfs[k]].kind == events[k].kind)
  }

  /** Each VFS is that of the first mount that was given it. */
  ghost predicate MakersFirst(s: State) {
    && (forall v: nat :: v < |s.pool.made| ==> s.pool.made[v].ctx in s.vfs && s.vfs[s.pool.made[v].ctx] == v)
    && (forall k :: k in s.vfs && s.vfs[k] < |s.pool.made| ==> s.pool.made[s.vfs[k]].ctx <= k)
  }

  ghost predicate InUse(p: Pool, v: nat) {
    v < |p.made| && p.made[v].inUse > 0
  }

  ghost predicate Distinct(list: seq<nat>) {
    forall i, j :: 0 <= i < j < |list| ==> list[i] != list[j]
  }

  /** The active ones are exactly those in use, each once. */
  ghost predicate ActiveExactly(p: Pool) {
    && (forall name, v: nat :: v in Under(p.active, name) <==> InUse(p, v) && p.made[v].kind.configName == name)
    && (forall name :: Distinct(Under(p.active, name)))
  }

  /** Under the old rule no two VFSes of a kind are in use. */
  ghost predicate OneOfAKind(p: Pool) {
    forall v: nat, w: nat :: InUse(p, v) && InUse(p, w) && p.made[v].kind == p.made[w].kind ==> v == w
  }

  ghost predicate Inv(reuse: bool, events: seq<Event>, s: State) {
    Served(events, s) && MakersFirst(s) && ActiveExactly(s.pool) && (reuse ==> OneOfAKind(s.pool))
  }

  lemma {:induction false} WithoutOnce(list: seq<nat>, v: nat)
    requires Distinct(list)
    ensures Distinct(Without(list, v)) && forall x :: x in Without(list, v) <==> x in list && x != v
  {
    if list != [] {
      var rest := list[1..];
      assert list == [list[0]] + rest && list[0] !in rest;
      WithoutOnce(rest, v);
      DistinctCons(list[0], Without(rest, v));
    }
  }

  lemma DistinctCons(x: nat, list: seq<nat>)
    requires Distinct(list) && x !in list
    ensures Distinct([x] + list)
  {
    var all := [x] + list;
    forall i, j | 0 <= i < j < |all| ensures all[i] != all[j] { assert all[j] == list[j - 1] && (i > 0 ==> all[i] == list[i - 1]); }
  }

  lemma ShutKeeps(p: Pool, v: nat)
    requires ActiveExactly(p) && v < |p.made|
    ensures ActiveExactly(Shut(p, v)) && (OneOfAKind(p) ==> OneOfAKind(Shut(p, v)))
    ensures forall w: nat :: InUse(Shut(p, v), w) ==> InUse(p, w)
  {
    var p', name := Shut(p, v), p.made[v].kind.configName;
    var list := Under(p.active, name);
    WithoutOnce(list, v);
    forall n ensures Distinct(Under(p'.active, n)) { assert Distinct(Under(p.active, n)); }
    hide Distinct;
    forall n: string, w: nat
      ensures w in Under(p'.active, n) <==> InUse(p', w) && p'.made[w].kind.configName == n
    {
      assert w in Under(p.active, n) <==> InUse(p, w) && p.made[w].kind.configName == n;
    }
  }

  /** vfs.New gives out the VFS v: a new one, or one that is in use; the others stay as they are. */
  ghost predicate GivesOut(p: Pool, p': Pool, v: nat, m: Mounting) {
    && (forall w: nat :: w < |p.made| && w != v ==> w < |p'.made| && p'.made[w] == p.made[w])
    && if v < |p.made| then
         |p'.made| == |p.made| && InUse(p, v) && p.made[v].kind == m.kind
         && p'.made[v] == p.made[v].(inUse := p.made[v].inUse + 1)
       else
         v == |p.made| && |p'.made| == v + 1 && p'.made[v] == Made(m.ctx, m.kind, 1)
  }

  lemma AcquireKeeps(p: Pool, reuse: bool, m: Mounting)
    requires ActiveExactly(p)
    ensures var (p', v) := Acquire(p, reuse, m);
      GivesOut(p, p', v, m) && ActiveExactly(p') && (reuse && OneOfAKind(p) ==> OneOfAKind(p'))
      && (v < |p.made| ==> reuse) && (v == |p.made| && reuse ==> forall w: nat :: InUse(p, w) ==> p.made[w].kind != m.kind)
  {
    var list := Under(p.active, m.kind.configName);
    var i := Search(p, list, m.kind.options);
    if reuse && i < |list| {
      assert HasOptions(p, list[i], m.kind.options) && list[i] in list;
      assert InUse(p, list[i]);
      OneMore(p, list[i]);
    } else {
      CreateKeeps(p, m);
      if reuse { NoneAlike(p, m); }
    }
  }

  lemma OneMore(p: Pool, v: nat)
    requires ActiveExactly(p) && InUse(p, v)
    ensures var p' := p.(made := p.made[v := p.made[v].(inUse := p.made[v].inUse + 1)]);
            ActiveExactly(p') && (OneOfAKind(p) ==> OneOfAKind(p'))
  {
    var p' := p.(made := p.made[v := p.made[v].(inUse := p.made[v].inUse + 1)]);
    forall n: string, w: nat
      ensures w in Under(p'.active, n) <==> InUse(p', w) && p'.made[w].kind.configName == n
    {
      assert w in Under(p.active, n) <==> InUse(p, w) && p.made[w].kind.configName == n;
    }
    assert forall w: nat :: InUse(p', w) <==> InUse(p, w);
  }

  lemma CreateKeeps(p: Pool, m: Mounting)
    requires ActiveExactly(p)
    ensures ActiveExactly(Create(p, m))
  {
    var p', name := Create(p, m), m.kind.configName;
    forall n
      ensures Distinct(Under(p'.active, n))
    {
      assert Distinct(Under(p.active, n));
      assert |p.made| in Under(p.active, n) ==> InUse(p, |p.made|);
    }
    hide Distinct;
    forall n: string, w: nat
      ensures w in Under(p'.active, n) <==> InUse(p', w) && p'.made[w].kind.configName == n
    {
      assert w in Under(p.active, n) <==> InUse(p, w) && p.made[w].kind.configName == n;
    }
  }

  lemma NoneAlike(p: Pool, m: Mounting)
    requires ActiveExactly(p) && Search(p, Under(p.active, m.kind.configName), m.kind.options) == |Under(p.active, m.kind.configName)|
    ensures forall w: nat :: InUse(p, w) ==> p.made[w].kind != m.kind
  {
    var list := Under(p.active, m.kind.configName);
    forall w: nat | InUse(p, w)
      ensures p.made[w].kind != m.kind
    {
      assert forall i :: 0 <= i < |list| ==> !HasOptions(p, list[i], m.kind.options);
      assert p.made[w].kind.configName == m.kind.configName ==> w in list;
    }
  }

  lemma MountInv(reuse: bool, before: seq<Event>, s: State, kind: Kind)
    requires Inv(reuse, before, s)
    ensures Inv(reuse, before + [Mount(kind)], Next(s, reuse, Mount(kind), |before|))
  {
    hide Acquire, ActiveExactly, OneOfAKind, MakersFirst, InUse, Served, GivesOut;
    var m := Mounting(|before|, kind);
    AcquireKeeps(s.pool, reuse, m);
    var (p', v) := Acquire(s.pool, reuse, m);
    MakersStay(before, s, p', v, m);
    ServedStay(before, s, p', v, m);
  }

  lemma ServedStay(before: seq<Event>, s: State, p': Pool, v: nat, m: Mounting)
    requires Served(before, s) && GivesOut(s.pool, p', v, m) && m.ctx == |before|
    ensures Served(before + [Mount(m.kind)], State(p', s.vfs[m.ctx := v]))
  {
    hide InUse;
  }

  lemma MakersStay(before: seq<Event>, s: State, p': Pool, v: nat, m: Mounting)
    requires Served(before, s) && MakersFirst(s) && GivesOut(s.pool, p', v, m) && m.ctx == |before|
    ensures MakersFirst(State(p', s.vfs[m.ctx := v]))
  {
    hide InUse;
  }

  lemma UnmountInv(reuse: bool, before: seq<Event>, s: State, k: nat)
    requires Inv(reuse, before, s)
    ensures Inv(reuse, before + [Unmount(k)], Next(s, reuse, Unmount(k), |before|))
  {
    if k in s.vfs { ShutKeeps(s.pool, s.vfs[k]); }
    hide ActiveExactly, OneOfAKind;
  }

  lemma {:induction false} AfterInv(reuse: bool, events: seq<Event>)
    ensures Inv(reuse, events, After(reuse, events))
  {
    if events != [] {
      var n := |events| - 1;
      var before, s := events[..n], After(reuse, events[..n]);
      AfterInv(reuse, before);
      assert events == before + [events[n]];
      match events[n]
      case Mount(kind) => MountInv(reuse, before, s, kind);
      case Unmount(k) => UnmountInv(reuse, before, s, k);
      case _ =>
    }
  }

  // ---- from one state to a later one ----

  /** VFSes stay what they are and stay with their mounts, and one that is out of use stays so. */
  ghost predicate Later(s: State, t: State) {
    && |s.pool.made| <= |t.pool.made|
    && (forall k :: k in s.vfs ==> k in t.vfs && t.vfs[k] == s.vfs[k])
    && (forall v: nat :: v < |s.pool.made| ==>
          && t.pool.made[v].ctx == s.pool.made[v].ctx && t.pool.made[v].kind == s.pool.made[v].kind
          && (InUse(t.pool, v) ==> InUse(s.pool, v)))
  }

  lemma NextLater(reuse: bool, before: seq<Event>, s: State, e: Event)
    requires Inv(reuse, before, s)
    ensures Later(s, Next(s, reuse, e, |before|))
  {
    hide Acquire, ActiveExactly, OneOfAKind;
    match e
    case Mount(kind) => AcquireKeeps(s.pool, reuse, Mounting(|before|, kind));
    case Unmount(k) => if k in s.vfs { ShutKeeps(s.pool, s.vfs[k]); }
    case _ =>
  }

  lemma LaterTwice(s: State, t: State, u: State)
    requires Later(s, t) && Later(t, u)
    ensures Later(s, u)
  {
    hide InUse;
  }

  lemma AfterOne(reuse: bool, events: seq<Event>, p: nat)
    requires p < |events|
    ensures After(reuse, events[..p + 1]) == Next(After(reuse, events[..p]), reuse, events[p], p)
    ensures Later(After(reuse, events[..p]), After(reuse, events[..p + 1]))
  {
    assert events[..p + 1][..p] == events[..p];
    AfterInv(reuse, events[..p]);
    NextLater(reuse, events[..p], After(reuse, events[..p]), events[p]);
    hide Next, Inv, Later;
  }

  lemma {:induction false} AfterLater(reuse: bool, events: seq<Event>, p: nat)
    requires p <= |events|
    ensures Later(After(reuse, events[..p]), After(reuse, events))
    decreases |events| - p
  {
    hide Later, After, Next;
    if p == |events| {
      assert events[..p] == events;
      LaterSelf(After(reuse, events));
    } else {
      AfterOne(reuse, events, p);
      AfterLater(reuse, events, p + 1);
      LaterTwice(After(reuse, events[..p]), After(reuse, events[..p + 1]), After(reuse, events));
    }
  }

  lemma LaterSelf(s: State)
    ensures Later(s, s)
  {
  }

  // ---- whose VFS a mount has ----

  ghost predicate Alike(events: seq<Event>, j: nat, k: nat) {
    j < |events| && k < |events| && events[j].Mount? && events[j] == events[k]
  }

  /** The VFS of mount k was made for mount c: k runs on the context of c. */
  ghost predicate RunsOn(reuse: bool, events: seq<Event>, k: nat, c: nat) {
    var s := After(reuse, events);
    k in s.vfs && s.vfs[k] < |s.pool.made| && s.pool.made[s.vfs[k]].ctx == c
  }

  ghost predicate VfsInUse(reuse: bool, events: seq<Event>, k: nat) {
    var s := After(reuse, events);
    k in s.vfs && InUse(s.pool, s.vfs[k])
  }

  /** Mount k finds no VFS of a mount like it in use. */
  ghost predicate Idle(events: seq<Event>, k: nat) {
    k < |events| && forall j: nat :: j < k && Alike(events, j, k) ==> !VfsInUse(true, events[..k], j)
  }

  /** What mount k is given. */
  lemma Given(reuse: bool, events: seq<Event>, k: nat) returns (s: State, v: nat)
    requires k < |events| && events[k].Mount?
    ensures s == After(reuse, events[..k]) && Inv(reuse, events[..k], s)
    ensures k in After(reuse, events).vfs && After(reuse, events).vfs[k] == v
    ensures v <= |s.pool.made| < |After(reuse, events).pool.made| + 1 && (v < |s.pool.made| ==> reuse && InUse(s.pool, v))
    ensures v < |After(reuse, events).pool.made| && After(reuse, events).pool.made[v].kind == events[k].kind
    ensures v < |s.pool.made| ==> s.pool.made[v].kind == events[k].kind
    ensures After(reuse, events).pool.made[v].ctx == if v < |s.pool.made| then s.pool.made[v].ctx else k
    ensures v == |s.pool.made| && reuse ==> forall w: nat :: InUse(s.pool, w) ==> s.pool.made[w].kind != events[k].kind
  {
    s := After(reuse, events[..k]);
    AfterInv(reuse, events[..k]);
    var m := Mounting(k, events[k].kind);
    AcquireKeeps(s.pool, reuse, m);
    v := Acquire(s.pool, reuse, m).1;
    hide Acquire, ActiveExactly, OneOfAKind, Served, MakersFirst, After, InUse;
    AfterOne(reuse, events, k);
    AfterLater(reuse, events, k + 1);
  }

  /** Under the old rule a mount has its own VFS if and only if no VFS of a mount like it is in use when it mounts. */
  lemma OwnVfsExactly(events: seq<Event>, k: nat)
    requires k < |events| && events[k].Mount?
    ensures RunsOn(true, events, k, k) <==> Idle(events, k)
  {
    hide After, ActiveExactly, OneOfAKind, InUse, Idle;
    var s, v := Given(true, events, k);
    if v < |s.pool.made| {
      var c := s.pool.made[v].ctx;
      assert c in s.vfs && s.vfs[c] == v;
      SharedNotIdle(events, k, s, c);
    } else {
      NoneInUse(events, k, s);
    }
  }

  lemma SharedNotIdle(events: seq<Event>, k: nat, s: State, c: nat)
    requires k < |events| && events[k].Mount? && s == After(true, events[..k]) && Served(events[..k], s)
    requires c in s.vfs && s.pool.made[s.vfs[c]].kind == events[k].kind && InUse(s.pool, s.vfs[c])
    ensures c < k && !Idle(events, k)
  {
    hide After, InUse;
    assert Alike(events, c, k) && VfsInUse(true, events[..k], c);
  }

  lemma NoneInUse(events: seq<Event>, k: nat, s: State)
    requires k < |events| && events[k].Mount? && s == After(true, events[..k]) && Served(events[..k], s)
    requires forall w: nat :: InUse(s.pool, w) ==> s.pool.made[w].kind != events[k].kind
    ensures Idle(events, k)
  {
    hide After, InUse;
    forall j: nat | j < k && Alike(events, j, k)
      ensures !VfsInUse(true, events[..k], j)
    {
      assert j in s.vfs ==> s.pool.made[s.vfs[j]].kind == events[k].kind;
    }
  }

  /** c is the last mount like k, up to k, that found no VFS alike in use. */
  ghost predicate LastIdle(events: seq<Event>, c: nat, k: nat) {
    && c <= k && Alike(events, c, k) && Idle(events, c)
    && forall p: nat :: c < p <= k && Alike(events, p, k) ==> !Idle(events, p)
  }

  /** A mount runs on the context of the last mount like it that found no VFS alike in use. */
  lemma MakerExactly(events: seq<Event>, k: nat, c: nat)
    requires k < |events| && events[k].Mount?
    ensures RunsOn(true, events, k, c) <==> LastIdle(events, c, k)
  {
    var s := After(true, events);
    AfterInv(true, events);
    hide After, ActiveExactly, OneOfAKind, Idle;
    assert k in s.vfs;
    var maker := s.pool.made[s.vfs[k]].ctx;
    MakerIsLast(events, k, maker);
    hide RunsOn;
  }

  lemma MakerIsLast(events: seq<Event>, k: nat, c: nat)
    requires k < |events| && events[k].Mount? && RunsOn(true, events, k, c)
    ensures LastIdle(events, c, k)
  {
    var t := After(true, events);
    AfterInv(true, events);
    assert Served(events, t) && MakersFirst(t);
    assert c <= k && Alike(events, c, k) && RunsOn(true, events, c, c);
    OwnVfsExactly(events, c);
    hide After, ActiveExactly, OneOfAKind, RunsOn, VfsInUse;
    forall p: nat | c < p <= k && Alike(events, p, k)
      ensures !Idle(events, p)
    {
      StillInUse(events, k, c, p);
      assert Alike(events, c, p);
    }
  }

  /** From mount c to mount k the VFS that they share is in use. */
  lemma StillInUse(events: seq<Event>, k: nat, c: nat, p: nat)
    requires k < |events| && events[k].Mount? && c < |events| && events[c].Mount? && RunsOn(true, events, k, c) && c < p <= k
    ensures VfsInUse(true, events[..p], c)
  {
    hide After, ActiveExactly, OneOfAKind, InUse;
    var s, v := Given(true, events, k);
    assert v < |s.pool.made| && s.pool.made[v].ctx == c && s.vfs[c] == v;
    hide RunsOn, Next;
    var t := After(true, events[..p]);
    AfterInv(true, events[..p]);
    assert events[..k][..p] == events[..p];
    AfterLater(true, events[..k], p);
    WasInUse(events[..p], t, s, c);
  }

  lemma WasInUse(events: seq<Event>, s: State, t: State, c: nat)
    requires Served(events, s) && Later(s, t) && c < |events| && events[c].Mount?
    requires c in t.vfs && InUse(t.pool, t.vfs[c])
    ensures c in s.vfs && InUse(s.pool, s.vfs[c])
  {
    hide InUse;
  }

  // ---- on whose context a mount runs ----

  ghost predicate Cancelled(events: seq<Event>, c: nat) {
    Fail(c) in events || Cancel(c) in events
  }

  /** The mount has neither failed nor been unmounted. */
  ghost predicate Live(events: seq<Event>, k: nat) {
    k < |events| && events[k].Mount? && Fail(k) !in events && Unmount(k) !in events
  }

  ghost predicate OnCancelled(reuse: bool, events: seq<Event>, k: nat) {
    exists c: nat :: RunsOn(reuse, events, k, c) && Cancelled(events, c)
  }

  lemma LiveNotCancelled(events: seq<Event>, k: nat)
    requires Legal(events) && Live(events, k)
    ensures !Cancelled(events, k)
  {
    forall p | 0 <= p < |events|
      ensures events[p] != Cancel(k)
    {
      assert Possible(events, p);
      assert Unmount(k) in events[..p] ==> Unmount(k) in events;
    }
  }

  /** Under the old rule a live mount runs on a cancelled context if and only if the mount that its VFS was made for, the
      last one like it that found no VFS alike in use, is an earlier one that has failed or been unpublished. */
  lemma BrokenExactly(events: seq<Event>, k: nat)
    requires Legal(events) && Live(events, k)
    ensures OnCancelled(true, events, k) <==> exists c: nat :: c < k && LastIdle(events, c, k) && Cancelled(events, c)
  {
    LiveNotCancelled(events, k);
    hide Cancelled, RunsOn, LastIdle, Legal;
    if OnCancelled(true, events, k) {
      var c: nat :| RunsOn(true, events, k, c) && Cancelled(events, c);
      MakerExactly(events, k, c);
      assert c <= k by { assert LastIdle(events, c, k); LastNotAfter(events, c, k); }
    }
    if c: nat :| c < k && LastIdle(events, c, k) && Cancelled(events, c) { MakerExactly(events, k, c); }
  }

  lemma LastNotAfter(events: seq<Event>, c: nat, k: nat)
    requires LastIdle(events, c, k)
    ensures c <= k
  {
  }

  // ---- the count of users ----

  /** The mounts that were given the VFS. */
  ghost function GivenTo(s: State, v: nat): set<nat> {
    set k | k in s.vfs && s.vfs[k] == v
  }

  /** The unmounts of these, by their place in the run. */
  ghost function UnmountsOf(events: seq<Event>, s: State, v: nat): set<nat> {
    set q: nat | q < |events| && events[q].Unmount? && events[q].mount in s.vfs && s.vfs[events[q].mount] == v
  }

  ghost predicate Counted(events: seq<Event>, s: State, v: nat) {
    v < |s.pool.made| ==> s.pool.made[v].inUse == |GivenTo(s, v)| - |UnmountsOf(events, s, v)|
  }

  /** The count of users is the number of mounts that were given the VFS less the number of their unmounts, repeated ones
      included. */
  lemma {:induction false} UsersCounted(reuse: bool, events: seq<Event>, v: nat)
    requires Legal(events) && v < |After(reuse, events).pool.made|
    ensures Counted(events, After(reuse, events), v)
  {
    assert events != [];
    var n := |events| - 1;
    var before := events[..n];
    assert events == before + [events[n]];
    LegalBefore(events);
    AfterInv(reuse, before);
    assert Possible(events, n);
    var s := After(reuse, before);
    hide After, Acquire, Legal, ActiveExactly, OneOfAKind, MakersFirst;
    if v < |s.pool.made| { UsersCounted(reuse, before, v); }
    match events[n]
    case Mount(kind) =>
      AcquireKeeps(s.pool, reuse, Mounting(n, kind));
      var (p', u) := Acquire(s.pool, reuse, Mounting(n, kind));
      UnmountsKnown(before);
      CountMount(before, s, p', u, Mounting(n, kind), v);
    case Unmount(k) => CountUnmount(before, s, k, v);
    case _ => assert UnmountsOf(events, s, v) == UnmountsOf(before, s, v);
  }

  lemma UnmountsKnown(events: seq<Event>)
    requires Legal(events)
    ensures forall q: nat :: q < |events| && events[q].Unmount? ==> events[q].mount < |events|
  {
    forall q: nat | q < |events| && events[q].Unmount? ensures events[q].mount < |events| { assert Possible(events, q); }
  }

  lemma CountMount(before: seq<Event>, s: State, p': Pool, u: nat, m: Mounting, v: nat)
    requires Served(before, s) && GivesOut(s.pool, p', u, m) && m.ctx == |before| && Counted(before, s, v)
    requires forall q: nat :: q < |before| && before[q].Unmount? ==> before[q].mount < |before|
    ensures Counted(before + [Mount(m.kind)], State(p', s.vfs[m.ctx := u]), v)
  {
    var t := State(p', s.vfs[m.ctx := u]);
    SameUnmounts(before, s, t, m, v);
    GivenOneMore(before, s, t, m, u, v);
    if u == v == |s.pool.made| { NothingYet(before, s, v); }
    hide InUse, Served, GivenTo, UnmountsOf;
  }

  lemma SameUnmounts(before: seq<Event>, s: State, t: State, m: Mounting, v: nat)
    requires m.ctx == |before| && t.vfs.Keys == s.vfs.Keys + {m.ctx} && forall k :: k in s.vfs ==> t.vfs[k] == s.vfs[k]
    requires forall q: nat :: q < |before| && before[q].Unmount? ==> before[q].mount < |before|
    ensures UnmountsOf(before + [Mount(m.kind)], t, v) == UnmountsOf(before, s, v)
  {
    var all := before + [Mount(m.kind)];
    assert forall q: nat :: q < |all| && all[q].Unmount? ==> q < |before| && all[q] == before[q];
  }

  lemma GivenOneMore(before: seq<Event>, s: State, t: State, m: Mounting, u: nat, v: nat)
    requires Served(before, s) && t.vfs == s.vfs[m.ctx := u] && m.ctx == |before|
    ensures GivenTo(t, v) == if u == v then GivenTo(s, v) + {m.ctx} else GivenTo(s, v)
    ensures m.ctx !in GivenTo(s, v)
  {
    assert m.ctx !in s.vfs;
  }

  lemma NothingYet(before: seq<Event>, s: State, v: nat)
    requires Served(before, s) && v == |s.pool.made|
    ensures GivenTo(s, v) == {} && UnmountsOf(before, s, v) == {}
  {
  }

  lemma CountUnmount(before: seq<Event>, s: State, k: nat, v: nat)
    requires Served(before, s) && k in s.vfs && Counted(before, s, v)
    ensures Counted(before + [Unmount(k)], s.(pool := Shut(s.pool, s.vfs[k])), v)
  {
    var t := s.(pool := Shut(s.pool, s.vfs[k]));
    assert GivenTo(t, v) == GivenTo(s, v);
    var unmounts := UnmountsOf(before, s, v);
    assert |before| !in unmounts;
    assert UnmountsOf(before + [Unmount(k)], t, v) == if s.vfs[k] == v then unmounts + {|before|} else unmounts;
  }

  lemma LegalBefore(events: seq<Event>)
    requires Legal(events) && events != []
    ensures Legal(events[..|events| - 1])
  {
    var before := events[..|events| - 1];
    forall p | 0 <= p < |before|
      ensures Possible(before, p)
    {
      assert Possible(events, p) && before[..p] == events[..p];
    }
  }

  // ---- when no mount is unmounted twice ----

  ghost predicate Once(events: seq<Event>) {
    forall p, q :: 0 <= p < q < |events| && events[p].Unmount? ==> events[p] != events[q]
  }

  /** Then a VFS is in use exactly as long as one of its mounts has not been unmounted. */
  lemma OnceInUse(reuse: bool, events: seq<Event>, v: nat)
    requires Legal(events) && Once(events) && v < |After(reuse, events).pool.made|
    ensures var s := After(reuse, events);
            InUse(s.pool, v) <==> exists k: nat :: k in s.vfs && s.vfs[k] == v && Unmount(k) !in events
  {
    var s := After(reuse, events);
    UsersCounted(reuse, events, v);
    hide After, Legal;
    var unmounted := UnmountedOf(events, s, v);
    SameSize(events, UnmountsOf(events, s, v), unmounted);
    Remaining(GivenTo(s, v), unmounted);
  }

  ghost function UnmountedOf(events: seq<Event>, s: State, v: nat): set<nat> {
    set k | k in s.vfs && s.vfs[k] == v && Unmount(k) in events
  }

  lemma Remaining(all: set<nat>, some: set<nat>)
    requires some <= all
    ensures |all| - |some| == |all - some| && (|all| > |some| <==> exists k :: k in all && k !in some)
  {
    assert all == some + (all - some);
    if k :| k in all && k !in some { assert k in all - some; }
    if all - some != {} { var k :| k in all - some; }
  }

  /** Each unmount is of another mount. */
  lemma {:induction false} SameSize(events: seq<Event>, places: set<nat>, mounts: set<nat>)
    requires Once(events) && forall q :: q in places ==> q < |events| && events[q].Unmount? && events[q].mount in mounts
    requires forall k :: k in mounts ==> exists q: nat :: q in places && events[q] == Unmount(k)
    ensures |places| == |mounts|
    decreases |places|
  {
    if places == {} {
      assert mounts == {};
    } else {
      var q :| q in places;
      var k := events[q].mount;
      forall x | x in mounts - {k}
        ensures exists p: nat :: p in places - {q} && events[p] == Unmount(x)
      {
        var p: nat :| p in places && events[p] == Unmount(x);
        assert p in places - {q};
      }
      SameSize(events, places - {q}, mounts - {k});
    }
  }

  lemma PrefixLegal(events: seq<Event>, n: nat)
    requires n <= |events|
    ensures Legal(events) ==> Legal(events[..n])
    ensures Once(events) ==> Once(events[..n])
  {
    if Legal(events) {
      forall p | 0 <= p < n
        ensures Possible(events[..n], p)
      {
        assert Possible(events, p) && events[..n][..p] == events[..p];
      }
    }
  }

  /** Then a mount finds no VFS of its kind in use, and so has its own, if and only if every earlier mount like it has been
      unmounted.  A failed one never is. */
  lemma OnceIdleExactly(events: seq<Event>, k: nat)
    requires Legal(events) && Once(events) && k < |events| && events[k].Mount?
    ensures Idle(events, k) <==> forall j: nat :: j < k && Alike(events, j, k) ==> Unmount(j) in events[..k]
  {
    hide VfsInUse;
    forall j: nat | j < k && Alike(events, j, k)
      ensures VfsInUse(true, events[..k], j) <==> exists i: nat :: SharesUnmounted(events, i, j, k)
      ensures Unmount(j) !in events[..k] ==> SharesUnmounted(events, j, j, k)
    {
      InUseByAnother(events, j, k);
    }
    if Idle(events, k) {
      forall j: nat | j < k && Alike(events, j, k)
        ensures Unmount(j) in events[..k]
      {
        assert !VfsInUse(true, events[..k], j);
      }
    } else {
      var j: nat :| j < k && Alike(events, j, k) && VfsInUse(true, events[..k], j);
      var i: nat :| SharesUnmounted(events, i, j, k);
    }
  }

  /** Up to k mount i has the same VFS as mount j and has not been unmounted. */
  ghost predicate SharesUnmounted(events: seq<Event>, i: nat, j: nat, k: nat)
    requires k < |events|
  {
    var s := After(true, events[..k]);
    i < k && Alike(events, i, k) && i in s.vfs && j in s.vfs && s.vfs[i] == s.vfs[j] && Unmount(i) !in events[..k]
  }

  lemma InUseByAnother(events: seq<Event>, j: nat, k: nat)
    requires Legal(events) && Once(events) && k < |events| && j < k && Alike(events, j, k)
    ensures VfsInUse(true, events[..k], j) <==> exists i: nat :: SharesUnmounted(events, i, j, k)
    ensures Unmount(j) !in events[..k] ==> SharesUnmounted(events, j, j, k)
  {
    var before := events[..k];
    PrefixLegal(events, k);
    AfterInv(true, before);
    var s := After(true, before);
    hide After, ActiveExactly, OneOfAKind, Legal, Once, InUse, MakersFirst;
    assert before[j] == events[j] && j in s.vfs;
    OnceInUse(true, before, s.vfs[j]);
    forall i: nat | i in s.vfs && s.vfs[i] == s.vfs[j]
      ensures i < k && Alike(events, i, k)
    {
      assert before[i] == events[i];
    }
    if i: nat :| i in s.vfs && s.vfs[i] == s.vfs[j] && Unmount(i) !in before { assert SharesUnmounted(events, i, j, k); }
  }

  /** When no mount is unmounted twice, a live mount's VFS is in use. */
  lemma OnceLiveInUse(reuse: bool, events: seq<Event>, k: nat)
    requires Legal(events) && Once(events) && Live(events, k)
    ensures VfsInUse(reuse, events, k)
  {
    AfterInv(reuse, events);
    var s := After(reuse, events);
    hide After, ActiveExactly, OneOfAKind, Legal, Once;
    assert k in s.vfs;
    OnceInUse(reuse, events, s.vfs[k]);
  }

  function RetryRun(kind: Kind): seq<Event> {
    [Mount(kind), Mount(kind), Unmount(0), Cancel(0), Unmount(0), Cancel(0)]
  }

  lemma RetryLegal(kind: Kind)
    ensures Legal(RetryRun(kind)) && Live(RetryRun(kind), 1)
  {
    var events := RetryRun(kind);
    assert events[..3][2] == Unmount(0) && events[..5][2] == Unmount(0);
  }

  lemma RetryShared(kind: Kind)
    ensures RunsOn(true, RetryRun(kind), 1, 0)
  {
    var events := RetryRun(kind);
    RetryLegal(kind);
    PrefixLegal(events, 1);
    assert Once(events[..1]) && Live(events[..1], 0) && Alike(events, 0, 1);
    OnceLiveInUse(true, events[..1], 0);
    hide After, Legal, VfsInUse;
    assert !Idle(events, 1);
    assert Idle(events, 0);
    MakerExactly(events, 1, 0);
  }

  /** Under the old rule an unpublish that is retried shuts down the VFS of another mount. */
  lemma RetryShutsAnother(kind: Kind)
    ensures Legal(RetryRun(kind)) && Live(RetryRun(kind), 1) && !VfsInUse(true, RetryRun(kind), 1)
  {
    var events := RetryRun(kind);
    RetryLegal(kind);
    RetryShared(kind);
    AfterInv(true, events);
    var s := After(true, events);
    hide After, Legal, ActiveExactly, OneOfAKind;
    var v := s.vfs[1];
    assert s.vfs[0] == v && forall k :: k in s.vfs ==> k == 0 || k == 1;
    UsersCounted(true, events, v);
    hide Served, MakersFirst;
    assert GivenTo(s, v) == {0, 1};
    assert UnmountsOf(events, s, v) == {2, 4};
  }

  // ---- under the patch ----

  /** Under the patch every mount has its own VFS, in every run. */
  lemma PatchedOwn(events: seq<Event>, k: nat, c: nat)
    requires k < |events| && events[k].Mount?
    ensures RunsOn(false, events, k, c) <==> c == k
  {
    var s, v := Given(false, events, k);
    hide After;
  }

  /** Under the patch no live mount runs on a cancelled context, and none has its VFS shut down, whatever happens to the
      other mounts and however often. */
  lemma PatchedNeverBroken(events: seq<Event>, k: nat)
    requires Legal(events) && Live(events, k)
    ensures !OnCancelled(false, events, k) && VfsInUse(false, events, k)
  {
    LiveNotCancelled(events, k);
    forall c: nat | RunsOn(false, events, k, c) ensures c == k { PatchedOwn(events, k, c); }
    PatchedAlone(events, k);
    hide Legal, Cancelled, RunsOn;
  }

  lemma PatchedAlone(events: seq<Event>, k: nat)
    requires Legal(events) && Live(events, k)
    ensures VfsInUse(false, events, k)
  {
    AfterInv(false, events);
    var s := After(false, events);
    assert k in s.vfs;
    var v := s.vfs[k];
    UsersCounted(false, events, v);
    forall j | j in s.vfs && s.vfs[j] == v
      ensures j == k
    {
      PatchedOwn(events, j, s.pool.made[v].ctx);
      PatchedOwn(events, k, s.pool.made[v].ctx);
    }
    hide After, ActiveExactly, OneOfAKind, Legal;
    assert GivenTo(s, v) == {k} && UnmountsOf(events, s, v) == {};
  }
}

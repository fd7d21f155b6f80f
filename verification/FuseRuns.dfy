/** All inodes of the bridge together, over whole runs of opens and releases, right and wrong ones. */
module FuseRuns {
  import opened Options
  import opened FuseFiles

  /** `open` has all inodes there have been, `forgotten` those that are not in kernelNodeIds; `pending` are the handles
      between releaseFileEntry and the append to freeFiles in Release or ReleaseDir. */
  datatype Pool = Pool(open: map<nat, seq<Handle>>, forgotten: set<nat>, index: seq<Option<int>>, free: seq<Handle>,
                       pending: set<Handle>)

  /** An inode gets known, or known again; the kernel forgets one; registerFile on an inode; releaseFileEntry with any
      handle whatever on an inode; the end of a Release. */
  datatype Event = Learn(nid: nat) | Forget(nid: nat) | Register(nid: nat) | ReleaseEntry(nid: nat, fh: nat)
                 | Free(handle: Handle)

  predicate Known(p: Pool, nid: nat) {
    nid in p.open && nid !in p.forgotten
  }

  function TableOf(p: Pool, nid: nat): Table
    requires nid in p.open
  {
    Table(p.open[nid], p.index)
  }

  /** The event can happen: the inode is known, a Release ends once, and fewer than 2^32 slots are in use. */
  predicate CanHappen(p: Pool, e: Event) {
    match e
    case Learn(nid) => !Known(p, nid)
    case Forget(nid) => Known(p, nid)
    case Register(nid) => Known(p, nid) && (p.free != [] || |p.index| + 1 < TWO_32)
    case ReleaseEntry(nid, _) => Known(p, nid)
    case Free(fh) => fh in p.pending
  }

  function Released(p: Pool, nid: nat, fh: nat): Pool
    requires nid in p.open
  {
    var t' := Release(TableOf(p, nid), fh);
    p.(open := p.open[nid := t'.open], index := t'.index,
       pending := if Releasable(TableOf(p, nid), fh) then p.pending + {Truncate(fh)} else p.pending)
  }

  function Happen(p: Pool, e: Event): Pool
    requires CanHappen(p, e) && |p.index| < TWO_32 && (forall k :: 0 <= k < |p.free| ==> p.free[k] < |p.index|)
  {
    match e
    case Learn(nid) =>
      p.(open := if nid in p.open then p.open else p.open[nid := []], forgotten := p.forgotten - {nid})
    case Forget(nid) =>
      p.(forgotten := p.forgotten + {nid})
    case Register(nid) =>
      var at := Some(|p.open[nid]|);
      if p.free != [] then
        var last := |p.free| - 1;
        var fh := p.free[last];
        p.(open := p.open[nid := p.open[nid] + [fh]], index := p.index[fh := at], free := p.free[..last])
      else
        p.(open := p.open[nid := p.open[nid] + [|p.index|]], index := p.index + [at])
    case ReleaseEntry(nid, fh) =>
      Released(p, nid, fh)
    case Free(fh) =>
      p.(free := p.free + [fh], pending := p.pending - {fh})
  }

  ghost predicate OpenAt(p: Pool, nid: int, i: int, h: int) {
    nid in p.open && 0 <= i < |p.open[nid]| && p.open[nid][i] == h
  }

  predicate InUse(p: Pool, h: int) {
    0 < h < |p.index|
  }

  /** Every back-pointer of an open handle is right. */
  ghost predicate Backed(p: Pool) {
    |p.index| < TWO_32
    && forall nid, i, h :: OpenAt(p, nid, i, h) ==> InUse(p, h) && p.index[h] == Some(i)
  }

  /** No handle is open twice, free twice, or at once open, free or about to be freed. */
  ghost predicate Apart(p: Pool) {
    && (forall n, m, i, j, h :: OpenAt(p, n, i, h) && OpenAt(p, m, j, h) ==> n == m)
    && (forall i, j :: 0 <= i < j < |p.free| ==> p.free[i] != p.free[j])
    && (forall k :: 0 <= k < |p.free| ==> InUse(p, p.free[k]) && p.free[k] !in p.pending)
    && (forall h :: h in p.pending ==> InUse(p, h))
    && (forall n, i, h :: OpenAt(p, n, i, h) ==> h !in p.free && h !in p.pending)
  }

  ghost predicate Opened(p: Pool, h: int) {
    exists n, i :: OpenAt(p, n, i, h)
  }

  /** Every slot but the first belongs to a handle that is open, free or about to be freed. */
  ghost predicate Accounted(p: Pool) {
    forall h :: InUse(p, h) ==> Opened(p, h) || h in p.free || h in p.pending
  }

  ghost predicate Entries(p: Pool) {
    p.index != [] && forall k :: 0 <= k < |p.index| ==> p.index[k].Some?
  }

  ghost predicate Good(p: Pool) {
    Backed(p) && Apart(p) && Accounted(p) && Entries(p)
  }

  /** In a good pool the linear search is never needed, and only open handles of that very inode are released. */
  lemma GoodRelease(p: Pool, nid: nat, fh: nat)
    requires Backed(p) && Entries(p) && nid in p.open
    ensures Releasable(TableOf(p, nid), fh) <==> fh in p.open[nid]
    ensures Releasable(TableOf(p, nid), fh) ==> PointsBack(TableOf(p, nid), fh) && InUse(p, fh)
    ensures Distinct(p.open[nid]) && AllRight(TableOf(p, nid))
  {
    forall i | 0 <= i < |p.open[nid]| ensures RightAt(TableOf(p, nid), i) && 0 < p.open[nid][i] < |p.index| {
      assert OpenAt(p, nid, i, p.open[nid][i]);
    }
    if fh in p.open[nid] {
      var i :| 0 <= i < |p.open[nid]| && p.open[nid][i] == fh;
    }
  }

  /** What a successful release does: the last handle of the inode takes the place of the released one. */
  ghost predicate TakenOut(p: Pool, p': Pool, nid: nat, fh: nat) {
    && nid in p.open && InUse(p, fh) && p.index[fh].Some? && p.open[nid] != []
    && var at, last := p.index[fh].value, |p.open[nid]| - 1;
       && 0 <= at <= last && p.open[nid][at] == fh
       && p'.open.Keys == p.open.Keys && |p'.open[nid]| == last
       && (forall n :: n in p.open && n != nid ==> p'.open[n] == p.open[n])
       && (forall i :: 0 <= i < last ==> p'.open[nid][i] == p.open[nid][if i == at then last else i])
       && |p'.index| == |p.index|
       && (forall k :: 0 <= k < |p.index| ==>
             p'.index[k] == if at != last && k == p.open[nid][last] then Some(at) else p.index[k])
       && p'.free == p.free && p'.pending == p.pending + {fh}
  }

  lemma ReleaseEffect(p: Pool, nid: nat, fh: nat)
    requires Backed(p) && Entries(p) && nid in p.open && Releasable(TableOf(p, nid), fh)
    ensures TakenOut(p, Released(p, nid, fh), nid, fh)
  {
    GoodRelease(p, nid, fh);
    var t := TableOf(p, nid);
    ReleasePlaces(t, fh);
    var last := |t.open| - 1;
    assert OpenAt(p, nid, last, t.open[last]);
    assert OpenAt(p, nid, Position(t, fh), fh);
    forall k | 0 <= k < |p.index| && k != fh
      ensures Release(t, fh).index[k] == if Position(t, fh) != last && k == t.open[last] then Some(Position(t, fh)) else t.index[k]
    {
      ReleaseIndex(t, fh, k);
    }
    OwnIndex(t, fh);
  }

  lemma OwnIndex(t: Table, fh: nat)
    requires Releasable(t, fh) && PointsBack(t, fh) && Distinct(t.open) && |t.index| < TWO_32
    ensures Release(t, fh).index[fh] == t.index[fh]
  {
  }

  lemma ReleaseGood(p: Pool, nid: nat, fh: nat)
    requires Good(p) && nid in p.open
    ensures Good(Released(p, nid, fh))
  {
    var p' := Released(p, nid, fh);
    if !Releasable(TableOf(p, nid), fh) {
      assert p'.open == p.open;
      assert p' == p;
    } else {
      GoodRelease(p, nid, fh);
      ReleaseEffect(p, nid, fh);
      ReleaseBacked(p, p', nid, fh);
      ReleaseApart(p, p', nid, fh);
      ReleaseAccounted(p, p', nid, fh);
    }
  }

  /** Where an open handle was before the release. */
  lemma WasOpen(p: Pool, p': Pool, nid: nat, fh: nat, n: int, i: int, h: int)
    requires TakenOut(p, p', nid, fh) && OpenAt(p', n, i, h)
    ensures OpenAt(p, n, if n == nid && i == p.index[fh].value then |p.open[nid]| - 1 else i, h)
  {
  }

  lemma ReleaseBacked(p: Pool, p': Pool, nid: nat, fh: nat)
    requires Backed(p) && Apart(p) && Entries(p) && TakenOut(p, p', nid, fh)
    ensures Backed(p') && Entries(p')
  {
    var at, last := p.index[fh].value, |p.open[nid]| - 1;
    assert OpenAt(p, nid, last, p.open[nid][last]);
    forall n, i, h | OpenAt(p', n, i, h)
      ensures InUse(p', h) && p'.index[h] == Some(i)
    {
      WasOpen(p, p', nid, fh, n, i, h);
    }
  }

  lemma ReleaseApart(p: Pool, p': Pool, nid: nat, fh: nat)
    requires Backed(p) && Apart(p) && TakenOut(p, p', nid, fh)
    ensures Apart(p')
  {
    assert OpenAt(p, nid, p.index[fh].value, fh);
    forall n, i, h | OpenAt(p', n, i, h)
      ensures Opened(p, h) && h != fh && h !in p'.free && h !in p'.pending
    {
      WasOpen(p, p', nid, fh, n, i, h);
    }
    forall n, m, i, j, h | OpenAt(p', n, i, h) && OpenAt(p', m, j, h)
      ensures n == m
    {
      WasOpen(p, p', nid, fh, n, i, h);
      WasOpen(p, p', nid, fh, m, j, h);
    }
  }

  lemma ReleaseAccounted(p: Pool, p': Pool, nid: nat, fh: nat)
    requires Accounted(p) && TakenOut(p, p', nid, fh)
    ensures Accounted(p')
  {
    var at, last := p.index[fh].value, |p.open[nid]| - 1;
    forall h | InUse(p', h) && h != fh && Opened(p, h)
      ensures Opened(p', h)
    {
      var n, i :| OpenAt(p, n, i, h);
      assert OpenAt(p', n, if n == nid && i == last then at else i, h);
    }
  }

  /** A handle that is given out was neither open nor about to be freed. */
  lemma RegisterFresh(p: Pool, nid: nat)
    requires Good(p) && CanHappen(p, Register(nid))
    ensures var p' := Happen(p, Register(nid)); var fh := p'.open[nid][|p.open[nid]|];
            && !Opened(p, fh) && fh !in p.pending && fh !in p'.free && InUse(p', fh)
            && p'.open == p.open[nid := p.open[nid] + [fh]] && p'.pending == p.pending
            && p'.index[fh] == Some(|p.open[nid]|) && |p.index| <= |p'.index| < TWO_32
            && (forall k :: 0 <= k < |p.index| && k != fh ==> p'.index[k] == p.index[k])
            && (forall h :: InUse(p', h) && h != fh ==> InUse(p, h))
            && (forall h :: h in p'.free <==> h in p.free && h != fh)
            && (forall i, j :: 0 <= i < j < |p'.free| ==> p'.free[i] != p'.free[j])
  {
    var p' := Happen(p, Register(nid));
    var fh := p'.open[nid][|p.open[nid]|];
    if p.free != [] {
      assert p.free[|p.free| - 1] == fh && fh in p.free;
      assert p.free == p'.free + [fh];
    } else {
      assert !InUse(p, fh);
    }
  }

  lemma RegisterGood(p: Pool, nid: nat)
    requires Good(p) && CanHappen(p, Register(nid))
    ensures Good(Happen(p, Register(nid)))
  {
    var p' := Happen(p, Register(nid));
    var fh := p'.open[nid][|p.open[nid]|];
    RegisterFresh(p, nid);
    hide Happen, CanHappen;
    assert OpenAt(p', nid, |p.open[nid]|, fh);
    forall n, i, h | OpenAt(p', n, i, h)
      ensures (OpenAt(p, n, i, h) && h != fh) || (n == nid && i == |p.open[nid]| && h == fh)
    {
      if OpenAt(p, n, i, h) { assert Opened(p, h); }
    }
    forall h | Opened(p, h) ensures Opened(p', h) {
      var n, i :| OpenAt(p, n, i, h);
      assert OpenAt(p', n, i, h);
    }
    forall k | 0 <= k < |p'.free| ensures InUse(p', p'.free[k]) && p'.free[k] !in p'.pending {
      assert p'.free[k] in p'.free;
    }
    forall k | 0 <= k < |p'.index| ensures p'.index[k].Some? {
      assert k == fh || k == 0 || InUse(p', k);
    }
  }

  lemma FreeGood(p: Pool, fh: Handle)
    requires Good(p) && fh in p.pending
    ensures Good(Happen(p, Free(fh)))
  {
    var p' := Happen(p, Free(fh));
    assert forall n, i, h :: OpenAt(p', n, i, h) <==> OpenAt(p, n, i, h);
    assert forall h :: Opened(p, h) ==> Opened(p', h);
  }

  lemma KnowledgeGood(p: Pool, e: Event)
    requires Good(p) && CanHappen(p, e) && (e.Learn? || e.Forget?)
    ensures Good(Happen(p, e))
  {
    var p' := Happen(p, e);
    assert forall n, i, h :: OpenAt(p', n, i, h) <==> OpenAt(p, n, i, h);
    assert forall h :: Opened(p, h) ==> Opened(p', h);
  }

  /** The bridge as newRawBridge leaves it: the root without open files, and one slot that stands for no handle. */
  const FIRST: Pool := Pool(map[1 := []], {}, [Some(0)], [], {})

  /** A run: every event happens in the pool that the one before left. */
  ghost predicate IsRun(events: seq<Event>, pools: seq<Pool>) {
    && |pools| == |events| + 1 && pools[0] == FIRST
    && forall k {:trigger HappensAt(events, pools, k)} :: 0 <= k < |events| ==> HappensAt(events, pools, k)
  }

  ghost predicate HappensAt(events: seq<Event>, pools: seq<Pool>, k: nat)
    requires k < |events| && |pools| == |events| + 1
  {
    && CanHappen(pools[k], events[k]) && |pools[k].index| < TWO_32
    && (forall i :: 0 <= i < |pools[k].free| ==> pools[k].free[i] < |pools[k].index|)
    && pools[k + 1] == Happen(pools[k], events[k])
  }

  lemma HappenGood(p: Pool, e: Event)
    requires Good(p) && CanHappen(p, e)
    ensures Good(Happen(p, e))
  {
    match e
    case Learn(nid) => KnowledgeGood(p, e);
    case Forget(nid) => KnowledgeGood(p, e);
    case Register(nid) => RegisterGood(p, nid);
    case ReleaseEntry(nid, fh) => ReleaseGood(p, nid, fh);
    case Free(fh) => FreeGood(p, fh);
  }

  /** Main result: whatever handles are released on whatever inodes, in whatever order, no handle is ever open
      twice or given out while it is open, none is lost, and every back-pointer is right. */
  lemma {:induction false} AlwaysGood(events: seq<Event>, pools: seq<Pool>)
    requires IsRun(events, pools)
    ensures Good(pools[|events|])
    decreases |events|
  {
    var n := |events| - 1;
    if events != [] {
      var before, pools' := events[..n], pools[..n + 1];
      forall k | 0 <= k < |before| ensures HappensAt(before, pools', k) {
        assert HappensAt(events, pools, k);
        assert pools'[k] == pools[k] && pools'[k + 1] == pools[k + 1] && before[k] == events[k];
      }
      AlwaysGood(before, pools');
      assert HappensAt(events, pools, n);
      HappenGood(pools[n], events[n]);
    }
  }

  /** In every state of every run a release succeeds exactly for a handle that is open on that very inode, and its
      back-pointer is right: the linear search that the patch adds never runs.  Releasing it again does nothing. */
  lemma ReleaseInRun(events: seq<Event>, pools: seq<Pool>, nid: nat, fh: nat)
    requires IsRun(events, pools) && nid in pools[|events|].open
    ensures var t := TableOf(pools[|events|], nid);
            && (Releasable(t, fh) <==> fh in t.open)
            && (Releasable(t, fh) ==> PointsBack(t, fh))
            && !Releasable(Release(t, fh), fh)
  {
    AlwaysGood(events, pools);
    GoodRelease(pools[|events|], nid, fh);
    SecondReleaseFindsNothing(TableOf(pools[|events|], nid), fh);
  }
}

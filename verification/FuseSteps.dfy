/** Each critical section of the bridge is one event of the runs. */
module FuseSteps {
  import opened Options
  import opened FuseFiles
  import opened FuseBridge
  import opened FuseRuns

  /** The inodes that there have been, by node ID; the bridge knows some of them. */
  ghost predicate Stands(b: RawBridge, inodes: map<nat, Inode>)
    reads b
  {
    && b.Valid()
    && (forall n :: n in b.kernelNodeIds ==> n in inodes && inodes[n] == b.kernelNodeIds[n])
    && (forall m, n :: m in inodes && n in inodes && m != n ==> inodes[m] != inodes[n])
  }

  ghost function PoolOf(b: RawBridge, inodes: map<nat, Inode>, pending: set<Handle>): Pool
    reads b, b.Entries(), inodes.Values
  {
    Pool(map n | n in inodes :: inodes[n].openFiles, inodes.Keys - b.kernelNodeIds.Keys, b.Index(), b.freeFiles, pending)
  }

  /** newRawBridge */
  method New() returns (b: RawBridge, root: Inode)
    ensures Stands(b, map[1 := root]) && PoolOf(b, map[1 := root], {}) == FIRST && Good(FIRST)
  {
    root := new Inode();
    b := new RawBridge(root);
  }

  /** An inode that the bridge has not seen before, or one that it has forgotten. */
  method Learn(b: RawBridge, nid: nat, child: Inode, ghost inodes: map<nat, Inode>, ghost pending: set<Handle>)
    requires Stands(b, inodes) && Good(PoolOf(b, inodes, pending)) && nid !in b.kernelNodeIds
    requires if nid in inodes then inodes[nid] == child else child !in inodes.Values && child.openFiles == []
    modifies b
    ensures Stands(b, inodes[nid := child])
    ensures PoolOf(b, inodes[nid := child], pending) == Happen(old(PoolOf(b, inodes, pending)), FuseRuns.Learn(nid))
    ensures Good(PoolOf(b, inodes[nid := child], pending))
  {
    hide Accounted, OpenAt, Opened, RawBridge.Index, RawBridge.Valid;
    ghost var p := PoolOf(b, inodes, pending);
    KnowledgeGood(p, FuseRuns.Learn(nid));
    hide Good, Backed, Apart;
    b.Learn(nid, child);
    ghost var p' := PoolOf(b, inodes[nid := child], pending);
    assert p'.forgotten == p.forgotten - {nid};
    assert p'.open == if nid in p.open then p.open else p.open[nid := []];
  }

  method Forget(b: RawBridge, nid: nat, ghost inodes: map<nat, Inode>, ghost pending: set<Handle>)
    requires Stands(b, inodes) && Good(PoolOf(b, inodes, pending)) && nid in b.kernelNodeIds
    modifies b
    ensures Stands(b, inodes)
    ensures PoolOf(b, inodes, pending) == Happen(old(PoolOf(b, inodes, pending)), FuseRuns.Forget(nid))
    ensures Good(PoolOf(b, inodes, pending))
  {
    hide Accounted, OpenAt, Opened, RawBridge.Index, RawBridge.Valid;
    ghost var p := PoolOf(b, inodes, pending);
    b.Forget(nid);
    KnowledgeGood(p, FuseRuns.Forget(nid));
  }

  /** The critical section of an open: the handle that it gives out was not open. */
  method Register(b: RawBridge, nid: nat, ghost inodes: map<nat, Inode>, ghost pending: set<Handle>) returns (fh: Handle)
    requires Stands(b, inodes) && Good(PoolOf(b, inodes, pending)) && nid in b.kernelNodeIds
    requires b.freeFiles != [] || |b.files| + 1 < TWO_32
    modifies b, b.kernelNodeIds[nid]
    ensures Stands(b, inodes)
    ensures PoolOf(b, inodes, pending) == Happen(old(PoolOf(b, inodes, pending)), FuseRuns.Register(nid))
    ensures Good(PoolOf(b, inodes, pending)) && !Opened(old(PoolOf(b, inodes, pending)), fh) && fh !in pending
  {
    hide Accounted, OpenAt, Opened;
    ghost var p := PoolOf(b, inodes, pending);
    var fe;
    fe, fh := b.RegisterFile(b.kernelNodeIds[nid]);
    RegisterGood(p, nid);
    RegisterFresh(p, nid);
  }

  /** releaseFileEntry: it succeeds exactly for a handle that is open on the inode. */
  method ReleaseEntry(b: RawBridge, nid: nat, fh: nat, ghost inodes: map<nat, Inode>, ghost pending: set<Handle>)
    returns (released: bool, ghost pending': set<Handle>)
    requires Stands(b, inodes) && Good(PoolOf(b, inodes, pending)) && nid in b.kernelNodeIds
    modifies b.kernelNodeIds[nid], b.Entries()
    ensures Stands(b, inodes) && released == (fh in old(b.kernelNodeIds[nid].openFiles))
    ensures PoolOf(b, inodes, pending') == Happen(old(PoolOf(b, inodes, pending)), FuseRuns.ReleaseEntry(nid, fh))
    ensures Good(PoolOf(b, inodes, pending')) && pending' == if released then pending + {Truncate(fh)} else pending
  {
    hide Accounted, OpenAt, Opened;
    ghost var p := PoolOf(b, inodes, pending);
    GoodRelease(p, nid, fh);
    ReleaseGood(p, nid, fh);
    var n, entry := b.ReleaseFileEntry(nid, fh);
    released := entry != null;
    pending' := if released then pending + {Truncate(fh)} else pending;
  }

  /** The end of a Release. */
  method Free(b: RawBridge, fh: Handle, ghost inodes: map<nat, Inode>, ghost pending: set<Handle>)
    requires Stands(b, inodes) && Good(PoolOf(b, inodes, pending)) && fh in pending
    modifies b
    ensures Stands(b, inodes)
    ensures PoolOf(b, inodes, pending - {fh}) == Happen(old(PoolOf(b, inodes, pending)), FuseRuns.Free(fh))
    ensures Good(PoolOf(b, inodes, pending - {fh}))
  {
    hide Accounted, OpenAt, Opened;
    ghost var p := PoolOf(b, inodes, pending);
    b.FreeFile(fh);
    FreeGood(p, fh);
  }
}

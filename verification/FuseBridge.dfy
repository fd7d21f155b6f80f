/** The patched FUSE bridge itself: releaseFileEntry and the handle scan of GetAttr of the patch, and the
    registerFile and Release that they work with. */
module FuseBridge {
  import opened Options
  import opened FuseFiles

  class FileEntry {
    var nodeIndex: int

    constructor (i: int)
      ensures nodeIndex == i
    {
      nodeIndex := i;
    }
  }

  class Inode {
    var openFiles: seq<Handle>

    constructor ()
      ensures openFiles == []
    {
      openFiles := [];
    }
  }

  class RawBridge {
    var kernelNodeIds: map<nat, Inode>
    var files: seq<FileEntry?>
    var freeFiles: seq<Handle>

    /** No two slots share an entry; nothing is said about handles and back-pointers. */
    ghost predicate Valid()
      reads this
    {
      forall i, j :: 0 <= i < j < |files| && files[i] != null ==> files[i] != files[j]
    }

    ghost function Entries(): set<object>
      reads this
    {
      set i | 0 <= i < |files| && files[i] != null :: files[i]
    }

    ghost function Index(): (index: seq<Option<int>>)
      reads this, Entries()
      ensures |index| == |files|
    {
      seq(|files|, i requires 0 <= i < |files| reads this, Entries() =>
        if files[i] == null then None else (assert files[i] in Entries(); Some(files[i].nodeIndex)))
    }

    /** The bridge with its root: slot 0 stands for no handle. */
    constructor (root: Inode)
      ensures Valid() && kernelNodeIds == map[1 := root] && freeFiles == []
      ensures fresh(Entries()) && Index() == [Some(0)]
    {
      var none := new FileEntry(0);
      kernelNodeIds := map[1 := root];
      files := [none];
      freeFiles := [];
    }

    /** The part of addNewChild that makes an inode known to the kernel. */
    method Learn(nid: nat, child: Inode)
      requires Valid()
      modifies this`kernelNodeIds
      ensures kernelNodeIds == old(kernelNodeIds)[nid := child] && Valid() && Index() == old(Index())
    {
      kernelNodeIds := kernelNodeIds[nid := child];
    }

    /** The part of removeRefInner that makes it unknown. */
    method Forget(nid: nat)
      requires Valid()
      modifies this`kernelNodeIds
      ensures kernelNodeIds == old(kernelNodeIds) - {nid} && Valid() && Index() == old(Index())
    {
      kernelNodeIds := kernelNodeIds - {nid};
    }

    /** Sets one back-pointer: only its own slot sees it. */
    method Point(slot: nat, i: int)
      requires Valid() && slot < |files| && files[slot] != null
      modifies files[slot]
      ensures Index() == old(Index())[slot := Some(i)] && files[slot].nodeIndex == i
    {
      files[slot].nodeIndex := i;
    }

    /** The state of an inode's open files, with the back-pointers of all entries. */
    ghost function TableOf(n: Inode): Table
      reads this, n, Entries()
    {
      Table(n.openFiles, Index())
    }

    /** The linear search for a handle whose back-pointer is wrong. */
    method FindHandle(n: Inode, h: Handle) returns (found: bool, at: nat)
      ensures found <==> h in n.openFiles
      ensures found ==> at == FirstIndex(n.openFiles, h)
    {
      found, at := false, 0;
      for i := 0 to |n.openFiles|
        invariant !found && h !in n.openFiles[..i]
      {
        if n.openFiles[i] == h {
          FirstIs(n.openFiles, h, i);
          return true, i;
        }
      }
    }

    /** Repairs the back-pointer of the entry if it is wrong; not found if the handle is not in the list. */
    method Repair(n: Inode, fh: nat) returns (found: bool)
      requires Valid() && 0 < fh < |files| && files[fh] != null && n.openFiles != []
      modifies files[fh]
      ensures found <==> Releasable(old(TableOf(n)), fh)
      ensures !found ==> TableOf(n) == old(TableOf(n))
      ensures found ==> files[fh].nodeIndex == Position(old(TableOf(n)), fh)
      ensures found ==> TableOf(n) == Table(n.openFiles, old(Index())[fh := Some(files[fh].nodeIndex)])
    {
      var entry, last := files[fh], |n.openFiles| - 1;
      found := true;
      if entry.nodeIndex < 0 || entry.nodeIndex > last || n.openFiles[entry.nodeIndex] != Truncate(fh) {
        var i;
        found, i := FindHandle(n, Truncate(fh));
        if found {
          Point(fh, i);
        }
      }
    }

    /** Moves the last handle into the given place and tells its entry, if it has one. */
    method MoveLastInto(n: Inode, place: nat)
      requires Valid() && place < |n.openFiles|
      modifies n, Entries()
      ensures Valid() && TableOf(n) == Vacate(old(TableOf(n)), place)
    {
      var last := |n.openFiles| - 1;
      if last != place {
        var movedFileHandle := n.openFiles[last];
        n.openFiles := n.openFiles[place := movedFileHandle];
        if movedFileHandle < Truncate(|files|) && files[movedFileHandle] != null {
          Point(movedFileHandle, place);
        }
      }
      n.openFiles := n.openFiles[..last];
    }

    /** releaseFileEntry: from any state with the inode, no index is out of bounds and no nil entry is followed,
        and the new state is the specified one.  The entry is returned exactly when something was released. */
    method ReleaseFileEntry(nid: nat, fh: nat) returns (n: Inode, entry: FileEntry?)
      requires Valid() && nid in kernelNodeIds
      modifies kernelNodeIds[nid], Entries()
      ensures n == kernelNodeIds[nid] && Valid()
      ensures TableOf(n) == Release(old(TableOf(kernelNodeIds[nid])), fh)
      ensures entry != null <==> Releasable(old(TableOf(kernelNodeIds[nid])), fh)
      ensures entry != null ==> entry == files[fh]
    {
      n := kernelNodeIds[nid];
      entry := null;
      if fh > 0 {
        if fh >= |files| || files[fh] == null {
          return n, null;
        }
        entry := files[fh];
        if |n.openFiles| == 0 {
          return n, null;
        }
        var found := Repair(n, fh);
        if !found {
          return n, null;
        }
        MoveLastInto(n, entry.nodeIndex);
      }
    }

    /** registerFile: a freed slot, or else a new one, gets a fresh entry that points at the end of the list. */
    method RegisterFile(n: Inode) returns (fe: FileEntry, fh: Handle)
      requires Valid() && (forall k :: 0 <= k < |freeFiles| ==> freeFiles[k] < |files|)
      requires |freeFiles| > 0 || |files| < TWO_32
      modifies this, n
      ensures Valid() && fresh(fe) && kernelNodeIds == old(kernelNodeIds)
      ensures n.openFiles == old(n.openFiles) + [fh]
      ensures fh < |files| && files[fh] == fe
      ensures if old(freeFiles) != []
              then fh == old(freeFiles)[|old(freeFiles)| - 1] && freeFiles == old(freeFiles)[..|old(freeFiles)| - 1]
                   && files == old(files)[fh := fe]
              else fh == |old(files)| && freeFiles == [] && files == old(files) + [fe]
      ensures fe.nodeIndex == |old(n.openFiles)|
    {
      fe := new FileEntry(|n.openFiles|);
      if |freeFiles| > 0 {
        var last := |freeFiles| - 1;
        fh := freeFiles[last];
        freeFiles := freeFiles[..last];
        files := files[fh := fe];
      } else {
        fh := Truncate(|files|);
        files := files + [fe];
      }
      n.openFiles := n.openFiles + [fh];
    }

    /** The second half of Release and ReleaseDir: the handle may be given out again. */
    method FreeFile(fh: nat)
      modifies this`freeFiles
      ensures freeFiles == old(freeFiles) + [Truncate(fh)]
    {
      freeFiles := freeFiles + [Truncate(fh)];
    }

    /** The scan of GetAttr: the entry of the first open handle that has one, skipping stale handles. */
    method FirstOpenEntry(n: Inode) returns (f: FileEntry?)
      requires |files| < TWO_32
      ensures f == null ==> forall k :: 0 <= k < |n.openFiles| ==> n.openFiles[k] >= |files| || files[n.openFiles[k]] == null
      ensures f != null ==> exists k ::
        && 0 <= k < |n.openFiles| && n.openFiles[k] < |files| && files[n.openFiles[k]] == f
        && forall j :: 0 <= j < k ==> n.openFiles[j] >= |files| || files[n.openFiles[j]] == null
    {
      f := null;
      for k := 0 to |n.openFiles|
        invariant f == null
        invariant forall j :: 0 <= j < k ==> n.openFiles[j] >= |files| || files[n.openFiles[j]] == null
      {
        var fh := n.openFiles[k];
        if fh < Truncate(|files|) && files[fh] != null {
          f := files[fh];
          return;
        }
      }
    }
  }

  lemma {:induction false} FirstIs(open: seq<Handle>, h: Handle, i: nat)
    requires i < |open| && open[i] == h && h !in open[..i]
    ensures FirstIndex(open, h) == i
  {
    if i > 0 {
      assert open[..i][0] == open[0];
      forall x | x in open[1..][..i - 1] ensures x in open[..i] {
        var k :| 0 <= k < i - 1 && open[1..][k] == x;
        assert open[..i][k + 1] == x;
      }
      FirstIs(open[1..], h, i - 1);
    }
  }
}

/** The open-file index of the patched FUSE bridge as values: an inode lists its open handles, and the entry of
    each handle points back at its place in the list.  What a release does to them, from any state. */
module FuseFiles {
  import opened Options

  const TWO_32: int := 0x1_0000_0000

  /** uint32 */
  type Handle = h: int | 0 <= h < 0x1_0000_0000

  /** The conversion uint32(n). */
  function Truncate(n: nat): Handle {
    n % TWO_32
  }

  /** The handles in openFiles, and for every slot of files the nodeIndex of its entry; None is a nil entry. */
  datatype Table = Table(open: seq<Handle>, index: seq<Option<int>>)

  predicate SlotExists(t: Table, fh: nat) {
    fh < |t.index| && t.index[fh].Some?
  }

  /** The release finds something to do. */
  predicate Releasable(t: Table, fh: nat) {
    fh > 0 && SlotExists(t, fh) && Truncate(fh) in t.open
  }

  predicate PointsBack(t: Table, fh: nat)
    requires SlotExists(t, fh)
  {
    0 <= t.index[fh].value < |t.open| && t.open[t.index[fh].value] == Truncate(fh)
  }

  function FirstIndex(open: seq<Handle>, h: Handle): (i: nat)
    requires h in open
    ensures i < |open| && open[i] == h && h !in open[..i]
  {
    if open[0] == h then 0 else 1 + FirstIndex(open[1..], h)
  }

  /** Where the handle is: the back-pointer if it is right, else the first occurrence. */
  function Position(t: Table, fh: nat): (p: nat)
    requires Releasable(t, fh)
    ensures p < |t.open| && t.open[p] == Truncate(fh)
  {
    if PointsBack(t, fh) then t.index[fh].value else FirstIndex(t.open, Truncate(fh))
  }

  function SetIndex(index: seq<Option<int>>, slot: nat, i: int): (index': seq<Option<int>>)
    ensures |index'| == |index|
  {
    if slot < |index| && index[slot].Some? then index[slot := Some(i)] else index
  }

  /** The last handle takes the place that falls free. */
  function RemoveAt(open: seq<Handle>, p: nat): seq<Handle>
    requires p < |open|
  {
    if p == |open| - 1 then open[..p] else open[p := open[|open| - 1]][..|open| - 1]
  }

  /** The handle at place p leaves, and the entry of the handle that moves there is told. */
  function Vacate(t: Table, p: nat): (t': Table)
    requires p < |t.open|
    ensures |t'.index| == |t.index|
  {
    var last := |t.open| - 1;
    Table(RemoveAt(t.open, p),
          if p != last && t.open[last] < Truncate(|t.index|) then SetIndex(t.index, t.open[last], p) else t.index)
  }

  /** The released entry learns its place, and its handle leaves it. */
  function Release(t: Table, fh: nat): (t': Table)
    ensures |t'.index| == |t.index|
  {
    if !Releasable(t, fh) then t
    else Vacate(Table(t.open, t.index[fh := Some(Position(t, fh))]), Position(t, fh))
  }

  lemma MoveLast(x: seq<Handle>, e: Handle, y: seq<Handle>, z: Handle)
    ensures multiset(x + [z] + y) == multiset(x + [e] + y + [z]) - multiset{e}
  {
    assert multiset(x + [z] + y) == multiset(x) + multiset{z} + multiset(y);
    assert multiset(x + [e] + y + [z]) == multiset(x) + multiset{e} + multiset(y) + multiset{z};
  }

  lemma SplitSwap(s: seq<Handle>, p: nat)
    requires p < |s| - 1
    ensures s == s[..p] + [s[p]] + s[p + 1..|s| - 1] + [s[|s| - 1]]
    ensures s[p := s[|s| - 1]][..|s| - 1] == s[..p] + [s[|s| - 1]] + s[p + 1..|s| - 1]
  {
  }

  lemma RemoveAtExact(s: seq<Handle>, p: nat)
    requires p < |s|
    ensures multiset(RemoveAt(s, p)) == multiset(s) - multiset{s[p]} && |RemoveAt(s, p)| == |s| - 1
  {
    if p < |s| - 1 {
      SplitSwap(s, p);
      MoveLast(s[..p], s[p], s[p + 1..|s| - 1], s[|s| - 1]);
    } else {
      assert s == s[..p] + [s[p]];
    }
  }

  /** From any state whatever, a release removes exactly one occurrence of the handle, or changes nothing at all. */
  lemma ReleaseExact(t: Table, fh: nat)
    ensures Releasable(t, fh) ==> multiset(Release(t, fh).open) == multiset(t.open) - multiset{Truncate(fh)}
    ensures Releasable(t, fh) ==> |Release(t, fh).open| == |t.open| - 1
    ensures !Releasable(t, fh) ==> Release(t, fh) == t
    ensures forall k :: 0 <= k < |t.index| ==> (Release(t, fh).index[k].Some? <==> t.index[k].Some?)
  {
    if Releasable(t, fh) {
      RemoveAtExact(t.open, Position(t, fh));
      hide RemoveAt;
    }
  }

  // ---- corrupted back-pointers ----

  ghost predicate Distinct(open: seq<Handle>) {
    forall i, j :: 0 <= i < j < |open| ==> open[i] != open[j]
  }

  /** The entry at place i of openFiles points back at i. */
  predicate RightAt(t: Table, i: nat)
    requires i < |t.open|
  {
    SlotExists(t, t.open[i]) && t.index[t.open[i]] == Some(i)
  }

  ghost predicate AllRight(t: Table) {
    forall i :: 0 <= i < |t.open| ==> RightAt(t, i)
  }

  /** The open handles with a wrong or missing back-pointer. */
  ghost function Wrong(t: Table): set<Handle> {
    set i | 0 <= i < |t.open| && !RightAt(t, i) :: t.open[i]
  }

  lemma WrongAt(t: Table, i: nat)
    requires i < |t.open| && Distinct(t.open)
    ensures t.open[i] in Wrong(t) <==> !RightAt(t, i)
  {
  }

  /** Where each handle of the new list was. */
  lemma ReleasePlaces(t: Table, fh: nat)
    requires Releasable(t, fh)
    ensures var p, last, t' := Position(t, fh), |t.open| - 1, Release(t, fh);
            && |t'.open| == last
            && (forall i :: 0 <= i < last ==> t'.open[i] == (if i == p then t.open[last] else t.open[i]))
  {
  }

  /** What a release does to the entry of another handle. */
  lemma ReleaseIndex(t: Table, fh: nat, k: nat)
    requires Releasable(t, fh) && k < |t.index| < TWO_32 && k != fh
    ensures var p, last, t' := Position(t, fh), |t.open| - 1, Release(t, fh);
            t'.index[k] == if p != last && t.open[last] == k && t.index[k].Some? then Some(p) else t.index[k]
  {
  }

  /** Corruption never spreads: with distinct handles, the handles with a wrong back-pointer after a release are
      among those before it, without the released one; the handle that moves is right if it has an entry. */
  lemma CorruptionShrinks(t: Table, fh: nat)
    requires Distinct(t.open) && |t.index| < TWO_32 && Releasable(t, fh)
    ensures Distinct(Release(t, fh).open)
    ensures Wrong(Release(t, fh)) <= Wrong(t) - {fh}
    ensures var p, last := Position(t, fh), |t.open| - 1;
            p != last && SlotExists(t, t.open[last]) ==> RightAt(Release(t, fh), p)
  {
    var p, last, t' := Position(t, fh), |t.open| - 1, Release(t, fh);
    ReleasePlaces(t, fh);
    ReleaseExact(t, fh);
    forall i | 0 <= i < last && !RightAt(t', i)
      ensures t'.open[i] in Wrong(t) - {fh}
    {
      var from := if i == p then last else i;
      assert t'.open[i] == t.open[from] && from != p;
      WrongAt(t, from);
      if t'.open[i] < |t.index| {
        ReleaseIndex(t, fh, t'.open[i]);
      }
    }
    if p != last && SlotExists(t, t.open[last]) {
      ReleaseIndex(t, fh, t.open[last]);
    }
  }

  /** An index that is right stays right. */
  lemma AllRightKept(t: Table, fh: nat)
    requires Distinct(t.open) && |t.index| < TWO_32 && AllRight(t)
    ensures Distinct(Release(t, fh).open) && AllRight(Release(t, fh))
  {
    if Releasable(t, fh) {
      CorruptionShrinks(t, fh);
      var t' := Release(t, fh);
      assert Wrong(t) == {};
      forall i | 0 <= i < |t'.open| ensures RightAt(t', i) { WrongAt(t', i); }
    }
  }

  // ---- releasing over and over ----

  /** With distinct handles a second release of the same handle finds nothing, whatever the back-pointers say. */
  lemma SecondReleaseFindsNothing(t: Table, fh: nat)
    requires Distinct(t.open) && |t.index| < TWO_32
    ensures !Releasable(Release(t, fh), fh)
    ensures Release(Release(t, fh), fh) == Release(t, fh)
  {
    if Releasable(t, fh) { ReleasePlaces(t, fh); }
  }

  function ReleaseAll(t: Table, order: seq<Handle>): Table
    decreases |order|
  {
    if order == [] then t else ReleaseAll(Release(t, order[0]), order[1..])
  }

  /** How many of the releases in the order find their handle. */
  function Successes(t: Table, order: seq<Handle>): nat
    decreases |order|
  {
    if order == [] then 0
    else (if Releasable(t, order[0]) then 1 else 0) + Successes(Release(t, order[0]), order[1..])
  }

  /** Every open handle has an entry. */
  ghost predicate HaveEntries(t: Table) {
    forall h: Handle :: h in multiset(t.open) ==> h > 0 && SlotExists(t, h)
  }

  lemma InSeq(s: seq<Handle>, h: Handle)
    ensures h in multiset(s) <==> h in s
  {
  }

  lemma RestOf(order: seq<Handle>, open: multiset<Handle>, open': multiset<Handle>)
    requires order != [] && multiset(order) == open && open' == open - multiset{order[0]}
    ensures multiset(order[1..]) == open'
  {
    assert order == [order[0]] + order[1..];
  }

  /** Releasing an open handle that has an entry succeeds, and leaves the other open handles with theirs. */
  lemma ReleaseOne(t: Table, fh: Handle)
    requires HaveEntries(t) && fh in multiset(t.open)
    ensures Releasable(t, fh) && HaveEntries(Release(t, fh))
    ensures multiset(Release(t, fh).open) == multiset(t.open) - multiset{fh}
  {
    InSeq(t.open, fh);
    assert Releasable(t, fh);
    hide Release, HaveEntries, Releasable;
    ReleaseExact(t, fh);
    EntriesKept(t, Release(t, fh));
  }

  lemma EntriesKept(t: Table, t': Table)
    requires HaveEntries(t) && multiset(t'.open) <= multiset(t.open) && |t'.index| == |t.index|
    requires forall k :: 0 <= k < |t.index| ==> (t'.index[k].Some? <==> t.index[k].Some?)
    ensures HaveEntries(t')
  {
    forall h: Handle | h in multiset(t'.open) ensures h > 0 && SlotExists(t', h) {
      assert h in multiset(t.open);
    }
  }

  /** Releasing all open handles in any order succeeds every time and leaves no handle open, whatever the
      back-pointers are. */
  lemma {:induction false} ReleaseAllInAnyOrder(t: Table, order: seq<Handle>)
    requires multiset(order) == multiset(t.open) && HaveEntries(t)
    ensures Successes(t, order) == |order| && ReleaseAll(t, order).open == []
    decreases |order|
  {
    hide HaveEntries, Release, Releasable;
    if order == [] {
      assert |multiset(t.open)| == 0;
    } else {
      assert order[0] in multiset(order);
      ReleaseOne(t, order[0]);
      RestOf(order, multiset(t.open), multiset(Release(t, order[0]).open));
      ReleaseAllInAnyOrder(Release(t, order[0]), order[1..]);
    }
  }

  /** With distinct handles, the open ones after a release are exactly the others. */
  lemma RemainingOpen(t: Table, fh: nat)
    requires Distinct(t.open) && |t.index| < TWO_32 && Releasable(t, fh)
    ensures forall h: nat :: h in Release(t, fh).open <==> h in t.open && h != fh
  {
    ReleasePlaces(t, fh);
    var p, last, t' := Position(t, fh), |t.open| - 1, Release(t, fh);
    forall h: nat | h in t.open && h != fh ensures h in t'.open {
      var i :| 0 <= i < |t.open| && t.open[i] == h;
      assert t'.open[if i == last then p else i] == h;
    }
  }
}

/** Aggregation of VFS statistics by volume.  The volume is read out of the kubelet path that a mount is stored under. */
module Metrics {
  import opened Options
  import opened GoStrings
  import opened MapLoops
  import opened MapSums

  // ---- the path ----

  /** The component after the first one equal to the marker that has one after it. */
  function After(parts: seq<string>, marker: string): Option<string> {
    if |parts| < 2 then None
    else if parts[0] == marker then Some(parts[1])
    else After(parts[1..], marker)
  }

  const CSI_MARKER := "kubernetes.io~csi"
  const POD_MARKER := "pods"
  const UNKNOWN := "unknown"

  function VolumeOf(path: string): string {
    var parts := Split(path, '/');
    match After(parts, CSI_MARKER)
    case Some(id) => id
    case None => parts[|parts| - 1]
  }

  function PodOf(path: string): string {
    match After(Split(path, '/'), POD_MARKER)
    case Some(id) => id
    case None => UNKNOWN
  }

  /** The scan of the components, as the code makes it. */
  method FindAfter(parts: seq<string>, marker: string) returns (r: Option<string>)
    ensures r == After(parts, marker)
  {
    for i := 0 to |parts|
      invariant After(parts, marker) == After(parts[i..], marker)
    {
      if parts[i] == marker && i + 1 < |parts| {
        return Some(parts[i + 1]);
      }
      assert parts[i..][1..] == parts[i + 1..];
    }
    r := None;
  }

  method ExtractVolumeID(path: string) returns (id: string)
    ensures id == VolumeOf(path)
  {
    hide After, Split;
    var parts := Split(path, '/');
    var found := FindAfter(parts, CSI_MARKER);
    if found.Some? {
      return found.value;
    }
    id := parts[|parts| - 1];
  }

  method ExtractPodID(path: string) returns (id: string)
    ensures id == PodOf(path)
  {
    hide After, Split;
    var found := FindAfter(Split(path, '/'), POD_MARKER);
    id := if found.Some? then found.value else UNKNOWN;
  }

  predicate NoSlash(parts: seq<string>) {
    forall i :: 0 <= i < |parts| ==> '/' !in parts[i]
  }

  lemma {:induction false} AfterMarker(before: seq<string>, marker: string, id: string, after: seq<string>)
    requires marker !in before
    ensures After(before + [marker, id] + after, marker) == Some(id)
  {
    var parts := before + [marker, id] + after;
    if before != [] {
      assert before[0] in before;
      assert parts[1..] == before[1..] + [marker, id] + after;
      AfterMarker(before[1..], marker, id, after);
    }
  }

  /** The path of a kubelet: pods, the pod, and further down the CSI directory with the volume. */
  function KubeletPath(root: seq<string>, pod: string, middle: seq<string>, volume: string, rest: seq<string>): string {
    Join(root + ["pods", pod] + middle + ["kubernetes.io~csi", volume] + rest, '/')
  }

  /** From a kubelet path the volume and the pod that built it come back, if no earlier component is a marker. */
  lemma ExtractionInvertsKubeletPath(root: seq<string>, pod: string, middle: seq<string>, volume: string, rest: seq<string>)
    requires NoSlash(root) && NoSlash(middle) && NoSlash(rest) && '/' !in pod && '/' !in volume
    requires "pods" !in root
    requires "kubernetes.io~csi" !in root && "kubernetes.io~csi" != pod && "kubernetes.io~csi" !in middle
    ensures VolumeOf(KubeletPath(root, pod, middle, volume, rest)) == volume
    ensures PodOf(KubeletPath(root, pod, middle, volume, rest)) == pod
  {
    var parts := root + [POD_MARKER, pod] + middle + [CSI_MARKER, volume] + rest;
    SplitJoin(parts, '/');
    var before := root + [POD_MARKER, pod] + middle;
    assert parts == before + [CSI_MARKER, volume] + rest;
    AfterMarker(before, CSI_MARKER, volume, rest);
    assert parts == root + [POD_MARKER, pod] + (middle + [CSI_MARKER, volume] + rest);
    AfterMarker(root, POD_MARKER, pod, middle + [CSI_MARKER, volume] + rest);
  }

  lemma {:induction false} NoMarker(parts: seq<string>, marker: string)
    requires parts != [] && marker !in parts[..|parts| - 1]
    ensures After(parts, marker) == None
  {
    if |parts| >= 2 {
      assert parts[0] == parts[..|parts| - 1][0];
      assert parts[1..][..|parts| - 2] == parts[..|parts| - 1][1..];
      NoMarker(parts[1..], marker);
    }
  }

  /** In any other path the volume is the last component, and the pod is unknown: a marker at the end names nothing. */
  lemma ExtractionFallsBack(parts: seq<string>)
    requires NoSlash(parts) && parts != []
    ensures "kubernetes.io~csi" !in parts[..|parts| - 1] ==> VolumeOf(Join(parts, '/')) == parts[|parts| - 1]
    ensures "pods" !in parts[..|parts| - 1] ==> PodOf(Join(parts, '/')) == "unknown"
  {
    SplitJoin(parts, '/');
    if CSI_MARKER !in parts[..|parts| - 1] { NoMarker(parts, CSI_MARKER); }
    if POD_MARKER !in parts[..|parts| - 1] { NoMarker(parts, POD_MARKER); }
    hide After, Split, Join;
  }

  // ---- the statistics ----

  /** The statistics of one VFS; a missing part counts nothing. */
  datatype DiskCache = DiskCache(bytesUsed: Option<int>, files: Option<int>, erroredFiles: Option<int>,
                                 uploadsInProgress: Option<int>, uploadsQueued: Option<int>, outOfSpace: Option<bool>)

  datatype MetadataCache = MetadataCache(dirs: Option<int>, files: Option<int>)

  datatype Stats = Stats(inUse: Option<int>, metadataCache: Option<MetadataCache>, diskCache: Option<DiskCache>)

  /** A mount without a VFS has no statistics. */
  datatype Mount = Mount(remoteName: string, vfs: Option<Stats>)

  datatype VolumeMetrics = VolumeMetrics(remoteName: string, inUse: int, metadataDirs: int, metadataFiles: int,
                                         bytesUsed: int, files: int, errors: int, uploadsInProgress: int,
                                         uploadsQueued: int, outOfSpace: bool)

  const NEW: VolumeMetrics := VolumeMetrics("", 0, 0, 0, 0, 0, 0, 0, 0, false)

  function Or0(x: Option<int>): (n: int)
    ensures (x.Some? ==> x == Some(n)) && (x.None? ==> n == 0)
  {
    if x.Some? then x.value else 0
  }

  function AddDiskCache(vm: VolumeMetrics, stats: Stats): VolumeMetrics {
    match stats.diskCache
    case None => vm
    case Some(d) =>
      vm.(bytesUsed := vm.bytesUsed + Or0(d.bytesUsed), files := vm.files + Or0(d.files),
          errors := vm.errors + Or0(d.erroredFiles), uploadsInProgress := vm.uploadsInProgress + Or0(d.uploadsInProgress),
          uploadsQueued := vm.uploadsQueued + Or0(d.uploadsQueued),
          outOfSpace := vm.outOfSpace || d.outOfSpace == Some(true))
  }

  function AddStats(vm: VolumeMetrics, stats: Stats): VolumeMetrics {
    var used := vm.(inUse := vm.inUse + Or0(stats.inUse));
    AddDiskCache(
      match stats.metadataCache
      case None => used
      case Some(c) =>
        used.(metadataDirs := used.metadataDirs + Or0(c.dirs), metadataFiles := used.metadataFiles + Or0(c.files)),
      stats)
  }

  function AddMount(stats: map<string, VolumeMetrics>, path: string, m: Mount): map<string, VolumeMetrics> {
    match m.vfs
    case None => stats
    case Some(s) =>
      var v := VolumeOf(path);
      var vm := if v in stats then stats[v] else NEW.(remoteName := m.remoteName);
      stats[v := AddStats(vm, s)]
  }

  function Aggregate(mounts: map<string, Mount>, order: seq<string>): map<string, VolumeMetrics>
    requires forall i :: 0 <= i < |order| ==> order[i] in mounts
  {
    if order == [] then map[]
    else
      var n := |order| - 1;
      AddMount(Aggregate(mounts, order[..n]), order[n], mounts[order[n]])
  }

  lemma AggregateNext(mounts: map<string, Mount>, order: seq<string>, path: string)
    requires (forall i :: 0 <= i < |order| ==> order[i] in mounts) && path in mounts
    ensures Aggregate(mounts, order + [path]) == AddMount(Aggregate(mounts, order), path, mounts[path])
  {
    hide AddMount;
    assert (order + [path])[..|order|] == order;
  }

  method AggregateMount(before: map<string, VolumeMetrics>, path: string, m: Mount) returns (stats: map<string, VolumeMetrics>)
    ensures stats == AddMount(before, path, m)
  {
    hide AddStats, VolumeOf;
    stats := before;
    if m.vfs.Some? {
      var id := ExtractVolumeID(path);
      if id !in stats {
        stats := stats[id := NEW.(remoteName := m.remoteName)];
      }
      stats := stats[id := AddStats(stats[id], m.vfs.value)];
    }
  }

  method AggregateVolumeStats(mounts: map<string, Mount>) returns (stats: map<string, VolumeMetrics>)
    ensures exists order :: IsOrder(order, mounts) && stats == Aggregate(mounts, order)
  {
    stats := map[];
    ghost var order: seq<string> := [];
    assert Aggregate(mounts, order) == map[];
    hide Aggregate, AddMount;
    var todo := mounts.Keys;
    while todo != {}
      invariant Visited(order, mounts, todo) && (todo == {} ==> IsOrder(order, mounts))
      invariant forall i :: 0 <= i < |order| ==> order[i] in mounts
      invariant stats == Aggregate(mounts, order)
      decreases |todo|
    {
      var path :| path in todo;
      VisitOne(order, mounts, todo, path);
      AggregateNext(mounts, order, path);
      hide Visited, IsOrder;
      stats := AggregateMount(stats, path, mounts[path]);
      todo, order := todo - {path}, order + [path];
    }
  }

  // ---- conservation ----

  datatype Gauge = InUse | MetadataDirs | MetadataFiles | DiskBytes | DiskFiles | DiskErrors | InProgress | Queued

  function GaugeOf(g: Gauge, vm: VolumeMetrics): int {
    match g
    case InUse => vm.inUse
    case MetadataDirs => vm.metadataDirs
    case MetadataFiles => vm.metadataFiles
    case DiskBytes => vm.bytesUsed
    case DiskFiles => vm.files
    case DiskErrors => vm.errors
    case InProgress => vm.uploadsInProgress
    case Queued => vm.uploadsQueued
  }

  /** What one VFS reports for the gauge. */
  function Reported(g: Gauge, s: Stats): int {
    match g
    case InUse => Or0(s.inUse)
    case MetadataDirs => if s.metadataCache.Some? then Or0(s.metadataCache.value.dirs) else 0
    case MetadataFiles => if s.metadataCache.Some? then Or0(s.metadataCache.value.files) else 0
    case DiskBytes => if s.diskCache.Some? then Or0(s.diskCache.value.bytesUsed) else 0
    case DiskFiles => if s.diskCache.Some? then Or0(s.diskCache.value.files) else 0
    case DiskErrors => if s.diskCache.Some? then Or0(s.diskCache.value.erroredFiles) else 0
    case InProgress => if s.diskCache.Some? then Or0(s.diskCache.value.uploadsInProgress) else 0
    case Queued => if s.diskCache.Some? then Or0(s.diskCache.value.uploadsQueued) else 0
  }

  function OfMount(g: Gauge): Mount -> int {
    (m: Mount) => if m.vfs.Some? then Reported(g, m.vfs.value) else 0
  }

  function OfVolume(g: Gauge): VolumeMetrics -> int {
    (vm: VolumeMetrics) => GaugeOf(g, vm)
  }

  predicate FullDisk(m: Mount) {
    m.vfs.Some? && m.vfs.value.diskCache.Some? && m.vfs.value.diskCache.value.outOfSpace == Some(true)
  }

  /** The mounts of the order with a VFS. */
  function Served(mounts: map<string, Mount>, order: seq<string>): map<string, Mount>
    requires forall i :: 0 <= i < |order| ==> order[i] in mounts
  {
    map p | p in order && mounts[p].vfs.Some? :: mounts[p]
  }

  /** Those whose path is of volume v. */
  function In(mounts: map<string, Mount>, v: string): map<string, Mount> {
    map p | p in mounts && VolumeOf(p) == v :: mounts[p]
  }

  lemma AddStatsGauge(g: Gauge, vm: VolumeMetrics, m: Mount)
    requires m.vfs.Some?
    ensures var vm' := AddStats(vm, m.vfs.value);
            && GaugeOf(g, vm') == GaugeOf(g, vm) + OfMount(g)(m)
            && vm'.outOfSpace == (vm.outOfSpace || FullDisk(m)) && vm'.remoteName == vm.remoteName
  {
  }

  /** Nothing but the sum, the disjunction and a name of the volume's mounts. */
  ghost predicate Sums(vm: VolumeMetrics, mounts: map<string, Mount>) {
    && (forall g :: GaugeOf(g, vm) == Sum(mounts, OfMount(g)))
    && (vm.outOfSpace <==> exists p :: p in mounts && FullDisk(mounts[p]))
    && (exists p :: p in mounts && mounts[p].remoteName == vm.remoteName)
  }

  lemma SumsNone(name: string, path: string, m: Mount)
    requires m.vfs.Some?
    ensures Sums(AddStats(NEW.(remoteName := name), m.vfs.value), map[path := m]) <==> name == m.remoteName
  {
    var zero := NEW.(remoteName := name);
    var one: map<string, Mount> := map[path := m];
    var vm := AddStats(zero, m.vfs.value);
    forall g ensures GaugeOf(g, vm) == Sum(one, OfMount(g)) {
      AddStatsGauge(g, zero, m);
      SumUpdate(map[], OfMount(g), path, m);
    }
    AddStatsGauge(InUse, zero, m);
    assert path in one;
    hide AddStats, FullDisk;
  }

  lemma SumsOne(vm: VolumeMetrics, mounts: map<string, Mount>, path: string, m: Mount)
    requires m.vfs.Some? && path !in mounts && Sums(vm, mounts)
    ensures Sums(AddStats(vm, m.vfs.value), mounts[path := m])
  {
    var vm' := AddStats(vm, m.vfs.value);
    var mounts' := mounts[path := m];
    forall g ensures GaugeOf(g, vm') == Sum(mounts', OfMount(g)) {
      AddStatsGauge(g, vm, m);
      SumUpdate(mounts, OfMount(g), path, m);
    }
    AddStatsGauge(InUse, vm, m);
    hide AddStats, FullDisk;
    var q :| q in mounts && mounts[q].remoteName == vm.remoteName;
    assert q in mounts' && mounts'[q].remoteName == vm'.remoteName;
    assert vm.outOfSpace ==> exists p :: p in mounts && p in mounts' && FullDisk(mounts[p]);
    assert path in mounts';
  }

  lemma ServedNext(mounts: map<string, Mount>, order: seq<string>, path: string)
    requires (forall i :: 0 <= i < |order| ==> order[i] in mounts) && path in mounts
    ensures Served(mounts, order + [path]) ==
              if mounts[path].vfs.Some? then Served(mounts, order)[path := mounts[path]] else Served(mounts, order)
  {
    assert forall p :: p in order + [path] <==> p in order || p == path;
  }

  lemma InNext(mounts: map<string, Mount>, path: string, m: Mount, v: string)
    ensures In(mounts[path := m], v) == if VolumeOf(path) == v then In(mounts, v)[path := m] else In(mounts - {path}, v)
  {
    hide VolumeOf;
  }

  lemma InWithout(mounts: map<string, Mount>, path: string, v: string)
    requires path !in mounts
    ensures mounts - {path} == mounts && path !in In(mounts, v)
  {
  }

  /** The metrics of every volume are those of exactly its mounts. */
  ghost predicate Exact(stats: map<string, VolumeMetrics>, mounts: map<string, Mount>) {
    forall v :: if v in stats then Sums(stats[v], In(mounts, v)) else In(mounts, v) == map[]
  }

  lemma ExactNext(stats: map<string, VolumeMetrics>, mounts: map<string, Mount>, path: string, m: Mount)
    requires Exact(stats, mounts) && m.vfs.Some? && path !in mounts
    ensures Exact(AddMount(stats, path, m), mounts[path := m])
  {
    hide VolumeOf, AddStats, Sums, In;
    var stats', mounts' := AddMount(stats, path, m), mounts[path := m];
    forall v
      ensures if v in stats' then Sums(stats'[v], In(mounts', v)) else In(mounts', v) == map[]
    {
      InNext(mounts, path, m, v);
      InWithout(mounts, path, v);
      if VolumeOf(path) == v {
        if v in stats {
          SumsOne(stats[v], In(mounts, v), path, m);
        } else {
          SumsNone(m.remoteName, path, m);
        }
      }
    }
  }

  /** For every map order: each gauge of a volume is the sum over exactly the mounts with a VFS whose path is of that
      volume, out-of-space holds if and only if one of them reports it, and there are no other volumes. */
  lemma {:induction false} AggregateExact(mounts: map<string, Mount>, order: seq<string>)
    requires forall i :: 0 <= i < |order| ==> order[i] in mounts
    requires forall i, j :: 0 <= i < j < |order| ==> order[i] != order[j]
    ensures Exact(Aggregate(mounts, order), Served(mounts, order))
  {
    hide Exact, AddMount, Served;
    if order == [] {
      ExactNone(mounts);
    } else {
      var n := |order| - 1;
      AggregateExact(mounts, order[..n]);
      assert order == order[..n] + [order[n]];
      ServedNext(mounts, order[..n], order[n]);
      NotServed(mounts, order[..n], order[n]);
      NoVfsNothing(Aggregate(mounts, order[..n]), order[n], mounts[order[n]]);
      if mounts[order[n]].vfs.Some? {
        ExactNext(Aggregate(mounts, order[..n]), Served(mounts, order[..n]), order[n], mounts[order[n]]);
      }
    }
  }

  lemma ExactNone(mounts: map<string, Mount>)
    ensures Exact(map[], Served(mounts, []))
  {
    forall v ensures In(Served(mounts, []), v) == map[] { hide VolumeOf; }
  }

  lemma NotServed(mounts: map<string, Mount>, order: seq<string>, path: string)
    requires (forall i :: 0 <= i < |order| ==> order[i] in mounts) && path !in order
    ensures path !in Served(mounts, order)
  {
  }

  lemma NoVfsNothing(stats: map<string, VolumeMetrics>, path: string, m: Mount)
    ensures m.vfs.None? ==> AddMount(stats, path, m) == stats
  {
  }

  /** Nothing is lost and nothing counted twice: for every map order the total over the volumes is the total over the
      mounts with a VFS. */
  lemma {:induction false} TotalConserved(mounts: map<string, Mount>, order: seq<string>, g: Gauge)
    requires forall i :: 0 <= i < |order| ==> order[i] in mounts
    requires forall i, j :: 0 <= i < j < |order| ==> order[i] != order[j]
    ensures Sum(Aggregate(mounts, order), OfVolume(g)) == Sum(Served(mounts, order), OfMount(g))
  {
    hide AddMount, Served, Sum;
    if order == [] {
      SumNone(mounts, g);
    } else {
      var n := |order| - 1;
      TotalConserved(mounts, order[..n], g);
      assert order == order[..n] + [order[n]];
      ServedNext(mounts, order[..n], order[n]);
      NotServed(mounts, order[..n], order[n]);
      NoVfsNothing(Aggregate(mounts, order[..n]), order[n], mounts[order[n]]);
      if mounts[order[n]].vfs.Some? {
        SumUpdate(Served(mounts, order[..n]), OfMount(g), order[n], mounts[order[n]]);
        AddMountSum(Aggregate(mounts, order[..n]), order[n], mounts[order[n]], g);
      }
    }
  }

  lemma SumNone(mounts: map<string, Mount>, g: Gauge)
    ensures Sum<string, VolumeMetrics>(map[], OfVolume(g)) == 0 && Sum(Served(mounts, []), OfMount(g)) == 0
  {
    assert Served(mounts, []) == map[];
  }

  lemma AddMountSum(stats: map<string, VolumeMetrics>, path: string, m: Mount, g: Gauge)
    requires m.vfs.Some?
    ensures Sum(AddMount(stats, path, m), OfVolume(g)) == Sum(stats, OfVolume(g)) + OfMount(g)(m)
  {
    var v := VolumeOf(path);
    var vm := if v in stats then stats[v] else NEW.(remoteName := m.remoteName);
    AddStatsGauge(g, vm, m);
    SumUpdate(stats, OfVolume(g), v, AddStats(vm, m.vfs.value));
    hide VolumeOf, AddStats;
  }

  /** The same volumes, and the same gauges of each, for every map order. */
  lemma GaugesOrderIndependent(mounts: map<string, Mount>, a: seq<string>, b: seq<string>, v: string, g: Gauge)
    requires IsOrder(a, mounts) && IsOrder(b, mounts)
    ensures v in Aggregate(mounts, a) <==> v in Aggregate(mounts, b)
    ensures v in Aggregate(mounts, a) ==>
      GaugeOf(g, Aggregate(mounts, a)[v]) == GaugeOf(g, Aggregate(mounts, b)[v])
      && Aggregate(mounts, a)[v].outOfSpace == Aggregate(mounts, b)[v].outOfSpace
  {
    AggregateExact(mounts, a);
    AggregateExact(mounts, b);
    assert Served(mounts, a) == Served(mounts, b);
    hide Aggregate, Served;
    var m := Served(mounts, a);
    hide VolumeOf, FullDisk;
    assert Exact(Aggregate(mounts, a), m) && Exact(Aggregate(mounts, b), m);
    assert (v in Aggregate(mounts, a) ==> In(m, v) != map[]) && (v in Aggregate(mounts, b) ==> In(m, v) != map[]);
  }

  // ---- the remote name ----

  function NameOf(stats: map<string, VolumeMetrics>, v: string): Option<string> {
    if v in stats then Some(stats[v].remoteName) else None
  }

  predicate ServedFor(mounts: map<string, Mount>, v: string, path: string) {
    path in mounts && VolumeOf(path) == v && mounts[path].vfs.Some?
  }

  /** All mounts of the volume with a VFS are of one remote. */
  ghost predicate OneName(mounts: map<string, Mount>, v: string) {
    forall p, q :: ServedFor(mounts, v, p) && ServedFor(mounts, v, q) ==> mounts[p].remoteName == mounts[q].remoteName
  }

  /** The next mount only names a volume that has no name yet. */
  lemma NameNext(stats: map<string, VolumeMetrics>, path: string, m: Mount, v: string)
    ensures NameOf(AddMount(stats, path, m), v) ==
              if v in stats then NameOf(stats, v) else if m.vfs.Some? && VolumeOf(path) == v then Some(m.remoteName) else None
  {
    hide VolumeOf;
    if m.vfs.Some? { AddStatsGauge(InUse, if v in stats then stats[v] else NEW.(remoteName := m.remoteName), m); }
    hide AddStats;
  }

  /** Once the first mount of a volume is added its remote name stays, whatever comes after. */
  lemma {:induction false} FirstNameStays(mounts: map<string, Mount>, order: seq<string>, v: string)
    requires order != [] && (forall i :: 0 <= i < |order| ==> order[i] in mounts) && ServedFor(mounts, v, order[0])
    ensures NameOf(Aggregate(mounts, order), v) == Some(mounts[order[0]].remoteName)
  {
    hide VolumeOf, AddMount;
    var n := |order| - 1;
    NameNext(Aggregate(mounts, order[..n]), order[n], mounts[order[n]], v);
    if n > 0 { FirstNameStays(mounts, order[..n], v); }
  }

  /** A volume's name is that of one of its mounts with a VFS; without any it has none. */
  lemma NameFromMount(mounts: map<string, Mount>, order: seq<string>, v: string)
    requires IsOrder(order, mounts)
    ensures match NameOf(Aggregate(mounts, order), v)
            case None => forall p :: !ServedFor(mounts, v, p)
            case Some(name) => exists p :: ServedFor(mounts, v, p) && mounts[p].remoteName == name
  {
    AggregateExact(mounts, order);
    var stats, served := Aggregate(mounts, order), Served(mounts, order);
    assert if v in stats then Sums(stats[v], In(served, v)) else In(served, v) == map[];
    hide Aggregate, VolumeOf;
    assert forall p :: ServedFor(mounts, v, p) <==> p in In(served, v);
    if v in stats {
      var p :| p in In(served, v) && In(served, v)[p].remoteName == stats[v].remoteName;
      assert ServedFor(mounts, v, p);
    }
  }

  /** The remote name that a volume is emitted with is the same for every map order if and only if all its mounts with
      a VFS are of one remote. */
  lemma RemoteNameOrderFreeExactly(mounts: map<string, Mount>, v: string)
    ensures OneName(mounts, v) <==>
      forall a, b :: IsOrder(a, mounts) && IsOrder(b, mounts) ==>
        NameOf(Aggregate(mounts, a), v) == NameOf(Aggregate(mounts, b), v)
  {
    hide Aggregate, VolumeOf, NameOf;
    if OneName(mounts, v) {
      forall a, b | IsOrder(a, mounts) && IsOrder(b, mounts)
        ensures NameOf(Aggregate(mounts, a), v) == NameOf(Aggregate(mounts, b), v)
      {
        NameFromMount(mounts, a, v);
        NameFromMount(mounts, b, v);
      }
    } else {
      var p, q :| ServedFor(mounts, v, p) && ServedFor(mounts, v, q) && mounts[p].remoteName != mounts[q].remoteName;
      var a := OrderStartingWith(mounts, p);
      var b := OrderStartingWith(mounts, q);
      FirstNameStays(mounts, a, v);
      FirstNameStays(mounts, b, v);
    }
  }
}

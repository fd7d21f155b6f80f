/** From a publish request to the options of its mount: secrets, volume context and fsGroup are merged, names are
    normalised, and mount flags come on top. */
module Parameters {
  import opened Options
  import opened GoStrings
  import opened MapLoops
  import opened Flags

  const REMOTE := "remote"
  const REMOTE_PATH := "remotePath"
  const CONFIG_DATA := "configData"
  const REMOTE_TYPE := "remoteType"
  const GID := "gid"
  const UID := "uid"
  const ALLOW_OTHER := "allow_other"

  predicate Reserved(k: string) {
    k == REMOTE || k == REMOTE_PATH || k == CONFIG_DATA || k == REMOTE_TYPE
  }

  type Params = map<string, string>

  /** The parts of a NodePublishVolumeRequest that decide the options; mountCap tells whether the capability is a
      mount capability. */
  datatype Request = Request(secrets: Params, volumeContext: Params, mountCap: bool, mountFlags: seq<string>,
                             mountGroup: string, readOnly: bool)

  datatype Error = RemoteMissing | BackendMissing | InvalidName

  datatype Checked<+T> = Success(value: T) | Failure(error: Error)

  datatype PublishParams = PublishParams(remoteName: string, remotePath: string, configData: string,
                                         remoteType: string, params: Params)

  // ---- merging ----

  method MergeVolumeParameters(req: Request) returns (params: Params)
    ensures params == req.secrets + req.volumeContext
  {
    params := map[];
    var todo := req.secrets.Keys;
    while todo != {}
      invariant todo <= req.secrets.Keys && params == req.secrets - todo
    {
      var k :| k in todo;
      params, todo := params[k := req.secrets[k]], todo - {k};
    }
    todo := req.volumeContext.Keys;
    while todo != {}
      invariant todo <= req.volumeContext.Keys && params == req.secrets + (req.volumeContext - todo)
    {
      var k :| k in todo;
      params, todo := params[k := req.volumeContext[k]], todo - {k};
    }
  }

  /** fsGroup overrides owner, group and access. */
  function WithGroup(req: Request, params: Params): Params {
    if req.mountCap && req.mountGroup != ""
    then params[GID := req.mountGroup][UID := req.mountGroup][ALLOW_OTHER := "true"]
    else params
  }

  function Merged(req: Request): Params {
    WithGroup(req, req.secrets + req.volumeContext)
  }

  // ---- extraction ----

  function Lookup(params: Params, k: string): string {
    if k in params then params[k] else ""
  }

  function PublishName(k: string): Option<string> {
    if Reserved(k) then None else Some(NormalizeRcloneFlag(k))
  }

  const PublishKey: string -> Option<string> := k => PublishName(k)

  ghost predicate HasInvalidName(params: Params) {
    exists k :: k in params && !Reserved(k) && NormalizeRcloneFlag(k) == ""
  }

  /** A required parameter is missing. */
  predicate Missing(params: Params) {
    Lookup(params, REMOTE) == "" || (Lookup(params, CONFIG_DATA) == "" && Lookup(params, REMOTE_TYPE) == "")
  }

  function Extracted(params: Params, order: seq<string>): PublishParams
    requires forall i :: 0 <= i < |order| ==> order[i] in params
  {
    PublishParams(Lookup(params, REMOTE), Lookup(params, REMOTE_PATH), Lookup(params, CONFIG_DATA),
                  Lookup(params, REMOTE_TYPE), Collect(params, order, PublishKey))
  }

  method ExtractPublishParams(params: Params) returns (r: Checked<PublishParams>)
    ensures Lookup(params, REMOTE) == "" ==> r == Failure(RemoteMissing)
    ensures Missing(params) && Lookup(params, REMOTE) != "" ==> r == Failure(BackendMissing)
    ensures !Missing(params) && HasInvalidName(params) ==> r == Failure(InvalidName)
    ensures !Missing(params) && !HasInvalidName(params) ==>
      exists order :: IsOrder(order, params) && r == Success(Extracted(params, order))
  {
    hide NormalizeRcloneFlag;
    var remoteName, configData, remoteType := Lookup(params, REMOTE), Lookup(params, CONFIG_DATA), Lookup(params, REMOTE_TYPE);
    if remoteName == "" {
      return Failure(RemoteMissing);
    }
    if configData == "" && remoteType == "" {
      return Failure(BackendMissing);
    }
    var out: Params := map[];
    ghost var order: seq<string> := [];
    assert out == Collect(params, order, PublishKey);
    hide Collect, Reserved;
    var todo := params.Keys;
    while todo != {}
      invariant Visited(order, params, todo) && (todo == {} ==> IsOrder(order, params))
      invariant forall i :: 0 <= i < |order| ==> order[i] in params
      invariant out == Collect(params, order, PublishKey)
      invariant forall k :: k in params.Keys - todo ==> Reserved(k) || NormalizeRcloneFlag(k) != ""
      decreases |todo|
    {
      var k :| k in todo;
      VisitOne(order, params, todo, k);
      hide Visited, IsOrder;
      CollectNext(params, order, PublishKey, k);
      if !Reserved(k) {
        var rcloneKey := NormalizeRcloneFlag(k);
        if rcloneKey == "" {
          return Failure(InvalidName);
        }
        out := out[rcloneKey := params[k]];
      }
      todo, order := todo - {k}, order + [k];
    }
    assert IsOrder(order, params);
    r := Success(PublishParams(remoteName, Lookup(params, REMOTE_PATH), configData, remoteType, out));
  }

  // ---- what is extracted ----

  /** The parameter is there and not empty. */
  predicate Has(params: Params, k: string) {
    k in params && params[k] != ""
  }

  lemma MissingExactly(params: Params)
    ensures Missing(params) <==> !Has(params, "remote") || (!Has(params, "configData") && !Has(params, "remoteType"))
    ensures Lookup(params, REMOTE) == "" <==> !Has(params, "remote")
  {
  }

  /** Only the empty name and the bare double hyphen are refused. */
  lemma InvalidNameExactly(params: Params)
    ensures HasInvalidName(params) <==> "" in params || "--" in params
  {
    hide NormalizeRcloneFlag;
    forall k { NormalizesToNothing(k); }
    assert !Reserved("") && !Reserved("--");
  }

  /** The parameter is an option and not one of the four that say what to mount. */
  ghost predicate IsOption(params: Params, k: string, x: string) {
    k in params && k != "remote" && k != "remotePath" && k != "configData" && k != "remoteType" && NormalizeRcloneFlag(k) == x
  }

  /** The options are exactly the normalised names of the other parameters, each with the value of one that has it. */
  lemma OptionsExactly(params: Params, order: seq<string>)
    requires IsOrder(order, params)
    ensures var options := Extracted(params, order).params;
      && (forall x :: x in options <==> exists k :: IsOption(params, k, x))
      && (forall x :: x in options ==> exists k :: IsOption(params, k, x) && options[x] == params[k])
  {
    CollectedFrom(params, order, PublishKey);
    hide NormalizeRcloneFlag, Collect;
    var options := Extracted(params, order).params;
    assert forall k, x :: IsOption(params, k, x) <==> k in order && PublishKey(k) == Some(x);
    forall x | x in options
      ensures exists k :: IsOption(params, k, x) && options[x] == params[k]
    {
      var k :| k in order && PublishKey(k) == Some(x) && options[x] == params[k];
      assert IsOption(params, k, x);
    }
  }

  /** The fsGroup of a mount decides group, owner and access, and nothing else. */
  lemma GroupDecides(req: Request)
    ensures req.mountCap && req.mountGroup != "" ==>
      Merged(req) == req.secrets + req.volumeContext + map["gid" := req.mountGroup, "uid" := req.mountGroup, "allow_other" := "true"]
    ensures !req.mountCap || req.mountGroup == "" ==> Merged(req) == req.secrets + req.volumeContext
  {
    assert "gid" != "uid" && |"allow_other"| == 11;
  }

  // ---- mount flags ----

  /** A flag is "name=value", or a name alone that means true. */
  function FlagName(flag: string): string {
    NormalizeRcloneFlag(flag[..IndexOf(flag, '=')])
  }

  function FlagValue(flag: string): string {
    var i := IndexOf(flag, '=');
    if i < |flag| then flag[i + 1..] else "true"
  }

  function FlagOptions(flags: seq<string>): Params {
    if flags == [] then map[]
    else
      var n := |flags| - 1;
      FlagOptions(flags[..n])[FlagName(flags[n]) := FlagValue(flags[n])]
  }

  method ExtractVolumeMountOptions(flags: seq<string>) returns (opts: Params)
    ensures opts == FlagOptions(flags)
  {
    opts := map[];
    for k := 0 to |flags|
      invariant opts == FlagOptions(flags[..k])
    {
      var option := flags[k];
      var i := IndexOf(option, '=');
      assert flags[..k + 1][..k] == flags[..k];
      if i < |option| {
        opts := opts[NormalizeRcloneFlag(option[..i]) := option[i + 1..]];
      } else {
        assert option[..i] == option;
        opts := opts[NormalizeRcloneFlag(option) := "true"];
      }
    }
    assert flags[..|flags|] == flags;
  }

  /** A flag with a value, and a flag without. */
  lemma FlagRead(name: string, value: string)
    requires '=' !in name
    ensures FlagName(name + "=" + value) == NormalizeRcloneFlag(name) && FlagValue(name + "=" + value) == value
    ensures FlagName(name) == NormalizeRcloneFlag(name) && FlagValue(name) == "true"
  {
    hide NormalizeRcloneFlag, IndexOf;
    var flag := name + "=" + value;
    assert flag[..|name|] == name && flag[|name|] == '=' && flag[|name| + 1..] == value;
    IndexOfIs(flag, '=', |name|);
    assert name[..|name|] == name;
    IndexOfIs(name, '=', |name|);
  }

  /** The flags that NodePublishVolume passes on. */
  function MountFlags(req: Request): seq<string> {
    if !req.mountCap then [] else if req.readOnly then req.mountFlags + ["read-only"] else req.mountFlags
  }

  method MountOptions(req: Request) returns (flags: seq<string>)
    ensures flags == if req.mountCap then req.mountFlags + (if req.readOnly then ["read-only"] else []) else []
    ensures flags == MountFlags(req)
  {
    flags := [];
    if req.mountCap {
      flags := req.mountFlags;
      if req.readOnly {
        flags := flags + ["read-only"];
      }
    }
  }

  /** The last flag with the name decides. */
  function LastFlag(flags: seq<string>, x: string): Option<string> {
    if flags == [] then None
    else
      var n := |flags| - 1;
      if FlagName(flags[n]) == x then Some(FlagValue(flags[n])) else LastFlag(flags[..n], x)
  }

  lemma {:induction false} LastFlagWins(flags: seq<string>, x: string)
    ensures x in FlagOptions(flags) <==> LastFlag(flags, x).Some?
    ensures x in FlagOptions(flags) ==> FlagOptions(flags)[x] == LastFlag(flags, x).value
  {
    if flags != [] { LastFlagWins(flags[..|flags| - 1], x); }
  }

  method MergeCopy(m1: Params, m2: Params) returns (merged: Params)
    ensures merged == m1 + m2
  {
    merged := map[];
    var todo := m1.Keys;
    while todo != {}
      invariant todo <= m1.Keys && merged == m1 - todo
    {
      var k :| k in todo;
      merged, todo := merged[k := m1[k]], todo - {k};
    }
    todo := m2.Keys;
    while todo != {}
      invariant todo <= m2.Keys && merged == m1 + (m2 - todo)
    {
      var k :| k in todo;
      merged, todo := merged[k := m2[k]], todo - {k};
    }
  }

  /** The options that createAndMountFilesystem works with: the extracted ones with the mount flags over them. */
  method MountWith(req: Request, params: Params) returns (opts: Params)
    ensures opts == params + FlagOptions(if req.mountCap then req.mountFlags + (if req.readOnly then ["read-only"] else []) else [])
  {
    var flags := MountOptions(req);
    var fromFlags := ExtractVolumeMountOptions(flags);
    opts := MergeCopy(params, fromFlags);
  }

  // ---- precedence through the whole pipeline ----

  /** The options of the mount, for one order of the extraction loop. */
  function Effective(req: Request, order: seq<string>): Params
    requires forall i :: 0 <= i < |order| ==> order[i] in Merged(req)
  {
    Collect(Merged(req), order, PublishKey) + FlagOptions(MountFlags(req))
  }

  /** From the request to the options of its mount, or one of the three errors. */
  method EffectiveOptions(req: Request) returns (r: Checked<Params>)
    ensures r.Failure? <==> Missing(Merged(req)) || HasInvalidName(Merged(req))
    ensures r.Success? ==> exists order :: IsOrder(order, Merged(req)) && r == Success(Effective(req, order))
  {
    hide Missing, HasInvalidName, Collect, FlagOptions, Lookup;
    var params := MergeVolumeParameters(req);
    if req.mountCap && req.mountGroup != "" {
      params := params[GID := req.mountGroup][UID := req.mountGroup][ALLOW_OTHER := "true"];
    }
    assert params == Merged(req);
    hide Merged;
    var extracted := ExtractPublishParams(params);
    if extracted.Failure? {
      return Failure(extracted.error);
    }
    ghost var order :| IsOrder(order, params) && extracted.value == Extracted(params, order);
    var opts := MountWith(req, extracted.value.params);
    assert MountFlags(req) == if req.mountCap then req.mountFlags + (if req.readOnly then ["read-only"] else []) else [];
    assert opts == Effective(req, order);
    r := Success(opts);
  }

  /** No two merged names mean the same option. */
  ghost predicate NamesApart(req: Request) {
    forall j, k | Named(Merged(req), j) && Named(Merged(req), k) ::
      NormalizeRcloneFlag(j) == NormalizeRcloneFlag(k) ==> j == k
  }

  predicate Named(params: Params, k: string) {
    k in params && !Reserved(k)
  }

  /** The name in the map that means option x, if there is one. */
  ghost predicate Means(params: Params, k: string, x: string) {
    Named(params, k) && NormalizeRcloneFlag(k) == x
  }

  /** fsGroup is given, and x is one of the three options it sets. */
  predicate Grouped(req: Request, x: string) {
    req.mountCap && req.mountGroup != "" && (x == GID || x == UID || x == ALLOW_OTHER)
  }

  function GroupValue(req: Request, x: string): string {
    if x == ALLOW_OTHER then "true" else req.mountGroup
  }

  lemma GidNormal() ensures NormalizeRcloneFlag(GID) == GID { assert Normal(GID); NormalFixed(GID); }

  lemma UidNormal() ensures NormalizeRcloneFlag(UID) == UID { assert Normal(UID); NormalFixed(UID); }

  lemma AllowOtherNormal() ensures NormalizeRcloneFlag(ALLOW_OTHER) == ALLOW_OTHER {
    assert Normal(ALLOW_OTHER);
    NormalFixed(ALLOW_OTHER);
  }

  lemma GroupNamesNormal(req: Request, x: string)
    requires Grouped(req, x)
    ensures NormalizeRcloneFlag(x) == x && !Reserved(x)
  {
    hide NormalizeRcloneFlag;
    GidNormal();
    UidNormal();
    AllowOtherNormal();
  }

  lemma MergedValue(req: Request, k: string)
    ensures k in Merged(req) <==> Grouped(req, k) || k in req.volumeContext || k in req.secrets
    ensures Grouped(req, k) ==> Merged(req)[k] == GroupValue(req, k)
    ensures !Grouped(req, k) && k in req.volumeContext ==> Merged(req)[k] == req.volumeContext[k]
    ensures !Grouped(req, k) && k !in req.volumeContext && k in req.secrets ==> Merged(req)[k] == req.secrets[k]
  {
  }

  /** The publish is read-only, and x says so. */
  predicate ReadOnly(req: Request, x: string) {
    req.mountCap && req.readOnly && x == "read_only"
  }

  /** v is the value that option x should have: that of a read-only publish, else the last mount flag with that name, else
      the fsGroup value, else the volume context, else the secret. */
  ghost predicate Rightful(req: Request, x: string, v: string) {
    if ReadOnly(req, x) then v == "true"
    else if req.mountCap && LastFlag(req.mountFlags, x).Some? then v == LastFlag(req.mountFlags, x).value
    else if Grouped(req, x) then v == GroupValue(req, x)
    else if exists k :: Means(req.volumeContext, k, x) then
      exists k :: Means(req.volumeContext, k, x) && v == req.volumeContext[k]
    else exists k :: Means(req.secrets, k, x) && v == req.secrets[k]
  }

  /** Every option has its rightful value, for every map order; and an option that has one is there. */
  lemma Precedence(req: Request, order: seq<string>, x: string)
    requires NamesApart(req) && IsOrder(order, Merged(req))
    ensures x in Effective(req, order) <==> exists v :: Rightful(req, x, v)
    ensures x in Effective(req, order) ==> forall v :: Rightful(req, x, v) <==> v == Effective(req, order)[x]
  {
    var flags := MountFlags(req);
    LastFlagWins(flags, x);
    DecidingFlag(req, x);
    if LastFlag(flags, x).Some? {
      hide Collect, Merged, NamesApart, MountFlags, FlagOptions;
      assert Rightful(req, x, LastFlag(flags, x).value);
    } else {
      FromMerged(req, order, x);
      forall v | Rightful(req, x, v) ensures exists k :: Means(Merged(req), k, x) { RightfulIsMerged(req, x, v); }
      if k :| Means(Merged(req), k, x) { MergedRightful(req, x, k); }
      hide Collect, Merged, NamesApart, MountFlags, FlagOptions, Rightful, Means, LastFlag;
    }
  }

  /** Which flag decides, in terms of the request. */
  lemma DecidingFlag(req: Request, x: string)
    ensures LastFlag(MountFlags(req), x) ==
      if ReadOnly(req, x) then Some("true") else if req.mountCap then LastFlag(req.mountFlags, x) else None
  {
    ReadOnlyFlag();
    hide FlagName, FlagValue;
    if req.mountCap && req.readOnly { assert MountFlags(req)[..|req.mountFlags|] == req.mountFlags; }
  }

  /** The last flag of the request with a name decides its option, unless it is the one that a read-only publish sets. */
  lemma FlagDecides(req: Request, order: seq<string>, i: nat)
    requires IsOrder(order, Merged(req)) && req.mountCap && i < |req.mountFlags|
    requires forall j :: i < j < |req.mountFlags| ==> FlagName(req.mountFlags[j]) != FlagName(req.mountFlags[i])
    requires !(req.readOnly && FlagName(req.mountFlags[i]) == "read_only")
    ensures var x := FlagName(req.mountFlags[i]);
            x in Effective(req, order) && Effective(req, order)[x] == FlagValue(req.mountFlags[i])
  {
    var x := FlagName(req.mountFlags[i]);
    hide FlagName, FlagValue, Collect, Merged;
    LastFlagAt(req.mountFlags, x, i);
    DecidingFlag(req, x);
    LastFlagWins(MountFlags(req), x);
  }

  lemma {:induction false} LastFlagAt(flags: seq<string>, x: string, i: nat)
    requires i < |flags| && FlagName(flags[i]) == x && forall j :: i < j < |flags| ==> FlagName(flags[j]) != x
    ensures LastFlag(flags, x) == Some(FlagValue(flags[i]))
  {
    hide FlagName, FlagValue;
    if i < |flags| - 1 { LastFlagAt(flags[..|flags| - 1], x, i); }
  }

  /** An option that no flag names is the extracted one; without a mount capability no flag counts. */
  lemma NoFlagDecides(req: Request, order: seq<string>, x: string)
    requires IsOrder(order, Merged(req))
    requires req.mountCap ==> !(req.readOnly && x == "read_only") && forall i :: 0 <= i < |req.mountFlags| ==> FlagName(req.mountFlags[i]) != x
    ensures var options := Extracted(Merged(req), order).params;
            (x in Effective(req, order) <==> x in options) && (x in options ==> Effective(req, order)[x] == options[x])
  {
    hide FlagName, FlagValue, Collect, Merged;
    if req.mountCap { NoLastFlag(req.mountFlags, x); }
    DecidingFlag(req, x);
    LastFlagWins(MountFlags(req), x);
  }

  lemma {:induction false} NoLastFlag(flags: seq<string>, x: string)
    requires forall i :: 0 <= i < |flags| ==> FlagName(flags[i]) != x
    ensures LastFlag(flags, x) == None
  {
    hide FlagName, FlagValue;
    if flags != [] { NoLastFlag(flags[..|flags| - 1], x); }
  }

  /** Without a flag the option comes from the one merged name that means it. */
  lemma FromMerged(req: Request, order: seq<string>, x: string)
    requires NamesApart(req) && IsOrder(order, Merged(req))
    ensures var c := Collect(Merged(req), order, PublishKey);
            && (x in c <==> exists k :: Means(Merged(req), k, x))
            && (forall k :: Means(Merged(req), k, x) ==> x in c && c[x] == Merged(req)[k])
  {
    var m := Merged(req);
    CollectedFrom(m, order, PublishKey);
    assert forall k :: k in m && PublishKey(k) == Some(x) <==> Means(m, k, x);
    forall k | Means(m, k, x)
      ensures x in Collect(m, order, PublishKey) && Collect(m, order, PublishKey)[x] == m[k]
    {
      assert k in order && PublishKey(k) == Some(x);
    }
  }

  lemma OneMeaning(req: Request, j: string, k: string, x: string)
    requires NamesApart(req) && Means(Merged(req), j, x) && Means(Merged(req), k, x)
    ensures j == k
  {
  }

  lemma MeansMerged(req: Request, k: string, x: string)
    ensures Means(req.volumeContext, k, x) || Means(req.secrets, k, x) ==> Means(Merged(req), k, x)
    ensures Grouped(req, x) ==> Means(Merged(req), x, x)
  {
    MergedValue(req, k);
    MergedValue(req, x);
    if Grouped(req, x) { GroupNamesNormal(req, x); }
    hide NormalizeRcloneFlag, Merged, Grouped;
  }

  /** Every merged name has its rightful value. */
  lemma MergedRightful(req: Request, x: string, k: string)
    requires NamesApart(req) && LastFlag(MountFlags(req), x).None? && Means(Merged(req), k, x)
    ensures Rightful(req, x, Merged(req)[k])
    ensures forall v :: Rightful(req, x, v) ==> v == Merged(req)[k]
  {
    DecidingFlag(req, x);
    MergedValue(req, k);
    MeansMerged(req, k, x);
    if Grouped(req, x) { OneMeaning(req, k, x, x); }
    if Grouped(req, k) { GroupNamesNormal(req, k); }
    forall j | Means(req.volumeContext, j, x) || Means(req.secrets, j, x)
      ensures j == k
    {
      MeansMerged(req, j, x);
      OneMeaning(req, j, k, x);
    }
    hide NormalizeRcloneFlag, Merged, LastFlag, MountFlags, Grouped, NamesApart, GroupValue, Reserved;
  }

  lemma RightfulIsMerged(req: Request, x: string, v: string)
    requires LastFlag(MountFlags(req), x).None? && Rightful(req, x, v)
    ensures exists k :: Means(Merged(req), k, x)
  {
    DecidingFlag(req, x);
    hide NormalizeRcloneFlag, Merged, LastFlag, MountFlags, Grouped, Means, GroupValue, Reserved;
    if Grouped(req, x) {
      MeansMerged(req, x, x);
    } else if k :| Means(req.volumeContext, k, x) {
      MeansMerged(req, k, x);
    } else {
      var k :| Means(req.secrets, k, x);
      MeansMerged(req, k, x);
    }
  }

  lemma ReadOnlyFlag()
    ensures FlagName("read-only") == "read_only" && FlagValue("read-only") == "true"
  {
    hide NormalizeRcloneFlag, IndexOf, TrimPrefix;
    var flag := "read-only";
    assert '=' !in flag[..|flag|] && flag[..|flag|] == flag;
    IndexOfIs(flag, '=', |flag|);
    NormalizeIs(flag, "read_only");
  }

  lemma NormalizeIs(key: string, x: string)
    requires key != "" && key[0] != '-' && |x| == |key|
    requires forall i :: 0 <= i < |key| ==> if key[i] == '-' then x[i] == '_' else x[i] == key[i] && !('A' <= key[i] <= 'Z')
    ensures NormalizeRcloneFlag(key) == x
  {
    ReplaceAllChar(key, '-', '_');
    hide ReplaceAll;
  }

  /** A read-only publish mounts read-only, whatever secrets, volume context and flags say. */
  lemma ReadOnlyAlwaysWins(req: Request, order: seq<string>)
    requires req.mountCap && req.readOnly && IsOrder(order, Merged(req))
    ensures "read_only" in Effective(req, order) && Effective(req, order)["read_only"] == "true"
  {
    var flags := MountFlags(req);
    assert flags[|flags| - 1] == "read-only";
    ReadOnlyFlag();
    hide FlagName, FlagValue, Collect, Merged;
    LastFlagWins(flags, "read_only");
  }
}

/** CreateVolume, and that what it promises in the volume context is what a later publish mounts. */
module Controller {
  import opened Options
  import opened GoStrings
  import opened MapLoops
  import opened Templates
  import opened Parameters

  const PVC_NAME_KEY := "csi.storage.k8s.io/pvc/name"
  const PVC_NAMESPACE_KEY := "csi.storage.k8s.io/pvc/namespace"
  const PV_NAME_KEY := "csi.storage.k8s.io/pv/name"

  /** The lower-case forms of remote, remotePath and configData. */
  const REMOTE_LOWER := "remote"
  const REMOTE_PATH_LOWER := "remotepath"
  const CONFIG_DATA_LOWER := "configdata"

  datatype Capability = MountCapability | BlockCapability

  datatype CreateRequest = CreateRequest(name: string, capabilities: seq<Capability>, parameters: Params)

  datatype CreateError = NameMissing | CapabilitiesMissing | BlockNotSupported

  datatype Created = Created(volumeId: string, volumeContext: Params) | Rejected(error: CreateError)

  // ---- the scan of the parameters ----

  /** Parameter names are compared without case and outer whitespace. */
  function Kind(k: string): string {
    ToLower(TrimSpace(k))
  }

  /** What a parameter is for; Variable names the template variable that it gives a value to. */
  datatype Role = Remote | Path | Config | Variable(name: string) | Unknown

  function RoleOf(k: string): Role {
    var kind := Kind(k);
    if kind == REMOTE_LOWER then Remote
    else if kind == REMOTE_PATH_LOWER then Path
    else if kind == CONFIG_DATA_LOWER then Config
    else if kind == PVC_NAMESPACE_KEY then Variable(PVC_NAMESPACE)
    else if kind == PVC_NAME_KEY then Variable(PVC_NAME)
    else if kind == PV_NAME_KEY then Variable(PV_NAME)
    else Unknown
  }

  datatype Scan = Scan(remote: string, remotePath: string, replace: Params)

  function ScanOne(s: Scan, k: string, v: string): Scan {
    match RoleOf(k)
    case Remote => s.(remote := TrimSpace(v))
    case Path => s.(remotePath := TrimSpace(v))
    case Config => s
    case Variable(x) => s.(replace := s.replace[x := TrimSpace(v)])
    case Unknown => s
  }

  function ScanAll(params: Params, order: seq<string>): Scan
    requires forall i :: 0 <= i < |order| ==> order[i] in params
  {
    if order == [] then Scan("", "", map[])
    else
      var n := |order| - 1;
      ScanOne(ScanAll(params, order[..n]), order[n], params[order[n]])
  }

  lemma ScanNext(params: Params, order: seq<string>, k: string)
    requires (forall i :: 0 <= i < |order| ==> order[i] in params) && k in params
    ensures ScanAll(params, order + [k]) == ScanOne(ScanAll(params, order), k, params[k])
  {
    hide ScanOne;
    assert (order + [k])[..|order|] == order;
  }

  method ScanParameters(params: Params) returns (s: Scan)
    ensures exists order :: IsOrder(order, params) && s == ScanAll(params, order)
  {
    hide ScanOne, RoleOf, Kind;
    s := Scan("", "", map[]);
    ghost var order: seq<string> := [];
    assert s == ScanAll(params, order);
    hide ScanAll;
    var todo := params.Keys;
    while todo != {}
      invariant Visited(order, params, todo) && (todo == {} ==> IsOrder(order, params))
      invariant forall i :: 0 <= i < |order| ==> order[i] in params
      invariant s == ScanAll(params, order)
      decreases |todo|
    {
      var k :| k in todo;
      VisitOne(order, params, todo, k);
      hide Visited, IsOrder;
      s := ScanOne(s, k, params[k]);
      ScanNext(params, order, k);
      todo, order := todo - {k}, order + [k];
    }
  }

  // ---- CreateVolume ----

  function VolumeId(remote: string, name: string): string {
    if remote != "" then remote + "#" + name else name
  }

  predicate HasBlock(capabilities: seq<Capability>) {
    BlockCapability in capabilities
  }

  /** The path that goes into the context: the substituted one, unless that is empty. */
  function Context(params: Params, path: string): Params {
    if path != "" then params[REMOTE_PATH := path] else params
  }

  method Validate(req: CreateRequest) returns (r: Option<CreateError>)
    ensures req.name == "" ==> r == Some(NameMissing)
    ensures req.name != "" && req.capabilities == [] ==> r == Some(CapabilitiesMissing)
    ensures req.name != "" && HasBlock(req.capabilities) ==> r == Some(BlockNotSupported)
    ensures r.None? <==> req.name != "" && req.capabilities != [] && !HasBlock(req.capabilities)
  {
    if req.name == "" {
      return Some(NameMissing);
    }
    if req.capabilities == [] {
      return Some(CapabilitiesMissing);
    }
    for i := 0 to |req.capabilities|
      invariant forall j :: 0 <= j < i ==> req.capabilities[j] != BlockCapability
    {
      if req.capabilities[i].BlockCapability? {
        return Some(BlockNotSupported);
      }
    }
    r := None;
  }

  /** What a successful call returns, for the orders of its two map loops. */
  function Promise(req: CreateRequest, order: seq<string>, passes: seq<string>): Created
    requires forall i :: 0 <= i < |order| ==> order[i] in req.parameters
    requires forall i :: 0 <= i < |passes| ==> passes[i] in ScanAll(req.parameters, order).replace
  {
    var s := ScanAll(req.parameters, order);
    Created(VolumeId(s.remote, req.name), Context(req.parameters, ReplaceInOrder(s.remotePath, passes, s.replace)))
  }

  lemma {:induction false} ReplaceNothing(m: Params, order: seq<string>)
    requires forall i :: 0 <= i < |order| ==> order[i] in m
    ensures ReplaceInOrder("", order, m) == ""
  {
    if order != [] { ReplaceNothing(m, order[..|order| - 1]); }
  }

  ghost predicate Orders(req: CreateRequest, order: seq<string>, passes: seq<string>) {
    IsOrder(order, req.parameters) && IsOrder(passes, ScanAll(req.parameters, order).replace)
  }

  method CreateVolume(req: CreateRequest) returns (r: Created)
    ensures r.Created? <==> req.name != "" && req.capabilities != [] && !HasBlock(req.capabilities)
    ensures r.Created? ==> exists order, passes :: Orders(req, order, passes) && r == Promise(req, order, passes)
  {
    hide ScanAll, ReplaceInOrder, VolumeId;
    var invalid := Validate(req);
    if invalid.Some? {
      return Rejected(invalid.value);
    }
    var s := ScanParameters(req.parameters);
    ghost var order :| IsOrder(order, req.parameters) && s == ScanAll(req.parameters, order);
    var remotePath := s.remotePath;
    ghost var passes := SomeOrder(s.replace.Keys);
    if remotePath != "" {
      remotePath := ReplaceWithMap(remotePath, s.replace);
      ghost var p :| IsOrder(p, s.replace) && remotePath == ReplaceInOrder(s.remotePath, p, s.replace);
      passes := p;
    } else {
      ReplaceNothing(s.replace, passes);
    }
    assert Orders(req, order, passes);
    var context := MergeCopy(map[], req.parameters);
    assert context == req.parameters;
    if remotePath != "" {
      context := context[REMOTE_PATH := remotePath];
    }
    r := Created(VolumeId(s.remote, req.name), context);
    assert r == Promise(req, order, passes);
  }

  // ---- what the scan finds ----

  /** No two parameter names are equal up to case and outer whitespace. */
  ghost predicate KindsApart(params: Params) {
    forall j, k | j in params && k in params :: ToLower(TrimSpace(j)) == ToLower(TrimSpace(k)) ==> j == k
  }

  /** No two parameters have the same role. */
  ghost predicate RolesApart(params: Params) {
    forall j, k | j in params && k in params :: RoleOf(j) == RoleOf(k) && RoleOf(k) != Unknown ==> j == k
  }

  lemma SameRole(j: string, k: string)
    requires RoleOf(j) == RoleOf(k) && RoleOf(k) != Unknown
    ensures Kind(j) == Kind(k)
  {
    hide Kind, ToLower;
    assert PVC_NAME[6] != PVC_NAMESPACE[6] || |PVC_NAME| != |PVC_NAMESPACE|;
    assert |PV_NAME| < |PVC_NAME| < |PVC_NAMESPACE|;
  }

  lemma KindsRoles(params: Params)
    requires KindsApart(params)
    ensures RolesApart(params)
  {
    hide ToLower, TrimSpace, RoleOf;
    forall j, k | j in params && k in params && RoleOf(j) == RoleOf(k) && RoleOf(k) != Unknown
      ensures j == k
    {
      SameRole(j, k);
    }
  }

  lemma {:induction false} ScanFindsRemote(params: Params, order: seq<string>, k: string)
    requires (forall i :: 0 <= i < |order| ==> order[i] in params) && RolesApart(params)
    requires k in params && RoleOf(k) == Remote
    ensures ScanAll(params, order).remote == if k in order then TrimSpace(params[k]) else ""
  {
    hide RoleOf, TrimSpace;
    if order != [] {
      var n := |order| - 1;
      ScanFindsRemote(params, order[..n], k);
      assert order == order[..n] + [order[n]];
    }
  }

  lemma {:induction false} ScanFindsPath(params: Params, order: seq<string>, k: string)
    requires (forall i :: 0 <= i < |order| ==> order[i] in params) && RolesApart(params)
    requires k in params && RoleOf(k) == Path
    ensures ScanAll(params, order).remotePath == if k in order then TrimSpace(params[k]) else ""
  {
    hide RoleOf, TrimSpace;
    if order != [] {
      var n := |order| - 1;
      ScanFindsPath(params, order[..n], k);
      assert order == order[..n] + [order[n]];
    }
  }

  /** The values that the parameters in the order give to the template variables. */
  ghost predicate Metadata(m: Params, params: Params, order: seq<string>)
    requires forall i :: 0 <= i < |order| ==> order[i] in params
  {
    && (forall x :: x in m ==> exists k :: k in order && RoleOf(k) == Variable(x))
    && (forall i | 0 <= i < |order| && RoleOf(order[i]).Variable? ::
          var x := RoleOf(order[i]).name; x in m && m[x] == TrimSpace(params[order[i]]))
  }

  lemma {:induction false} ScanFindsMetadata(params: Params, order: seq<string>)
    requires (forall i :: 0 <= i < |order| ==> order[i] in params) && RolesApart(params)
    ensures Metadata(ScanAll(params, order).replace, params, order)
  {
    hide RoleOf, TrimSpace;
    if order != [] {
      var n := |order| - 1;
      ScanFindsMetadata(params, order[..n]);
      var before, last := ScanAll(params, order[..n]).replace, order[n];
      assert order == order[..n] + [last];
      hide ScanAll, Metadata, RolesApart;
      ScanNext(params, order[..n], last);
      MetadataNext(before, params, order[..n], last);
    }
  }

  lemma MetadataNext(before: Params, params: Params, order: seq<string>, last: string)
    requires (forall i :: 0 <= i < |order| ==> order[i] in params) && RolesApart(params) && last in params
    requires Metadata(before, params, order)
    ensures var role := RoleOf(last);
            Metadata(if role.Variable? then before[role.name := TrimSpace(params[last])] else before, params, order + [last])
  {
    hide RoleOf, TrimSpace;
    var role, all := RoleOf(last), order + [last];
    var now := if role.Variable? then before[role.name := TrimSpace(params[last])] else before;
    forall x | x in now
      ensures exists k :: k in all && RoleOf(k) == Variable(x)
    {
      if x in before {
        var k :| k in order && RoleOf(k) == Variable(x);
        assert k in all;
      } else {
        assert last in all;
      }
    }
  }

  /** Parameter k has this name, up to case and outer whitespace. */
  predicate HasName(params: Params, k: string, name: string) {
    k in params && ToLower(TrimSpace(k)) == name
  }

  /** The value of the parameter with this name, without outer whitespace, or nothing if there is none. */
  ghost predicate ValueIs(params: Params, name: string, value: string) {
    && (forall k :: HasName(params, k, name) ==> value == TrimSpace(params[k]))
    && ((forall k :: !HasName(params, k, name)) ==> value == "")
  }

  /** The variable has the value of the parameter with this name, and none if there is no such parameter. */
  ghost predicate Fills(m: Params, variable: string, params: Params, name: string) {
    && (variable in m <==> exists k :: HasName(params, k, name))
    && (forall k :: HasName(params, k, name) ==> variable in m && m[variable] == TrimSpace(params[k]))
  }

  /** The three template variables have the values of the three parameters of the provisioner, and there is no other. */
  ghost predicate Filled(m: Params, params: Params) {
    && Fills(m, "${pvc.metadata.name}", params, "csi.storage.k8s.io/pvc/name")
    && Fills(m, "${pvc.metadata.namespace}", params, "csi.storage.k8s.io/pvc/namespace")
    && Fills(m, "${pv.metadata.name}", params, "csi.storage.k8s.io/pv/name")
    && m.Keys <= {"${pvc.metadata.name}", "${pvc.metadata.namespace}", "${pv.metadata.name}"}
  }

  lemma LiteralRoles(k: string)
    ensures RoleOf(k) == Remote <==> ToLower(TrimSpace(k)) == "remote"
    ensures RoleOf(k) == Path <==> ToLower(TrimSpace(k)) == "remotepath"
  {
    hide ToLower, TrimSpace;
    assert |REMOTE_LOWER| < |REMOTE_PATH_LOWER|;
  }

  lemma LiteralVariables(k: string)
    ensures RoleOf(k) == Variable("${pvc.metadata.name}") <==> ToLower(TrimSpace(k)) == "csi.storage.k8s.io/pvc/name"
    ensures RoleOf(k) == Variable("${pvc.metadata.namespace}") <==> ToLower(TrimSpace(k)) == "csi.storage.k8s.io/pvc/namespace"
    ensures RoleOf(k) == Variable("${pv.metadata.name}") <==> ToLower(TrimSpace(k)) == "csi.storage.k8s.io/pv/name"
  {
    hide ToLower, TrimSpace;
    assert |REMOTE_LOWER| < |REMOTE_PATH_LOWER| < |PV_NAME_KEY| < |PVC_NAME_KEY| < |PVC_NAMESPACE_KEY|;
    assert |CONFIG_DATA_LOWER| < |PV_NAME_KEY|;
    assert |PV_NAME| < |PVC_NAME| < |PVC_NAMESPACE|;
  }

  lemma FillsVariable(m: Params, params: Params, order: seq<string>, variable: string, name: string)
    requires IsOrder(order, params) && Metadata(m, params, order)
    requires forall k :: RoleOf(k) == Variable(variable) <==> ToLower(TrimSpace(k)) == name
    ensures Fills(m, variable, params, name)
  {
    hide RoleOf, ToLower, TrimSpace;
    forall k | HasName(params, k, name)
      ensures variable in m && m[variable] == TrimSpace(params[k])
    {
      assert k in order && RoleOf(k) == Variable(variable);
      var i :| 0 <= i < |order| && order[i] == k;
      assert RoleOf(order[i]).Variable?;
    }
    if variable in m {
      var k :| k in order && RoleOf(k) == Variable(variable);
      assert HasName(params, k, name);
    }
  }

  /** For parameters with different names the scan finds the remote, the path and exactly the metadata that are given,
      in every map order. */
  lemma ScanExactly(params: Params, order: seq<string>)
    requires KindsApart(params) && IsOrder(order, params)
    ensures ValueIs(params, "remote", ScanAll(params, order).remote)
    ensures ValueIs(params, "remotepath", ScanAll(params, order).remotePath)
    ensures Filled(ScanAll(params, order).replace, params)
  {
    hide RoleOf, ToLower, TrimSpace, ScanAll, KindsApart, RolesApart, Metadata, Fills;
    KindsRoles(params);
    forall k { LiteralRoles(k); }
    ScanRemote(params, order);
    ScanPath(params, order);
    ScanVariables(params, order);
  }

  lemma ScanRemote(params: Params, order: seq<string>)
    requires RolesApart(params) && IsOrder(order, params)
    requires forall k :: RoleOf(k) == Remote <==> ToLower(TrimSpace(k)) == "remote"
    ensures ValueIs(params, "remote", ScanAll(params, order).remote)
  {
    hide RoleOf, ToLower, TrimSpace, RolesApart;
    if k :| k in params && RoleOf(k) == Remote {
      ScanFindsRemote(params, order, k);
      OnlyRole(params, k);
      assert HasName(params, k, "remote");
    } else {
      NoRemote(params, order);
    }
  }

  lemma ScanPath(params: Params, order: seq<string>)
    requires RolesApart(params) && IsOrder(order, params)
    requires forall k :: RoleOf(k) == Path <==> ToLower(TrimSpace(k)) == "remotepath"
    ensures ValueIs(params, "remotepath", ScanAll(params, order).remotePath)
  {
    hide RoleOf, ToLower, TrimSpace, RolesApart;
    if k :| k in params && RoleOf(k) == Path {
      ScanFindsPath(params, order, k);
      OnlyRole(params, k);
      assert HasName(params, k, "remotepath");
    } else {
      NoPath(params, order);
    }
  }

  lemma OnlyRole(params: Params, k: string)
    requires RolesApart(params) && k in params && RoleOf(k) != Unknown
    ensures forall j :: j in params && RoleOf(j) == RoleOf(k) ==> j == k
  {
    hide RoleOf;
  }

  lemma {:induction false} NoRemote(params: Params, order: seq<string>)
    requires (forall i :: 0 <= i < |order| ==> order[i] in params) && forall k :: k in params ==> RoleOf(k) != Remote
    ensures ScanAll(params, order).remote == ""
  {
    hide RoleOf, TrimSpace;
    if order != [] { NoRemote(params, order[..|order| - 1]); }
  }

  lemma {:induction false} NoPath(params: Params, order: seq<string>)
    requires (forall i :: 0 <= i < |order| ==> order[i] in params) && forall k :: k in params ==> RoleOf(k) != Path
    ensures ScanAll(params, order).remotePath == ""
  {
    hide RoleOf, TrimSpace;
    if order != [] { NoPath(params, order[..|order| - 1]); }
  }

  lemma ScanVariables(params: Params, order: seq<string>)
    requires RolesApart(params) && IsOrder(order, params)
    ensures Filled(ScanAll(params, order).replace, params)
  {
    hide RoleOf, ToLower, TrimSpace, ScanAll, RolesApart, Metadata, Fills;
    var m := ScanAll(params, order).replace;
    ScanFindsMetadata(params, order);
    forall k { LiteralVariables(k); }
    FillsVariable(m, params, order, "${pvc.metadata.name}", "csi.storage.k8s.io/pvc/name");
    FillsVariable(m, params, order, "${pvc.metadata.namespace}", "csi.storage.k8s.io/pvc/namespace");
    FillsVariable(m, params, order, "${pv.metadata.name}", "csi.storage.k8s.io/pv/name");
    OnlyVariables(m, params, order);
  }

  lemma OnlyVariables(m: Params, params: Params, order: seq<string>)
    requires (forall i :: 0 <= i < |order| ==> order[i] in params) && Metadata(m, params, order)
    ensures m.Keys <= {"${pvc.metadata.name}", "${pvc.metadata.namespace}", "${pv.metadata.name}"}
  {
    hide RoleOf, TrimSpace;
    forall x | x in m
      ensures x in {"${pvc.metadata.name}", "${pvc.metadata.namespace}", "${pv.metadata.name}"}
    {
      var k :| k in order && RoleOf(k) == Variable(x);
      VariableRole(k);
    }
  }

  /** The three parameters that the provisioner adds. */
  predicate IsMetadata(k: string) {
    ToLower(TrimSpace(k)) in ["csi.storage.k8s.io/pvc/name", "csi.storage.k8s.io/pvc/namespace", "csi.storage.k8s.io/pv/name"]
  }

  lemma MetadataRole(k: string)
    ensures RoleOf(k).Variable? ==> IsMetadata(k)
  {
    hide ToLower, TrimSpace;
  }

  lemma VariableRole(k: string)
    ensures RoleOf(k).Variable? ==> IsVar(RoleOf(k).name)
  {
    hide Kind, ToLower;
  }

  /** Every parameter as it is and no other, but for the path, which is the substituted one unless that is empty. */
  ghost predicate KeepsAll(c: Params, params: Params, path: string) {
    && (forall k :: k != "remotePath" ==> (k in c <==> k in params) && (k in c ==> c[k] == params[k]))
    && (if path != "" then "remotePath" in c && c["remotePath"] == path else c == params)
  }

  lemma ContextKeepsAll(params: Params, path: string)
    ensures KeepsAll(Context(params, path), params, path)
  {
  }

  /** The remote's name and the volume's, or the volume's alone when no remote is given. */
  ghost predicate Identifies(id: string, params: Params, name: string) {
    exists remote :: ValueIs(params, "remote", remote) && id == if remote != "" then remote + "#" + name else name
  }

  /** What is promised, in the words of the parameters, for all map orders. */
  lemma PromiseExactly(req: CreateRequest, order: seq<string>, passes: seq<string>)
    requires KindsApart(req.parameters) && Orders(req, order, passes)
    ensures KeepsAll(Promise(req, order, passes).volumeContext, req.parameters, SubstitutedPath(req, order, passes))
    ensures Identifies(Promise(req, order, passes).volumeId, req.parameters, req.name)
  {
    hide ScanAll, ReplaceInOrder, KindsApart, IsOrder, Filled, ValueIs, KeepsAll, Context;
    ScanExactly(req.parameters, order);
    ContextKeepsAll(req.parameters, SubstitutedPath(req, order, passes));
  }

  /** There is only one such value, so only one ID. */
  lemma OneValue(params: Params, name: string, v: string, w: string)
    requires ValueIs(params, name, v) && ValueIs(params, name, w)
    ensures v == w
  {
    hide ToLower, TrimSpace;
    if k :| HasName(params, k, name) {
      assert v == TrimSpace(params[k]) && w == TrimSpace(params[k]);
    }
  }

  /** The path of the parameters with the variables replaced one after the other. */
  ghost function SubstitutedPath(req: CreateRequest, order: seq<string>, passes: seq<string>): string
    requires Orders(req, order, passes)
  {
    ReplaceInOrder(ScanAll(req.parameters, order).remotePath, passes, ScanAll(req.parameters, order).replace)
  }

  // ---- what a publish mounts ----

  function FsPath(remoteName: string, remotePath: string): string {
    if remotePath != "" then remoteName + ":" + remotePath else remoteName + ":"
  }

  /** The volume context's value, else that of the secret. */
  function ContextOrSecret(pub: Request, k: string): string {
    if k in pub.volumeContext then pub.volumeContext[k] else if k in pub.secrets then pub.secrets[k] else ""
  }

  /** What to mount is in the volume context, or else in the secrets; fsGroup and mount flags have no part in it. */
  lemma ContextDecides(pub: Request, order: seq<string>)
    requires IsOrder(order, Merged(pub))
    ensures var e := Extracted(Merged(pub), order);
      && e.remoteName == ContextOrSecret(pub, "remote") && e.remotePath == ContextOrSecret(pub, "remotePath")
      && e.configData == ContextOrSecret(pub, "configData") && e.remoteType == ContextOrSecret(pub, "remoteType")
  {
    MergedValue(pub, REMOTE);
    MergedValue(pub, REMOTE_PATH);
    MergedValue(pub, CONFIG_DATA);
    MergedValue(pub, REMOTE_TYPE);
    hide Merged, Collect;
  }

  lemma LowerNames()
    ensures ToLower(REMOTE) == REMOTE_LOWER && ToLower(REMOTE_PATH) == REMOTE_PATH_LOWER
    ensures ToLower(CONFIG_DATA) == CONFIG_DATA_LOWER
  {
    hide ToLower;
    assert ToLower(REMOTE) == REMOTE_LOWER;
    assert ToLower(REMOTE_PATH) == REMOTE_PATH_LOWER;
    assert ToLower(CONFIG_DATA) == CONFIG_DATA_LOWER;
  }

  lemma RemoteKinds()
    ensures Kind(REMOTE) == REMOTE_LOWER && Kind(REMOTE_PATH) == REMOTE_PATH_LOWER
  {
    hide ToLower, TrimSpace;
    LowerNames();
    TrimTrimmed(REMOTE);
    TrimTrimmed(REMOTE_PATH);
  }

  lemma RemoteRoles()
    ensures RoleOf(REMOTE) == Remote && RoleOf(REMOTE_PATH) == Path
  {
    hide Kind, ToLower, TrimSpace;
    RemoteKinds();
    assert |REMOTE_LOWER| != |REMOTE_PATH_LOWER|;
  }

  /** A non-empty value without outer whitespace, under exactly this name. */
  predicate Given(params: Params, k: string) {
    k in params && params[k] != "" && Trimmed(params[k])
  }

  lemma ScanFindsBoth(params: Params, order: seq<string>, k: string, l: string)
    requires KindsApart(params) && IsOrder(order, params) && Given(params, k) && Given(params, l)
    requires RoleOf(k) == Remote && RoleOf(l) == Path
    ensures ScanAll(params, order).remote == params[k] && ScanAll(params, order).remotePath == params[l]
  {
    hide RoleOf, TrimSpace, KindsApart, RolesApart, ScanAll;
    TrimTrimmed(params[k]);
    TrimTrimmed(params[l]);
    hide Trimmed;
    KindsRoles(params);
    ScanFindsRemote(params, order, k);
    ScanFindsPath(params, order, l);
  }

  /** Everything of one context is in the other. */
  ghost predicate Includes(context: Params, promised: Params) {
    forall k :: k in promised ==> k in context && context[k] == promised[k]
  }

  /** A publish whose volume context has what a CreateVolume has returned, and whatever else the kubelet adds, such as the
      pod, with any secrets, fsGroup and flags.  The parameters of the CreateVolume give remote and path under their exact
      names. */
  ghost predicate Follows(req: CreateRequest, order: seq<string>, passes: seq<string>, pub: Request, o: seq<string>) {
    && KindsApart(req.parameters) && Given(req.parameters, REMOTE) && Given(req.parameters, REMOTE_PATH)
    && IsOrder(order, req.parameters) && IsOrder(passes, ScanAll(req.parameters, order).replace)
    && Includes(pub.volumeContext, Promise(req, order, passes).volumeContext) && IsOrder(o, Merged(pub))
  }

  /** The path that CreateVolume puts together. */
  ghost function Replaced(req: CreateRequest, order: seq<string>, passes: seq<string>): string
    requires REMOTE_PATH in req.parameters
    requires IsOrder(order, req.parameters) && IsOrder(passes, ScanAll(req.parameters, order).replace)
  {
    ReplaceInOrder(req.parameters[REMOTE_PATH], passes, ScanAll(req.parameters, order).replace)
  }

  /** What the publish mounts. */
  ghost function Mounted(pub: Request, o: seq<string>): string
    requires IsOrder(o, Merged(pub))
  {
    FsPath(Extracted(Merged(pub), o).remoteName, Extracted(Merged(pub), o).remotePath)
  }

  /** The context names the remote, and the path if it is not empty, otherwise the path as given. */
  predicate Carries(c: Params, params: Params, path: string) {
    && REMOTE in c && REMOTE in params && c[REMOTE] == params[REMOTE]
    && REMOTE_PATH in c && REMOTE_PATH in params && c[REMOTE_PATH] == if path != "" then path else params[REMOTE_PATH]
  }

  lemma ContextHas(req: CreateRequest, order: seq<string>, passes: seq<string>)
    requires KindsApart(req.parameters) && Given(req.parameters, REMOTE) && Given(req.parameters, REMOTE_PATH)
    requires IsOrder(order, req.parameters) && IsOrder(passes, ScanAll(req.parameters, order).replace)
    ensures Carries(Promise(req, order, passes).volumeContext, req.parameters, Replaced(req, order, passes))
  {
    hide RoleOf, KindsApart, ScanAll, ReplaceInOrder, VolumeId, Trimmed;
    RemoteRoles();
    ScanFindsBoth(req.parameters, order, REMOTE, REMOTE_PATH);
    assert |REMOTE| != |REMOTE_PATH|;
  }

  lemma FsPathOf(remote: string, path: string)
    ensures FsPath(remote, path) == remote + ":" + path
  {
  }

  /** What CreateVolume promises is what the publish mounts, exactly when the substituted path is not empty; an empty
      one leaves the template itself. */
  lemma PublishMountsWhatWasPromised(req: CreateRequest, order: seq<string>, passes: seq<string>, pub: Request, o: seq<string>)
    requires Follows(req, order, passes, pub, o)
    ensures var remote, path := req.parameters[REMOTE] + ":", Replaced(req, order, passes);
            && (Mounted(pub, o) == remote + path <==> path != "")
            && (path == "" ==> Mounted(pub, o) == remote + req.parameters[REMOTE_PATH])
  {
    hide KindsApart, ScanAll, Merged, Promise, Replaced, Trimmed, IsOrder;
    ContextHas(req, order, passes);
    ContextDecides(pub, o);
    hide Extracted, FsPath;
    var remote, path, raw := req.parameters[REMOTE], Replaced(req, order, passes), req.parameters[REMOTE_PATH];
    FsPathOf(remote, path);
    FsPathOf(remote, raw);
    assert (remote + ":" + path)[|remote| + 1..] == path && (remote + ":" + raw)[|remote| + 1..] == raw;
  }

  lemma MetadataPlain(m: Params, params: Params, order: seq<string>)
    requires (forall i :: 0 <= i < |order| ==> order[i] in params) && Metadata(m, params, order)
    requires forall k :: k in params && RoleOf(k).Variable? ==> '$' !in TrimSpace(params[k])
    ensures forall x :: x in m ==> IsVar(x) && '$' !in m[x]
  {
    hide RoleOf, TrimSpace, IsVar;
    forall x | x in m
      ensures IsVar(x) && '$' !in m[x]
    {
      var k :| k in order && RoleOf(k) == Variable(x);
      VariableRole(k);
      var i :| 0 <= i < |order| && order[i] == k;
      assert m[x] == TrimSpace(params[order[i]]);
    }
  }

  /** For a template with the three variables and metadata without '$', the substituted path has all variables replaced
      at once, by the metadata that the parameters give. */
  lemma ReplacedIsSubstituted(req: CreateRequest, order: seq<string>, passes: seq<string>, t: Template)
    requires KindsApart(req.parameters) && REMOTE_PATH in req.parameters
    requires IsOrder(order, req.parameters) && IsOrder(passes, ScanAll(req.parameters, order).replace)
    requires req.parameters[REMOTE_PATH] == Render(t) && WellFormed(t)
    requires forall k :: k in req.parameters && IsMetadata(k) ==> '$' !in TrimSpace(req.parameters[k])
    ensures Filled(ScanAll(req.parameters, order).replace, req.parameters)
    ensures Replaced(req, order, passes) == Substitute(t, ScanAll(req.parameters, order).replace)
  {
    hide KindsApart, RolesApart, RoleOf, ReplaceInOrder, WellFormed, Render, Substitute, TrimSpace, ScanAll, Metadata, Filled, IsMetadata;
    forall k { MetadataRole(k); }
    KindsRoles(req.parameters);
    ScanVariables(req.parameters, order);
    ScanFindsMetadata(req.parameters, order);
    var m := ScanAll(req.parameters, order).replace;
    MetadataPlain(m, req.parameters, order);
    hide InertMap;
    NoDollarInertMap(m);
    OrderDoesNotMatter(t, m, passes);
  }

  // ---- volume IDs ----

  lemma LastHash(remote: string, name: string)
    requires '#' !in name
    ensures var id := remote + "#" + name; id[|remote|] == '#' && forall i :: |remote| < i < |id| ==> id[i] != '#'
  {
    var id := remote + "#" + name;
    forall i | |remote| < i < |id| ensures id[i] != '#' { assert id[i] == name[i - |remote| - 1]; }
  }

  lemma SplitAtHash(remote: string, name: string)
    ensures var id := remote + "#" + name; id[..|remote|] == remote && id[|remote| + 1..] == name
  {
  }

  /** For names without '#', volume IDs are the same exactly when remote and name are. */
  lemma VolumeIdInjective(r1: string, n1: string, r2: string, n2: string)
    requires '#' !in n1 && '#' !in n2
    ensures VolumeId(r1, n1) == VolumeId(r2, n2) <==> r1 == r2 && n1 == n2
  {
    LastHash(r1, n1);
    LastHash(r2, n2);
    SplitAtHash(r1, n1);
    SplitAtHash(r2, n2);
  }

  /** The second name is the end of the first one, and the first remote is the beginning of the second one. */
  ghost predicate Overlap(r1: string, n1: string, r2: string, n2: string) {
    (r1 == "" && r2 != "" && n1 == r2 + "#" + n2)
    || (r1 != "" && exists x :: r2 == r1 + "#" + x && n1 == x + "#" + n2)
  }

  /** For all names: two different volumes have the same ID exactly when they overlap at a '#' in a name. */
  lemma VolumeIdClashExactly(r1: string, n1: string, r2: string, n2: string)
    ensures VolumeId(r1, n1) == VolumeId(r2, n2) <==>
      (r1 == r2 && n1 == n2) || Overlap(r1, n1, r2, n2) || Overlap(r2, n2, r1, n1)
  {
    if VolumeId(r1, n1) == VolumeId(r2, n2) && r1 != "" && r2 != "" {
      if |r1| <= |r2| { Overlaps(r1, n1, r2, n2); } else { Overlaps(r2, n2, r1, n1); }
    }
    if Overlap(r1, n1, r2, n2) { OverlapClashes(r1, n1, r2, n2); }
    if Overlap(r2, n2, r1, n1) { OverlapClashes(r2, n2, r1, n1); }
  }

  lemma Overlaps(r1: string, n1: string, r2: string, n2: string)
    requires r1 != "" && |r1| <= |r2| && r1 + "#" + n1 == r2 + "#" + n2
    ensures (r1 == r2 && n1 == n2) || Overlap(r1, n1, r2, n2)
  {
    var id := r1 + "#" + n1;
    SplitAtHash(r1, n1);
    SplitAtHash(r2, n2);
    if |r1| == |r2| {
      assert r1 == r2;
    } else {
      assert id[|r1|] == '#';
      var x := id[|r1| + 1..|r2|];
      assert r2 == r1 + "#" + x;
      assert n1 == x + "#" + n2;
    }
  }

  lemma OverlapClashes(r1: string, n1: string, r2: string, n2: string)
    requires Overlap(r1, n1, r2, n2)
    ensures VolumeId(r1, n1) == VolumeId(r2, n2)
  {
    if r1 != "" {
      var x :| r2 == r1 + "#" + x && n1 == x + "#" + n2;
      assert r1 + "#" + (x + "#" + n2) == r1 + "#" + x + "#" + n2;
    }
  }
}

/** The node server itself: its fields, and publish and unpublish from the request to the stored mount.  Run one at a
    time they are the operations of the sequential specification that every interleaving is linearizable to. */
module NodeServer {
  import opened Options
  import opened MapLoops
  import opened Flags
  import opened GoConfig
  import opened Parameters
  import opened ConfigLoader
  import opened ConfigRefinement
  import P = MountProtocol
  import L = Linearization

  class VolumeLocks {
    var locks: set<string>

    constructor ()
      ensures locks == {}
    {
      locks := {};
    }

    method TryAcquire(key: string) returns (acquired: bool)
      modifies this
      ensures acquired == (key !in old(locks)) && locks == old(locks) + {key}
    {
      if key in locks {
        return false;
      }
      locks := locks + {key};
      acquired := true;
    }

    method Release(key: string)
      modifies this
      ensures locks == old(locks) - {key}
    {
      locks := locks - {key};
    }
  }

  // ---- from the request to the parsed remotes ----

  ghost predicate GeneratedFrom(pvp: PublishParams, first: seq<string>, order: seq<string>, text: string) {
    IsOrder(first, pvp.params)
    && var e := Collect(pvp.params, first, BackendKey(pvp.remoteType));
       e != map[] && IsOrder(order, e) && text == ConfigText(e, order, pvp.remoteType, pvp.remoteName)
  }

  /** The configuration text of a volume: given, or else generated from its type and the parameters for that. */
  ghost predicate TextOf(pvp: PublishParams, text: string) {
    if pvp.configData != "" then text == pvp.configData
    else pvp.remoteType != "" && exists first, order :: GeneratedFrom(pvp, first, order, text)
  }

  ghost predicate NoText(pvp: PublishParams) {
    pvp.configData == ""
    && (pvp.remoteType == ""
        || exists first :: IsOrder(first, pvp.params) && Collect(pvp.params, first, BackendKey(pvp.remoteType)) == map[])
  }

  method GenerateConfigData(pvp: PublishParams) returns (r: Option<string>)
    ensures if r.Some? then TextOf(pvp, r.value) else NoText(pvp)
    ensures pvp.configData != "" ==> r == Some(pvp.configData)
    ensures pvp.configData == "" && pvp.remoteType == "" ==> r == None
  {
    hide Collect, ConfigText;
    if pvp.configData != "" {
      return Some(pvp.configData);
    }
    if pvp.remoteType != "" {
      var e := ExtractRemoteTypeParams(pvp.params, pvp.remoteType);
      ghost var first :| IsOrder(first, pvp.params) && e == Collect(pvp.params, first, BackendKey(pvp.remoteType));
      if e != map[] {
        var text := GenerateConfig(e, pvp.remoteType, pvp.remoteName);
        ghost var order :| IsOrder(order, e) && text == ConfigText(e, order, pvp.remoteType, pvp.remoteName);
        assert GeneratedFrom(pvp, first, order, text);
        return Some(text);
      }
    }
    r := None;
  }

  /** What the request comes to if extraction takes the names in this order and the configuration text is this. */
  ghost predicate PreparedFrom(req: Request, expand: Expansion, o: seq<string>, text: string, all: Sections, params: Params) {
    && !Missing(Merged(req)) && !HasInvalidName(Merged(req)) && IsOrder(o, Merged(req))
    && TextOf(Extracted(Merged(req), o), text) && ReadText(text).Ok?
    && all == Remotes(ReadText(text).reader.data, expand) && params == Extracted(Merged(req), o).params
  }

  ghost predicate PreparedAs(req: Request, expand: Expansion, all: Sections, params: Params) {
    exists o, text :: PreparedFrom(req, expand, o, text, all, params)
  }

  /** The four ways in which a request fails before it comes to loading. */
  ghost predicate Refused(req: Request) {
    || Missing(Merged(req)) || HasInvalidName(Merged(req))
    || (exists o :: IsOrder(o, Merged(req)) && NoText(Extracted(Merged(req), o)))
    || (exists o, text :: IsOrder(o, Merged(req)) && TextOf(Extracted(Merged(req), o), text) && ReadText(text).Fail?)
  }

  /** From the request to the parsed remotes and the parameters, or an error. */
  method Prepare(req: Request, expand: Expansion) returns (r: Option<(Sections, Params)>)
    ensures if r.Some? then PreparedAs(req, expand, r.value.0, r.value.1) else Refused(req)
  {
    hide Missing, HasInvalidName, ReadText, Remotes, TextOf, NoText, Collect;
    var params := MergeVolumeParameters(req);
    if req.mountCap && req.mountGroup != "" {
      params := params[GID := req.mountGroup][UID := req.mountGroup][ALLOW_OTHER := "true"];
    }
    assert params == Merged(req);
    hide Merged;
    var extracted := ExtractPublishParams(params);
    if extracted.Failure? {
      return None;
    }
    var pvp := extracted.value;
    ghost var o :| IsOrder(o, params) && pvp == Extracted(params, o);
    var configData := GenerateConfigData(pvp);
    if configData.None? {
      return None;
    }
    var all := ParseAllConfigRemotes(configData.value, expand);
    if all.None? {
      return None;
    }
    assert PreparedFrom(req, expand, o, configData.value, all.value, pvp.params);
    r := Some((all.value, pvp.params));
  }

  /** The sections of a publish are those that its request comes to. */
  ghost predicate ComesFrom(req: Request, expand: Expansion, stores: string -> Storing, c: P.Call)
    requires c.Publish?
  {
    exists all, params :: PreparedAs(req, expand, all, params) && c.sections.Keys == all.Keys
      && (c.load.Loaded? ==> WrittenFor(c.sections, all, params, stores))
  }

  lemma ComesFromPrepared(req: Request, expand: Expansion, stores: string -> Storing, c: P.Call, all: Sections, params: Params)
    requires c.Publish? && PreparedAs(req, expand, all, params) && c.sections.Keys == all.Keys
    requires c.load.Loaded? ==> WrittenFor(c.sections, all, params, stores)
    ensures ComesFrom(req, expand, stores, c)
  {
    hide PreparedAs, WrittenFor;
  }

  class Server {
    const volumeLocks: VolumeLocks
    const config: RcloneConfig
    var mountContext: map<string, P.Mount>
    var created: set<P.Tid>
    var cancelled: set<P.Tid>
    /** History: the contexts of mounts that an unpublish has torn down. */
    ghost var tornDown: set<P.Tid>

    constructor ()
      ensures fresh(volumeLocks) && fresh(config)
      ensures volumeLocks.locks == {} && Shared() == P.InitShared(map[])
    {
      volumeLocks := new VolumeLocks();
      config := new RcloneConfig();
      mountContext, created, cancelled, tornDown := map[], {}, {}, {};
    }

    ghost function Shared(): P.Shared
      reads this, config
    {
      P.Shared(P.Core(mountContext, created, cancelled, tornDown), config.sections)
    }

    method GetMountContext(targetPath: string) returns (mc: Option<P.Mount>)
      ensures mc == if targetPath in mountContext then Some(mountContext[targetPath]) else None
    {
      mc := if targetPath in mountContext then Some(mountContext[targetPath]) else None;
    }

    method SetMountContext(targetPath: string, mc: P.Mount)
      modifies this`mountContext
      ensures mountContext == old(mountContext)[targetPath := mc]
    {
      mountContext := mountContext[targetPath := mc];
    }

    method DeleteMountContext(targetPath: string)
      modifies this`mountContext
      ensures mountContext == old(mountContext) - {targetPath}
    {
      mountContext := mountContext - {targetPath};
    }

    method CleanupConfigRemotes(remotes: set<string>)
      modifies config
      ensures config.sections == old(config.sections) - remotes
    {
      var todo := remotes;
      while todo != {}
        invariant todo <= remotes && config.sections == old(config.sections) - (remotes - todo)
      {
        var name :| name in todo;
        config.DeleteSection(name);
        todo := todo - {name};
        assert config.sections == old(config.sections) - (remotes - todo);
      }
      assert remotes - todo == remotes;
    }

    /** Cancels the mount's context and deletes its sections, and then cleans up the mount point, which may fail.  The
        wait for uploads and the kernel unmount before it change nothing here. */
    method UnmountVolume(mc: Option<P.Mount>, cleaned: bool) returns (ok: bool)
      modifies this`cancelled, this`tornDown, config
      ensures ok == cleaned
      ensures mc.None? ==> Shared() == old(Shared())
      ensures mc.Some? ==> cancelled == old(cancelled) + {mc.value.ctx} && tornDown == old(tornDown) + {mc.value.ctx}
      ensures mc.Some? ==> config.sections == old(config.sections) - mc.value.remotes
    {
      if mc.Some? {
        cancelled, tornDown := cancelled + {mc.value.ctx}, tornDown + {mc.value.ctx};
        CleanupConfigRemotes(mc.value.remotes);
      }
      ok := cleaned;
    }

    /** A publish is one operation of the sequential specification, for some outcomes c of what it calls; while another
        operation holds its lock it is aborted and changes nothing. */
    method NodePublishVolume(i: P.Tid, volumeId: string, targetPath: string, req: Request, expand: Expansion,
                             stores: string -> Storing, directoryReady: bool, mounts: bool)
      returns (r: P.Result, ghost c: P.Call)
      modifies this, volumeLocks, config
      ensures volumeLocks.locks == old(volumeLocks.locks)
      ensures c.Publish? && c.volumeId == volumeId && c.targetPath == targetPath && c.mounted == mounts
      ensures P.Key(c) in old(volumeLocks.locks) ==> r == P.Aborted && Shared() == old(Shared())
      ensures P.Key(c) !in old(volumeLocks.locks) ==> r == P.Outcome(c) && Shared() == L.RunCall(old(Shared()), i, c)
      ensures P.Key(c) !in old(volumeLocks.locks) ==> (if c.prepared && c.load.Loaded? && mounts then r == P.Ok else r == P.Failed)
      ensures r == P.Ok ==> targetPath in mountContext && mountContext[targetPath] == P.Mount(i, c.sections.Keys)
      ensures r == P.Ok ==> mountContext - {targetPath} == old(mountContext) - {targetPath} && cancelled == old(cancelled)
      ensures r != P.Ok ==> mountContext == old(mountContext)
      ensures r != P.Aborted ==> if c.prepared then directoryReady && ComesFrom(req, expand, stores, c) else !directoryReady || Refused(req)
    {
      hide PreparedAs, Refused, P.LoadAll, Progress, SameSection, Grown;
      c := P.Publish(volumeId, targetPath, false, map[], P.Loaded, mounts);
      var key := P.LockKey(volumeId, targetPath);
      var acquired := volumeLocks.TryAcquire(key);
      if !acquired {
        assert old(volumeLocks.locks) + {key} == old(volumeLocks.locks);
        return P.Aborted, c;
      }
      r, c := PublishLocked(i, volumeId, targetPath, req, expand, stores, directoryReady, mounts);
      volumeLocks.Release(key);
      assert old(volumeLocks.locks) + {key} - {key} == old(volumeLocks.locks);
    }

    /** The publish while it holds its lock. */
    method PublishLocked(i: P.Tid, volumeId: string, targetPath: string, req: Request, expand: Expansion,
                         stores: string -> Storing, directoryReady: bool, mounts: bool)
      returns (r: P.Result, ghost c: P.Call)
      modifies this, config
      ensures c.Publish? && c.volumeId == volumeId && c.targetPath == targetPath && c.mounted == mounts
      ensures r == P.Outcome(c) && Shared() == L.RunCall(old(Shared()), i, c)
      ensures if c.prepared && c.load.Loaded? && mounts then r == P.Ok else r == P.Failed
      ensures mountContext == if r == P.Ok then old(mountContext)[targetPath := P.Mount(i, c.sections.Keys)] else old(mountContext)
      ensures r == P.Ok ==> cancelled == old(cancelled)
      ensures if c.prepared then directoryReady && ComesFrom(req, expand, stores, c) else !directoryReady || Refused(req)
    {
      hide PreparedAs, Refused, ComesFrom, WrittenFor, P.LoadAll, Progress, SameSection, Grown;
      c := P.Publish(volumeId, targetPath, false, map[], P.Loaded, mounts);
      var prepared := Prepare(req, expand);
      if prepared.None? || !directoryReady {
        return P.Failed, c;
      }
      var (all, params) := prepared.value;
      var loaded, remotes, how := LoadRcloneConfig(config, all, params, stores);
      if !loaded {
        ghost var written := FailedLoadIsPartial(old(config.sections), config.sections, all);
        c := P.Publish(volumeId, targetPath, true, all, P.UpdateFailed(written), mounts);
        assert P.PartialLoad(c) == written;
        ComesFromPrepared(req, expand, stores, c, all, params);
        return P.Failed, c;
      }
      ghost var sections := LoadIsLoadAll(old(config.sections), config.sections, all, params, how, stores);
      c := P.Publish(volumeId, targetPath, true, sections, P.Loaded, mounts);
      ComesFromPrepared(req, expand, stores, c, all, params);
      var names := set name | name in remotes;
      assert names == sections.Keys;
      var mounted := CreateAndMount(i, targetPath, names, mounts);
      r := if mounted then P.Ok else P.Failed;
    }

    /** Creates the mount's context and mounts; a failed mount cancels the context and takes the sections back. */
    method CreateAndMount(i: P.Tid, targetPath: string, names: set<string>, mounts: bool) returns (ok: bool)
      modifies this, config
      ensures ok == mounts && created == old(created) + {i} && tornDown == old(tornDown)
      ensures mountContext == if mounts then old(mountContext)[targetPath := P.Mount(i, names)] else old(mountContext)
      ensures cancelled == if mounts then old(cancelled) else old(cancelled) + {i}
      ensures config.sections == if mounts then old(config.sections) else old(config.sections) - names
    {
      created := created + {i};
      if !mounts {
        cancelled := cancelled + {i};
        CleanupConfigRemotes(names);
        return false;
      }
      SetMountContext(targetPath, P.Mount(i, names));
      ok := true;
    }

    method NodeUnpublishVolume(i: P.Tid, volumeId: string, targetPath: string, cleaned: bool) returns (r: P.Result)
      modifies this, volumeLocks, config
      ensures volumeLocks.locks == old(volumeLocks.locks)
      ensures var c := P.Unpublish(volumeId, targetPath, cleaned);
        if P.Key(c) in old(volumeLocks.locks) then r == P.Aborted && Shared() == old(Shared())
        else r == P.Outcome(c) && Shared() == L.RunCall(old(Shared()), i, c)
      ensures r == P.Aborted <==> P.LockKey(volumeId, targetPath) in old(volumeLocks.locks)
      ensures r != P.Aborted ==> (r == P.Ok <==> cleaned)
      ensures mountContext == if r == P.Ok then old(mountContext) - {targetPath} else old(mountContext)
      ensures r != P.Aborted && targetPath in old(mountContext) ==> old(mountContext)[targetPath].ctx in cancelled
      ensures r != P.Aborted && targetPath in old(mountContext) ==>
        config.sections == old(config.sections) - old(mountContext)[targetPath].remotes
    {
      var key := P.LockKey(volumeId, targetPath);
      var acquired := volumeLocks.TryAcquire(key);
      if !acquired {
        assert old(volumeLocks.locks) + {key} == old(volumeLocks.locks);
        return P.Aborted;
      }
      var mc := GetMountContext(targetPath);
      var ok := UnmountVolume(mc, cleaned);
      if ok {
        DeleteMountContext(targetPath);
        r := P.Ok;
      } else {
        r := P.Failed;
      }
      volumeLocks.Release(key);
      assert old(volumeLocks.locks) + {key} - {key} == old(volumeLocks.locks);
    }
  }
}

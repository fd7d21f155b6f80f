/** The loops that load the configuration, seen as the one step that they are in the protocol: they run under configMu,
    so nobody sees them half done. */
module ConfigRefinement {
  import opened MapLoops
  import opened GoConfig
  import opened ConfigLoader
  import MountProtocol

  /** What a finished load writes. */
  function Result(all: Sections, params: Params, how: map<string, Loading>, stores: string -> Storing): Sections
    requires forall name | name in all ::
      name in how && (forall i :: 0 <= i < |how[name].keys| ==> how[name].keys[i] in all[name])
      && forall i :: 0 <= i < |how[name].params| ==> how[name].params[i] in params
  {
    map name | name in all :: LoadSection(map[], all[name], params, how[name], stores(name))
  }

  lemma {:induction false} LoadKeysFrom(section: Params, data: Params, keys: seq<string>, e: Params)
    requires forall i :: 0 <= i < |keys| ==> keys[i] in data
    ensures LoadKeys(section, data, keys, e) == section + LoadKeys(map[], data, keys, e)
  {
    if keys == [] {
      assert section + map[] == section;
    } else {
      LoadKeysFrom(section, data, keys[..|keys| - 1], e);
    }
  }

  lemma {:induction false} LoadKeysWrite(data: Params, keys: seq<string>, e: Params)
    requires forall i :: 0 <= i < |keys| ==> keys[i] in data
    ensures LoadKeys(map[], data, keys, e) == map[] <==> keys == []
  {
    if keys != [] {
      var n := |keys| - 1;
      assert keys[n] in LoadKeys(map[], data, keys, e);
    }
  }

  lemma LoadSectionFrom(section: Params, data: Params, params: Params, how: Loading, put: Storing)
    requires Fits(how, data, params)
    ensures LoadSection(section, data, params, how, put) == section + LoadSection(map[], data, params, how, put)
    ensures LoadSection(map[], data, params, how, put) == map[] <==> data == map[]
  {
    LoadKeysFrom(section, data, how.keys, ForType(data, params, how.params, put));
    LoadKeysWrite(data, how.keys, ForType(data, params, how.params, put));
    hide LoadKeys, ForType;
    if how.keys != [] { assert how.keys[0] in data; }
    assert data == map[] || exists k :: k in data && k in how.keys;
  }

  lemma HowFits(was: Sections, now: Sections, all: Sections, params: Params, how: map<string, Loading>,
                stores: string -> Storing)
    requires Progress(was, now, all, params, how, stores)
    ensures forall name | name in how ::
      Fits(how[name], all[name], params)
      && (forall i :: 0 <= i < |how[name].keys| ==> how[name].keys[i] in all[name])
      && forall i :: 0 <= i < |how[name].params| ==> how[name].params[i] in params
  {
    forall name | name in how
      ensures Fits(how[name], all[name], params)
    {
      assert RemoteLoaded(was, now, name, all[name], params, how[name], stores(name));
    }
    hide LoadSection;
  }

  lemma LoadedSame(was: Sections, now: Sections, name: string, data: Params, params: Params, how: Loading, put: Storing,
                   sections: Sections)
    requires RemoteLoaded(was, now, name, data, params, how, put)
    requires name in sections && sections[name] == LoadSection(map[], data, params, how, put)
    ensures SameSection(MountProtocol.LoadAll(was, sections), now, name)
    ensures sections[name] == map[] <==> data == map[]
  {
    hide LoadSection;
    LoadSectionFrom(SectionIn(was, name), data, params, how, put);
    hide Fits;
  }

  lemma NotLoadedSame(was: Sections, now: Sections, name: string, sections: Sections)
    requires SameSection(was, now, name) && name !in sections
    ensures SameSection(MountProtocol.LoadAll(was, sections), now, name)
  {
    assert name in was ==> was[name] + map[] == was[name];
  }

  /** The sections are the parsed ones with the parameters for their types, each loaded in some order. */
  ghost predicate WrittenFor(sections: Sections, all: Sections, params: Params, stores: string -> Storing) {
    sections.Keys == all.Keys && forall name :: name in all ==> LoadedFrom(sections[name], all[name], params, stores(name))
  }

  ghost predicate LoadedFrom(section: Params, data: Params, params: Params, put: Storing) {
    exists how :: Fits(how, data, params) && section == LoadSection(map[], data, params, how, put)
  }

  /** A finished load is one LoadAll. */
  lemma LoadIsLoadAll(was: Sections, now: Sections, all: Sections, params: Params, how: map<string, Loading>,
                      stores: string -> Storing)
    returns (sections: Sections)
    requires Progress(was, now, all, params, how, stores) && how.Keys == all.Keys
    ensures WrittenFor(sections, all, params, stores) && sections.Keys == all.Keys && now == MountProtocol.LoadAll(was, sections)
    ensures forall name | name in all :: sections[name] == map[] <==> all[name] == map[]
  {
    hide LoadSection, RemoteLoaded, SameSection, Fits, MountProtocol.LoadAll;
    HowFits(was, now, all, params, how, stores);
    sections := Result(all, params, how, stores);
    forall name: string
      ensures (name in all ==> (sections[name] == map[] <==> all[name] == map[]))
      ensures SameSection(MountProtocol.LoadAll(was, sections), now, name)
    {
      if name in all {
        LoadedSame(was, now, name, all[name], params, how[name], stores(name), sections);
      } else {
        NotLoadedSame(was, now, name, sections);
      }
    }
    SameEverywhere(MountProtocol.LoadAll(was, sections), now);
  }

  lemma SameEverywhere(a: Sections, b: Sections)
    requires forall name :: SameSection(a, b, name)
    ensures a == b
  {
    assert forall name :: SameSection(a, b, name) ==> (name in a <==> name in b);
    forall name | name in a ensures a[name] == b[name] { assert SameSection(a, b, name); }
  }

  /** A load that fails is the LoadAll of something with the names of its own remotes. */
  lemma FailedLoadIsPartial(was: Sections, now: Sections, all: Sections) returns (written: Sections)
    requires Grown(was, now) && forall n | n !in all :: SameSection(was, now, n)
    ensures written.Keys <= all.Keys && now == MountProtocol.LoadAll(was, written)
  {
    written := map n | n in now && n in all :: now[n];
    var loaded := MountProtocol.LoadAll(was, written);
    forall name: string
      ensures SameSection(loaded, now, name)
    {
      if name in all {
        assert name in was ==> was[name] + now[name] == now[name];
      } else {
        assert SameSection(was, now, name);
      }
    }
    SameEverywhere(loaded, now);
  }
}

/** Loading parsed remotes, and the parameters for their backend types, into rclone's configuration.  The loops run
    over Go maps: three nested orders, all unspecified. */
module ConfigLoader {
  import opened Options
  import opened MapLoops
  import opened Flags
  import opened GoConfig
  import opened IniRoundTrip

  type Params = map<string, string>

  const TYPE := "type"

  /** What an update of one remote writes for an option and its value, if anything: a plain password is obscured, and the
      config_ options are not stored. */
  type Storing = (string, string) -> Option<string>

  function Stored(values: Params, put: Storing): Params {
    map k | k in values && put(k, values[k]).Some? :: put(k, values[k]).value
  }

  function SectionIn(sections: Sections, name: string): Params {
    if name in sections then sections[name] else map[]
  }

  /** What has been written of the values when these options are done. */
  function Written(values: Params, put: Storing, done: set<string>): Params {
    map k | k in done && k in Stored(values, put) :: Stored(values, put)[k]
  }

  lemma WrittenNone(m: Params, values: Params, put: Storing)
    ensures m + Written(values, put, {}) == m
  {
  }

  lemma WrittenOne(m: Params, values: Params, put: Storing, done: set<string>, k: string)
    requires k in values
    ensures m + Written(values, put, done + {k}) ==
              match put(k, values[k])
              case None => m + Written(values, put, done)
              case Some(v) => (m + Written(values, put, done))[k := v]
  {
  }

  lemma WrittenAll(values: Params, put: Storing)
    ensures Written(values, put, values.Keys) == Stored(values, put)
  {
  }

  /** Every value is there as it is stored. */
  predicate StoredIn(section: Params, values: Params, put: Storing) {
    forall k | k in values && put(k, values[k]).Some? :: k in section && section[k] == put(k, values[k]).value
  }

  /** Every option that is not among those to be stored is as before. */
  predicate KeptIn(was: Params, now: Params, values: Params, put: Storing) {
    && (forall k | k in was && (k !in values || put(k, values[k]).None?) :: k in now && now[k] == was[k])
    && (forall k | k in now && (k !in values || put(k, values[k]).None?) :: k in was)
  }

  lemma WritesStore(was: Params, values: Params, put: Storing, done: set<string>)
    requires done <= values.Keys
    ensures KeptIn(was, was + Written(values, put, done), values, put)
    ensures done == values.Keys ==> StoredIn(was + Written(values, put, done), values, put)
  {
  }

  lemma WrittenFrame(was: Sections, name: string, values: Params, put: Storing, done: set<string>)
    requires name in was && done <= values.Keys
    ensures var now := was[name := was[name] + Written(values, put, done)];
      && now - {name} == was - {name} && KeptIn(was[name], now[name], values, put)
      && (done == values.Keys ==> StoredIn(now[name], values, put))
  {
    WritesStore(was[name], values, put, done);
    hide Written, StoredIn, KeptIn;
  }

  predicate HasType(section: Params) {
    TYPE in section && section[TYPE] != ""
  }

  lemma TypeGiven(section: Params)
    ensures HasType(section) <==> "type" in section && section["type"] != ""
  {
  }

  /** Nothing is deleted, and nothing new is empty. */
  predicate Grown(was: Sections, now: Sections) {
    && (forall name :: name in was ==> name in now && was[name].Keys <= now[name].Keys)
    && (forall name :: name in now && name !in was ==> now[name] != map[])
  }

  lemma GrownTwice(was: Sections, before: Sections, now: Sections)
    requires Grown(was, before) && Grown(before, now)
    ensures Grown(was, now)
  {
    forall name | name in now && name !in was
      ensures now[name] != map[]
    {
      if name in before {
        var k :| k in before[name];
        assert k in now[name];
      }
    }
  }

  lemma SetGrows(was: Sections, name: string, key: string, value: string)
    ensures Grown(was, was[name := SectionIn(was, name)[key := value]])
  {
    assert key in SectionIn(was, name)[key := value];
  }

  lemma WriteGrows(was: Sections, name: string, values: Params)
    requires name in was
    ensures Grown(was, was[name := was[name] + values])
  {
  }

  /** rclone's storage of sections, in memory. */
  class RcloneConfig {
    var sections: Sections

    constructor ()
      ensures sections == map[]
    {
      sections := map[];
    }

    method SetValue(section: string, key: string, value: string)
      modifies this
      ensures sections == old(sections)[section := SectionIn(old(sections), section)[key := value]]
    {
      sections := sections[section := SectionIn(sections, section)[key := value]];
    }

    method DeleteSection(section: string)
      modifies this
      ensures sections == old(sections) - {section}
    {
      sections := sections - {section};
    }

    /** One turn of the loop of UpdateRemote, after those that are done. */
    method StoreOne(ghost was: Sections, name: string, values: Params, put: Storing, k: string, ghost done: set<string>)
      requires name in was && k in values && sections == was[name := was[name] + Written(values, put, done)]
      modifies this
      ensures sections == was[name := was[name] + Written(values, put, done + {k})]
    {
      WrittenOne(was[name], values, put, done, k);
      hide Written;
      var stored := put(k, values[k]);
      if stored.Some? {
        SetValue(name, k, stored.value);
      }
    }

    /** A bulk write that fails without a type, and may fail on the way; what it has written by then stays. */
    method UpdateRemote(name: string, values: Params, put: Storing) returns (ok: bool, ghost done: set<string>)
      requires name in sections
      modifies this
      ensures done <= values.Keys && (ok ==> done == values.Keys)
      ensures "type" !in old(sections)[name] || old(sections)[name]["type"] == "" ==> !ok && done == {}
      ensures sections == old(sections)[name := old(sections)[name] + Written(values, put, done)]
      ensures name in sections && sections - {name} == old(sections) - {name}
      ensures ok ==> StoredIn(sections[name], values, put)
      ensures KeptIn(old(sections)[name], sections[name], values, put)
    {
      hide HasType, StoredIn, KeptIn, Written;
      ghost var was := sections;
      WrittenNone(was[name], values, put);
      TypeGiven(was[name]);
      WrittenFrame(was, name, values, put, {});
      if !HasType(sections[name]) {
        return false, {};
      }
      ok, done := true, {};
      var todo := values.Keys;
      while ok && todo != {}
        invariant done == values.Keys - todo && todo <= values.Keys && name in sections
        invariant sections == was[name := was[name] + Written(values, put, done)]
        decreases |todo|, ok
      {
        if * {
          ok := false;
        } else {
          var k :| k in todo;
          StoreOne(was, name, values, put, k, done);
          todo, done := todo - {k}, done + {k};
        }
      }
      WrittenFrame(was, name, values, put, done);
    }
  }

  // ---- one remote ----

  /** The orders of the inner loops: over the keys of the section, and over the parameters. */
  datatype Loading = Loading(keys: seq<string>, params: seq<string>)

  ghost predicate Fits(how: Loading, data: Params, params: Params) {
    IsOrder(how.keys, data) && IsOrder(how.params, params)
  }

  /** What is stored of the parameters for the type of the section. */
  function ForType(data: Params, params: Params, order: seq<string>, put: Storing): Params
    requires forall i :: 0 <= i < |order| ==> order[i] in params
  {
    if TYPE in data then Stored(Collect(params, order, BackendKey(data[TYPE])), put) else map[]
  }

  /** A section after the keys in this order; the extracted parameters come in with the type. */
  function LoadKeys(section: Params, data: Params, keys: seq<string>, extracted: Params): Params
    requires forall i :: 0 <= i < |keys| ==> keys[i] in data
  {
    if keys == [] then section
    else
      var n := |keys| - 1;
      var s := LoadKeys(section, data, keys[..n], extracted)[keys[n] := data[keys[n]]];
      if keys[n] == TYPE then s + extracted else s
  }

  function LoadSection(section: Params, data: Params, params: Params, how: Loading, put: Storing): Params
    requires forall i :: 0 <= i < |how.keys| ==> how.keys[i] in data
    requires forall i :: 0 <= i < |how.params| ==> how.params[i] in params
  {
    LoadKeys(section, data, how.keys, ForType(data, params, how.params, put))
  }

  lemma {:induction false} TypeBringsThem(section: Params, data: Params, keys: seq<string>, e: Params, e': Params)
    requires (forall i :: 0 <= i < |keys| ==> keys[i] in data) && TYPE !in keys
    ensures LoadKeys(section, data, keys, e) == LoadKeys(section, data, keys, e')
  {
    if keys != [] { TypeBringsThem(section, data, keys[..|keys| - 1], e, e'); }
  }

  lemma LoadKeysStep(section: Params, data: Params, keys: seq<string>, key: string, e: Params)
    requires (forall i :: 0 <= i < |keys| ==> keys[i] in data) && key in data
    ensures LoadKeys(section, data, keys + [key], e) ==
              if key == TYPE then LoadKeys(section, data, keys, e)[key := data[key]] + e
              else LoadKeys(section, data, keys, e)[key := data[key]]
  {
    assert (keys + [key])[..|keys|] == keys;
  }

  /** No other section is touched. */
  predicate OnlyChanged(was: Sections, now: Sections, name: string) {
    now - {name} == was - {name}
  }

  lemma OnlyChangedTwice(was: Sections, before: Sections, now: Sections, name: string)
    requires OnlyChanged(was, before, name) && OnlyChanged(before, now, name)
    ensures OnlyChanged(was, now, name)
  {
  }

  lemma NextKey(section: Params, data: Params, params: Params, keys: seq<string>, key: string, order: seq<string>, o: seq<string>,
                put: Storing)
    requires (forall i :: 0 <= i < |keys| ==> keys[i] in data) && key in data && key !in keys
    requires (forall i :: 0 <= i < |order| ==> order[i] in params) && forall i :: 0 <= i < |o| ==> o[i] in params
    ensures var s := LoadKeys(section, data, keys, ForType(data, params, order, put))[key := data[key]];
            if key == TYPE
            then LoadKeys(section, data, keys + [key], ForType(data, params, o, put)) == s + Stored(Collect(params, o, BackendKey(data[key])), put)
            else LoadKeys(section, data, keys + [key], ForType(data, params, order, put)) == s
  {
    hide LoadKeys, Collect, Stored;
    if key == TYPE {
      TypeBringsThem(section, data, keys, ForType(data, params, order, put), ForType(data, params, o, put));
      LoadKeysStep(section, data, keys, key, ForType(data, params, o, put));
    } else {
      LoadKeysStep(section, data, keys, key, ForType(data, params, order, put));
    }
  }

  /** What a turn of the inner loop does. */
  ghost predicate KeyLoaded(was: Sections, now: Sections, name: string, key: string, value: string, params: Params,
                            order: seq<string>, put: Storing) {
    && IsOrder(order, params) && name in now
    && var s := SectionIn(was, name)[key := value];
       SectionIn(now, name) == if key == TYPE then s + Stored(Collect(params, order, BackendKey(value)), put) else s
  }

  lemma NoParameters(params: Params, order: seq<string>, f: string -> Option<string>, put: Storing)
    requires IsOrder(order, params)
    ensures params == map[] ==> Stored(Collect(params, order, f), put) == map[]
    ensures Stored(map[], put) == map[]
  {
    if order != [] { assert order[0] in params; }
  }

  /** One turn of the inner loop. */
  method LoadKey(config: RcloneConfig, name: string, key: string, value: string, params: Params, put: Storing)
    returns (ok: bool, ghost order: seq<string>)
    modifies config
    ensures OnlyChanged(old(config.sections), config.sections, name) && Grown(old(config.sections), config.sections)
    ensures ok ==> KeyLoaded(old(config.sections), config.sections, name, key, value, params, order, put)
  {
    hide Collect, Written, Stored;
    ok := true;
    order := SomeOrder(params.Keys);
    assert IsOrder(order, params);
    hide IsOrder, Grown;
    ghost var was := config.sections;
    SetGrows(was, name, key, value);
    config.SetValue(name, key, value);
    if key == TYPE && params != map[] {
      var values := ExtractRemoteTypeParams(params, value);
      ghost var o :| IsOrder(o, params) && values == Collect(params, o, BackendKey(value));
      order := o;
      if values != map[] {
        WrittenAll(values, put);
        ghost var before := config.sections;
        ghost var done;
        ok, done := config.UpdateRemote(name, values, put);
        WriteGrows(before, name, Written(values, put, done));
        GrownTwice(was, before, config.sections);
      }
    }
    NoParameters(params, order, BackendKey(value), put);
  }

  /** In the middle of the inner loop. */
  ghost predicate Midway(was: Sections, now: Sections, name: string, data: Params, params: Params, how: Loading, todo: set<string>,
                         put: Storing) {
    && Visited(how.keys, data, todo) && IsOrder(how.params, params) && OnlyChanged(was, now, name)
    && SectionIn(now, name) == LoadKeys(SectionIn(was, name), data, how.keys, ForType(data, params, how.params, put))
    && (name in now <==> name in was || how.keys != [])
  }

  lemma MidwayNext(was: Sections, before: Sections, now: Sections, name: string, data: Params, params: Params, how: Loading,
                   todo: set<string>, key: string, o: seq<string>, put: Storing)
    requires Midway(was, before, name, data, params, how, todo, put) && key in todo && key in data
    requires KeyLoaded(before, now, name, key, data[key], params, o, put) && OnlyChanged(before, now, name)
    ensures Midway(was, now, name, data, params, Loading(how.keys + [key], if key == TYPE then o else how.params), todo - {key}, put)
  {
    VisitOne(how.keys, data, todo, key);
    hide OnlyChanged, SectionIn, Visited, Collect, LoadKeys, ForType, Stored;
    OnlyChangedTwice(was, before, now, name);
    NextKey(SectionIn(was, name), data, params, how.keys, key, how.params, o, put);
  }

  /** What the inner loop does: the section is loaded, or some of it is if an update fails. */
  ghost predicate RemoteLoaded(was: Sections, now: Sections, name: string, data: Params, params: Params, how: Loading, put: Storing) {
    && Fits(how, data, params)
    && SectionIn(now, name) == LoadSection(SectionIn(was, name), data, params, how, put)
    && (name in now <==> name in was || data != map[])
  }

  lemma MidwayEnd(was: Sections, now: Sections, name: string, data: Params, params: Params, how: Loading, put: Storing)
    requires Midway(was, now, name, data, params, how, {}, put)
    ensures RemoteLoaded(was, now, name, data, params, how, put)
  {
    if how.keys != [] { assert how.keys[0] in data; }
    assert IsOrder(how.keys, data);
    assert data == map[] || exists k :: k in data && k in how.keys;
    hide SectionIn, Collect, LoadKeys, ForType;
  }

  lemma MidwayStart(was: Sections, name: string, data: Params, params: Params, order: seq<string>, put: Storing)
    requires IsOrder(order, params)
    ensures Midway(was, was, name, data, params, Loading([], order), data.Keys, put)
  {
    hide SectionIn, Collect, ForType;
  }

  method LoadRemote(config: RcloneConfig, name: string, data: Params, params: Params, put: Storing)
    returns (ok: bool, ghost how: Loading)
    modifies config
    ensures ok ==> RemoteLoaded(old(config.sections), config.sections, name, data, params, how, put)
    ensures OnlyChanged(old(config.sections), config.sections, name) && Grown(old(config.sections), config.sections)
  {
    ghost var order := SomeOrder(params.Keys);
    how := Loading([], order);
    ghost var was := config.sections;
    assert IsOrder(order, params);
    MidwayStart(was, name, data, params, order, put);
    assert OnlyChanged(was, was, name) && Grown(was, was);
    hide Midway, KeyLoaded, RemoteLoaded, OnlyChanged, Grown, IsOrder;
    var todo := data.Keys;
    while todo != {}
      invariant Midway(was, config.sections, name, data, params, how, todo, put) && todo <= data.Keys
      invariant OnlyChanged(was, config.sections, name) && Grown(was, config.sections)
      decreases |todo|
    {
      var key :| key in todo;
      ghost var before := config.sections;
      var loaded, o := LoadKey(config, name, key, data[key], params, put);
      OnlyChangedTwice(was, before, config.sections, name);
      GrownTwice(was, before, config.sections);
      if !loaded {
        return false, how;
      }
      MidwayNext(was, before, config.sections, name, data, params, how, todo, key, o, put);
      todo := todo - {key};
      how := Loading(how.keys + [key], if key == TYPE then o else how.params);
    }
    MidwayEnd(was, config.sections, name, data, params, how, put);
    ok := true;
  }

  // ---- all remotes ----

  predicate SameSection(was: Sections, now: Sections, name: string) {
    (name in now <==> name in was) && SectionIn(now, name) == SectionIn(was, name)
  }

  lemma OthersSame(was: Sections, now: Sections, name: string, other: string)
    requires OnlyChanged(was, now, name) && other != name
    ensures SameSection(was, now, other)
  {
    assert other in now <==> other in now - {name};
    assert other in was <==> other in was - {name};
    assert other in now ==> now[other] == (now - {name})[other];
  }

  lemma StaysLoaded(was: Sections, now: Sections, later: Sections, name: string, data: Params, params: Params, how: Loading, put: Storing)
    requires RemoteLoaded(was, now, name, data, params, how, put) && SameSection(now, later, name)
    ensures RemoteLoaded(was, later, name, data, params, how, put)
  {
  }

  lemma JustLoaded(was: Sections, before: Sections, now: Sections, name: string, data: Params, params: Params, how: Loading, put: Storing)
    requires SameSection(was, before, name) && RemoteLoaded(before, now, name, data, params, how, put)
    ensures RemoteLoaded(was, now, name, data, params, how, put)
  {
  }

  /** The remotes in how are loaded, and nothing else has changed. */
  ghost predicate Progress(was: Sections, now: Sections, all: Sections, params: Params, how: map<string, Loading>,
                           stores: string -> Storing) {
    && how.Keys <= all.Keys
    && (forall name | name in how :: RemoteLoaded(was, now, name, all[name], params, how[name], stores(name)))
    && (forall name | name !in how :: SameSection(was, now, name))
  }

  lemma SameTwice(was: Sections, before: Sections, now: Sections, name: string)
    requires SameSection(was, before, name) && SameSection(before, now, name)
    ensures SameSection(was, now, name)
  {
  }

  lemma NextLoaded(was: Sections, before: Sections, now: Sections, all: Sections, params: Params,
                   how: map<string, Loading>, name: string, h: Loading, stores: string -> Storing)
    requires Progress(was, before, all, params, how, stores) && name in all && name !in how
    requires OnlyChanged(before, now, name) && RemoteLoaded(before, now, name, all[name], params, h, stores(name))
    ensures Progress(was, now, all, params, how[name := h], stores)
  {
    hide RemoteLoaded, SameSection, LoadSection, Fits, SectionIn;
    JustLoaded(was, before, now, name, all[name], params, h, stores(name));
    forall n | n in how
      ensures RemoteLoaded(was, now, n, all[n], params, how[n], stores(n))
    {
      OthersSame(before, now, name, n);
      StaysLoaded(was, before, now, n, all[n], params, how[n], stores(n));
    }
    forall n | n !in how && n != name
      ensures SameSection(was, now, n)
    {
      OthersSame(before, now, name, n);
      SameTwice(was, before, now, n);
    }
  }

  lemma RestUntouched(was: Sections, before: Sections, now: Sections, all: Sections, params: Params,
                      how: map<string, Loading>, name: string, stores: string -> Storing)
    requires Progress(was, before, all, params, how, stores) && name in all && OnlyChanged(before, now, name)
    ensures forall n | n !in all :: SameSection(was, now, n)
  {
    hide RemoteLoaded, SameSection;
    forall n | n !in all
      ensures SameSection(was, now, n)
    {
      OthersSame(before, now, name, n);
      SameTwice(was, before, now, n);
    }
  }

  lemma ProgressStart(was: Sections, all: Sections, params: Params, stores: string -> Storing)
    ensures Progress(was, was, all, params, map[], stores) && Grown(was, was)
  {
    hide RemoteLoaded;
  }

  lemma ProgressRest(was: Sections, now: Sections, all: Sections, params: Params, how: map<string, Loading>,
                     stores: string -> Storing)
    requires Progress(was, now, all, params, how, stores)
    ensures forall n | n !in all :: SameSection(was, now, n)
  {
    hide RemoteLoaded, SameSection;
  }

  /** The whole load: each remote once, in some order; other sections are not touched, whether it fails or not. */
  method LoadRcloneConfig(config: RcloneConfig, all: Sections, params: Params, stores: string -> Storing)
    returns (ok: bool, remotes: seq<string>, ghost how: map<string, Loading>)
    modifies config
    ensures ok ==> IsOrder(remotes, all) && how.Keys == all.Keys
    ensures ok ==> Progress(old(config.sections), config.sections, all, params, how, stores)
    ensures forall n | n !in all :: SameSection(old(config.sections), config.sections, n)
    ensures Grown(old(config.sections), config.sections)
  {
    ghost var was := config.sections;
    remotes, how := [], map[];
    ProgressStart(was, all, params, stores);
    hide RemoteLoaded, Progress, SameSection, Grown;
    var todo := all.Keys;
    while todo != {}
      invariant Visited(remotes, all, todo) && (todo == {} ==> IsOrder(remotes, all))
      invariant how.Keys == all.Keys - todo && todo <= all.Keys
      invariant Progress(was, config.sections, all, params, how, stores) && Grown(was, config.sections)
      decreases |todo|
    {
      var name :| name in todo;
      VisitOne(remotes, all, todo, name);
      hide Visited, IsOrder;
      ghost var before := config.sections;
      var loaded, h := LoadRemote(config, name, all[name], params, stores(name));
      GrownTwice(was, before, config.sections);
      if !loaded {
        RestUntouched(was, before, config.sections, all, params, how, name, stores);
        return false, remotes, how;
      }
      NextLoaded(was, before, config.sections, all, params, how, name, h, stores);
      todo := todo - {name};
      remotes, how := remotes + [name], how[name := h];
    }
    ProgressRest(was, config.sections, all, params, how, stores);
    ok := true;
  }
}

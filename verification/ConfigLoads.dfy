/** What loading a configuration comes to, for every order of its loops. */
module ConfigLoads {
  import opened Options
  import opened MapLoops
  import opened Flags
  import opened GoConfig
  import opened IniRoundTrip
  import opened ConfigLoader

  /** A key in both the section and the parameters for its type has the same value in both; the type itself is always
      read before the parameters are written. */
  ghost predicate Agree(data: Params, extracted: Params) {
    forall k :: k in data && k in extracted && k != TYPE ==> data[k] == extracted[k]
  }

  /** Up to a prefix of the keys, without the type. */
  lemma {:induction false} BeforeType(section: Params, data: Params, keys: seq<string>, e: Params)
    requires (forall i :: 0 <= i < |keys| ==> keys[i] in data) && TYPE !in keys
    ensures LoadKeys(section, data, keys, e) == section + Chosen(data, keys)
  {
    if keys == [] {
      assert section + Chosen(data, keys) == section;
    } else {
      var n := |keys| - 1;
      BeforeType(section, data, keys[..n], e);
      ChosenLast(section, data, keys);
    }
  }

  lemma ChosenLast(section: Params, data: Params, keys: seq<string>)
    requires keys != [] && forall i :: 0 <= i < |keys| ==> keys[i] in data
    ensures var n := |keys| - 1; (section + Chosen(data, keys[..n]))[keys[n] := data[keys[n]]] == section + Chosen(data, keys)
  {
    var n := |keys| - 1;
    assert forall x :: x in keys <==> x == keys[n] || x in keys[..n];
  }

  /** With the type among the keys, and no disagreement. */
  lemma {:induction false} AfterType(section: Params, data: Params, keys: seq<string>, e: Params)
    requires (forall i :: 0 <= i < |keys| ==> keys[i] in data) && TYPE in keys && Agree(data, e)
    requires forall i, j :: 0 <= i < j < |keys| ==> keys[i] != keys[j]
    ensures LoadKeys(section, data, keys, e) == section + Chosen(data, keys) + e
  {
    var n := |keys| - 1;
    assert keys == keys[..n] + [keys[n]];
    ChosenLast(section, data, keys);
    if keys[n] == TYPE {
      BeforeType(section, data, keys[..n], e);
    } else {
      AfterType(section, data, keys[..n], e);
      hide LoadKeys, Chosen;
      var k := keys[n];
      OverAgreed(section + Chosen(data, keys[..n]), data, k, e);
    }
  }

  lemma OverAgreed(m: Params, data: Params, k: string, e: Params)
    requires k in data && k != TYPE && Agree(data, e)
    ensures (m + e)[k := data[k]] == m[k := data[k]] + e
  {
  }

  /** Where nothing disagrees, a loaded section is what was there, the parsed section, and what is stored of the parameters
      extracted for its type. */
  lemma LoadedIsUnion(section: Params, data: Params, params: Params, how: Loading, put: Storing)
    requires Fits(how, data, params) && Agree(data, ForType(data, params, how.params, put))
    ensures LoadSection(section, data, params, how, put) == section + data + ForType(data, params, how.params, put)
  {
    var e := ForType(data, params, how.params, put);
    assert Chosen(data, how.keys) == data;
    if TYPE in data {
      AfterType(section, data, how.keys, e);
    } else {
      BeforeType(section, data, how.keys, e);
      assert section + data + e == section + data;
    }
  }

  // ---- exactly when the orders do not matter ----

  function Look(section: Params, x: string): Option<string> {
    if x in section then Some(section[x]) else None
  }

  /** What a parameter with this value makes of the option x of a section. */
  function Effect(section: Params, data: Params, put: Storing, x: string, value: string): Option<string> {
    if put(x, value).Some? then put(x, value) else Look(section + data, x)
  }

  /** Two parameters that are renamed to the same option have the same effect. */
  ghost predicate SameEffect(section: Params, data: Params, params: Params, put: Storing, j: string, k: string)
    requires TYPE in data && j in params && k in params
  {
    var x := BackendName(data[TYPE], j);
    x.Some? && x == BackendName(data[TYPE], k) ==>
      Effect(section, data, put, x.value, params[j]) == Effect(section, data, put, x.value, params[k])
  }

  /** A parameter for an option that the section has too is stored as the section has it, or not at all. */
  ghost predicate Harmonious(data: Params, params: Params, put: Storing, k: string)
    requires TYPE in data && k in params
  {
    var x := BackendName(data[TYPE], k);
    x.Some? && x.value in data && x.value != TYPE ==>
      put(x.value, params[k]) == None || put(x.value, params[k]) == Some(data[x.value])
  }

  ghost predicate Harmless(section: Params, data: Params, params: Params, put: Storing) {
    TYPE in data ==>
      (forall j, k | j in params && k in params :: SameEffect(section, data, params, put, j, k))
      && forall k | k in params :: Harmonious(data, params, put, k)
  }

  /** A parameter that an extracted value comes from. */
  lemma ExtractedFrom(params: Params, order: seq<string>, t: string, x: string) returns (k: string)
    requires IsOrder(order, params) && x in Collect(params, order, BackendKey(t))
    ensures k in params && BackendName(t, k) == Some(x) && Collect(params, order, BackendKey(t))[x] == params[k]
  {
    CollectedFrom(params, order, BackendKey(t));
    hide Collect, BackendName;
    k :| k in order && BackendKey(t)(k) == Some(x) && Collect(params, order, BackendKey(t))[x] == params[k];
  }

  lemma HarmlessAgrees(section: Params, data: Params, params: Params, order: seq<string>, put: Storing)
    requires Harmless(section, data, params, put) && IsOrder(order, params)
    ensures Agree(data, ForType(data, params, order, put))
  {
    if TYPE in data {
      var e := Collect(params, order, BackendKey(data[TYPE]));
      hide Collect, BackendName, SameEffect;
      forall x | x in data && x in Stored(e, put) && x != TYPE
        ensures data[x] == Stored(e, put)[x]
      {
        var k := ExtractedFrom(params, order, data[TYPE], x);
        assert Harmonious(data, params, put, k);
      }
    }
  }

  /** What the parameters make of the section, option by option. */
  lemma ResultAt(section: Params, data: Params, params: Params, order: seq<string>, put: Storing, x: string)
    requires TYPE in data && IsOrder(order, params)
    ensures var e := Collect(params, order, BackendKey(data[TYPE]));
            Look(section + data + ForType(data, params, order, put), x) ==
              if x in e then Effect(section, data, put, x, e[x]) else Look(section + data, x)
  {
    hide Collect, BackendName;
  }

  lemma LookEqual(a: Params, b: Params)
    requires forall x :: Look(a, x) == Look(b, x)
    ensures a == b
  {
    forall x ensures x in a <==> x in b { assert Look(a, x) == Look(b, x); }
    forall x | x in a ensures a[x] == b[x] { assert Look(a, x) == Look(b, x); }
  }

  lemma HarmlessSameResult(section: Params, data: Params, params: Params, a: seq<string>, b: seq<string>, put: Storing)
    requires Harmless(section, data, params, put) && IsOrder(a, params) && IsOrder(b, params)
    ensures section + data + ForType(data, params, a, put) == section + data + ForType(data, params, b, put)
  {
    if TYPE in data {
      hide Collect, BackendName, ForType, Effect, Harmonious;
      var f := BackendKey(data[TYPE]);
      forall x
        ensures Look(section + data + ForType(data, params, a, put), x) == Look(section + data + ForType(data, params, b, put), x)
      {
        ResultAt(section, data, params, a, put, x);
        ResultAt(section, data, params, b, put, x);
        SameNames(params, a, b, f, x);
        if x in Collect(params, a, f) {
          var j := ExtractedFrom(params, a, data[TYPE], x);
          var k := ExtractedFrom(params, b, data[TYPE], x);
          assert SameEffect(section, data, params, put, j, k);
        }
      }
      LookEqual(section + data + ForType(data, params, a, put), section + data + ForType(data, params, b, put));
    }
  }

  lemma SameNames(params: Params, a: seq<string>, b: seq<string>, f: string -> Option<string>, x: string)
    requires IsOrder(a, params) && IsOrder(b, params)
    ensures x in Collect(params, a, f) <==> x in Collect(params, b, f)
  {
    CollectedFrom(params, a, f);
    CollectedFrom(params, b, f);
    hide Collect;
  }

  /** With the type read last, everything of the section is there before the parameters come in. */
  lemma TypeLast(section: Params, data: Params, keys: seq<string>, e: Params)
    requires IsOrder(keys, data) && keys != [] && keys[|keys| - 1] == TYPE
    ensures LoadKeys(section, data, keys, e) == section + data + e
  {
    var n := |keys| - 1;
    BeforeType(section, data, keys[..n], e);
    ChosenLast(section, data, keys);
    assert Chosen(data, keys) == data;
  }

  /** The option of a parameter that comes last, after the section. */
  lemma ParameterLast(section: Params, data: Params, params: Params, k: string, x: string, put: Storing)
    returns (how: Loading)
    requires TYPE in data && k in params && BackendName(data[TYPE], k) == Some(x)
    ensures Fits(how, data, params)
    ensures Look(LoadSection(section, data, params, how, put), x) == Effect(section, data, put, x, params[k])
  {
    var keys := OrderEndingWith(data, TYPE);
    var order := OrderEndingWith(params, k);
    how := Loading(keys, order);
    assert x in Collect(params, order, BackendKey(data[TYPE])) && Collect(params, order, BackendKey(data[TYPE]))[x] == params[k];
    TypeLast(section, data, keys, ForType(data, params, order, put));
    ResultAt(section, data, params, order, put, x);
    hide Collect, BackendName, Effect, ForType, LoadKeys;
  }

  /** The option of a key that comes last in the section. */
  lemma KeyLast(section: Params, data: Params, params: Params, x: string, put: Storing)
    returns (how: Loading)
    requires x in data && x != TYPE
    ensures Fits(how, data, params)
    ensures Look(LoadSection(section, data, params, how, put), x) == Some(data[x])
  {
    var keys := OrderEndingWith(data, x);
    var order := SomeOrder(params.Keys);
    how := Loading(keys, order);
    assert IsOrder(order, params);
    hide Collect, BackendName, ForType;
  }

  ghost predicate OrderFree(section: Params, data: Params, params: Params, put: Storing) {
    forall a, b :: Fits(a, data, params) && Fits(b, data, params) ==>
      LoadSection(section, data, params, a, put) == LoadSection(section, data, params, b, put)
  }

  /** The orders of the loops do not matter if and only if parameters with the same option have the same effect, and each
      parameter for an option of the section is stored as the section has it or not at all.  A plain password in both
      is stored obscured from the parameters and plain from the section. */
  lemma OrderFreeExactly(section: Params, data: Params, params: Params, put: Storing)
    ensures OrderFree(section, data, params, put) <==> Harmless(section, data, params, put)
  {
    if Harmless(section, data, params, put) {
      forall a, b | Fits(a, data, params) && Fits(b, data, params)
        ensures LoadSection(section, data, params, a, put) == LoadSection(section, data, params, b, put)
      {
        hide Harmless, LoadSection, ForType, Agree;
        HarmlessAgrees(section, data, params, a.params, put);
        HarmlessAgrees(section, data, params, b.params, put);
        LoadedIsUnion(section, data, params, a, put);
        LoadedIsUnion(section, data, params, b, put);
        HarmlessSameResult(section, data, params, a.params, b.params, put);
      }
    } else {
      HarmfulDiffers(section, data, params, put);
    }
  }

  lemma TwoResults(section: Params, data: Params, params: Params, a: Loading, b: Loading, x: string, put: Storing)
    requires Fits(a, data, params) && Fits(b, data, params)
    requires Look(LoadSection(section, data, params, a, put), x) != Look(LoadSection(section, data, params, b, put), x)
    ensures !OrderFree(section, data, params, put)
  {
    hide LoadSection, Fits;
  }

  lemma HarmfulDiffers(section: Params, data: Params, params: Params, put: Storing)
    requires !Harmless(section, data, params, put)
    ensures !OrderFree(section, data, params, put)
  {
    hide BackendName, OrderFree, LoadSection, Fits, Effect;
    if j, k :| j in params && k in params && !SameEffect(section, data, params, put, j, k) {
      var x := BackendName(data[TYPE], j).value;
      var a := ParameterLast(section, data, params, j, x, put);
      var b := ParameterLast(section, data, params, k, x, put);
      TwoResults(section, data, params, a, b, x, put);
    } else {
      var k :| k in params && !Harmonious(data, params, put, k);
      var x := BackendName(data[TYPE], k).value;
      var a := ParameterLast(section, data, params, k, x, put);
      var b := KeyLast(section, data, params, x, put);
      assert Effect(section, data, put, x, params[k]) == put(x, params[k]) by { StoredEffect(section, data, put, x, params[k]); }
      TwoResults(section, data, params, a, b, x, put);
    }
  }

  lemma StoredEffect(section: Params, data: Params, put: Storing, x: string, value: string)
    requires put(x, value).Some?
    ensures Effect(section, data, put, x, value) == put(x, value)
  {
  }

  /** A plain password x that the section and the parameter t_x agree on: the order decides whether it ends obscured. */
  lemma PlainPasswordDiffers(section: Params, t: string, x: string, secret: string, put: Storing)
    requires t != "" && Normal(Prefix(t) + x) && x != TYPE && put(x, secret).Some? && put(x, secret) != Some(secret)
    ensures !OrderFree(section, map[TYPE := t, x := secret], map[Prefix(t) + x := secret], put)
  {
    var data: Params := map[TYPE := t, x := secret];
    var params: Params := map[Prefix(t) + x := secret];
    GetsName(t, x);
    hide BackendName, OrderFree, Prefix, Normal, SameEffect;
    assert !Harmonious(data, params, put, Prefix(t) + x);
    HarmfulDiffers(section, data, params, put);
  }

  // ---- the whole load ----

  /** After a load without harm every loaded section is what was there, the parsed section, and what is stored of the
      parameters for its type. */
  lemma LoadedExactly(was: Sections, now: Sections, all: Sections, params: Params, how: map<string, Loading>,
                      stores: string -> Storing, name: string)
    requires Progress(was, now, all, params, how, stores) && name in how
    requires Harmless(SectionIn(was, name), all[name], params, stores(name))
    ensures SectionIn(now, name) == SectionIn(was, name) + all[name] + ForType(all[name], params, how[name].params, stores(name))
  {
    hide Harmless, Agree, ForType;
    assert RemoteLoaded(was, now, name, all[name], params, how[name], stores(name));
    HarmlessAgrees(SectionIn(was, name), all[name], params, how[name].params, stores(name));
    LoadedIsUnion(SectionIn(was, name), all[name], params, how[name], stores(name));
  }

  // ---- a section generated from the parameters themselves ----

  /** Every parameter for the type is stored with the value that was written for its option, or not at all. */
  ghost predicate StoredAsGiven(params: Params, t: string, e: Params, put: Storing) {
    forall k | k in params && BackendName(t, k).Some? ::
      var x := BackendName(t, k).value;
      put(x, params[k]) == None || put(x, params[k]) == Look(e, x)
  }

  /** A section that was not there is loaded as it is, for all orders. */
  ghost predicate LoadsAsIs(data: Params, params: Params, put: Storing) {
    forall how :: Fits(how, data, params) ==> LoadSection(map[], data, params, how, put) == data
  }

  /** A section with a type and the parameters for it is loaded as it is exactly then. */
  lemma GeneratedExactly(params: Params, t: string, first: seq<string>, e: Params, put: Storing)
    requires IsOrder(first, params) && e == Collect(params, first, BackendKey(t)) && TYPE !in e
    ensures LoadsAsIs(e[TYPE := t], params, put) <==> StoredAsGiven(params, t, e, put)
  {
    var data := e[TYPE := t];
    if StoredAsGiven(params, t, e, put) {
      forall how | Fits(how, data, params)
        ensures LoadSection(map[], data, params, how, put) == data
      {
        GeneratedSame(params, t, e, data, how, put);
      }
    } else {
      hide LoadSection, Collect, BackendName, Fits;
      var k :| k in params && BackendName(t, k).Some?
        && put(BackendName(t, k).value, params[k]) != None && put(BackendName(t, k).value, params[k]) != Look(e, BackendName(t, k).value);
      var x := BackendName(t, k).value;
      assert x in e by { CollectedFrom(params, first, BackendKey(t)); }
      var how := ParameterLast(map[], data, params, k, x, put);
      StoredEffect(map[], data, put, x, params[k]);
      assert Look(data, x) == Look(e, x);
    }
  }

  lemma GeneratedSame(params: Params, t: string, e: Params, data: Params, how: Loading, put: Storing)
    requires StoredAsGiven(params, t, e, put) && TYPE !in e && data == e[TYPE := t] && Fits(how, data, params)
    ensures LoadSection(map[], data, params, how, put) == data
  {
    hide BackendName, Collect, LoadSection, StoredAsGiven, Stored;
    var again := Stored(Collect(params, how.params, BackendKey(t)), put);
    StoredWithin(params, t, e, how.params, put);
    assert ForType(data, params, how.params, put) == again;
    LoadedIsUnion(map[], data, params, how, put);
    assert map[] + data + again == data;
  }

  lemma StoredWithin(params: Params, t: string, e: Params, order: seq<string>, put: Storing)
    requires StoredAsGiven(params, t, e, put) && IsOrder(order, params)
    ensures var again := Stored(Collect(params, order, BackendKey(t)), put);
            forall x :: x in again ==> x in e && again[x] == e[x]
  {
    hide BackendName, Collect;
    var again := Collect(params, order, BackendKey(t));
    forall x | x in Stored(again, put)
      ensures x in e && Stored(again, put)[x] == e[x]
    {
      var k := ExtractedFrom(params, order, t, x);
    }
  }

  lemma GeneratedRead(e: Params, t: string, name: string, written: seq<string>, expand: Expansion)
    requires IsOrder(written, e) && ParamsSafe(e) && TYPE !in e && NameSafe(name) && PairSafe(TYPE, t) && KeepsPlain(expand)
    ensures ReadText(ConfigText(e, written, t, name)).Ok?
    ensures Remotes(ReadText(ConfigText(e, written, t, name)).reader.data, expand) == map[name := e[TYPE := t]]
  {
    hide ParamsSafe, NameSafe, PairSafe, KeepsPlain, ConfigText, ReadText, Remotes;
    RoundTrip(e, written, t, name, expand);
    assert map[TYPE := t] + e == e[TYPE := t];
  }

  /** A load of one new section that goes in the given orders. */
  lemma OneLoad(was: Sections, name: string, data: Params, params: Params, h: Loading, stores: string -> Storing)
    requires name !in was && data != map[] && Fits(h, data, params)
    ensures Progress(was, was[name := LoadSection(map[], data, params, h, stores(name))], map[name := data], params, map[name := h], stores)
  {
    hide LoadSection, Fits;
    assert SectionIn(was, name) == map[];
  }

  /** Every load of these remotes, whatever its orders, ends with this section. */
  ghost predicate AlwaysLoaded(was: Sections, all: Sections, params: Params, stores: string -> Storing, name: string, section: Params) {
    forall now, how: map<string, Loading> :: how.Keys == all.Keys && Progress(was, now, all, params, how, stores)
      ==> SectionIn(now, name) == section
  }

  lemma OneLoadExactly(was: Sections, name: string, data: Params, params: Params, stores: string -> Storing)
    requires name !in was && data != map[]
    ensures AlwaysLoaded(was, map[name := data], params, stores, name, data) <==> LoadsAsIs(data, params, stores(name))
  {
    hide LoadSection;
    if LoadsAsIs(data, params, stores(name)) {
      forall now, how: map<string, Loading> | how.Keys == {name} && Progress(was, now, map[name := data], params, how, stores)
        ensures SectionIn(now, name) == data
      {
        assert RemoteLoaded(was, now, name, data, params, how[name], stores(name));
      }
    } else {
      var h :| Fits(h, data, params) && LoadSection(map[], data, params, h, stores(name)) != data;
      OneLoad(was, name, data, params, h, stores);
      hide Progress;
      assert SectionIn(was[name := LoadSection(map[], data, params, h, stores(name))], name) != data;
    }
  }

  /** A volume without configuration data: the text that the driver writes for the type and its parameters, read back
      and loaded, gives a section with exactly the type and the parameters for all the orders of all the loops, of the
      extraction before writing, of the writing, of the loading, and of the extraction while loading, if and only if
      every parameter for the type is stored with the value that was written, or not at all. */
  lemma GeneratedConfigLoads(params: Params, t: string, name: string, first: seq<string>, e: Params, written: seq<string>,
                             expand: Expansion, was: Sections, stores: string -> Storing)
    requires IsOrder(first, params) && KeepsPlain(expand)
    requires e == Collect(params, first, BackendKey(t)) && IsOrder(written, e) && ParamsSafe(e) && TYPE !in e
    requires NameSafe(name) && PairSafe(TYPE, t) && name !in was
    ensures ReadText(ConfigText(e, written, t, name)).Ok?
    ensures var all := Remotes(ReadText(ConfigText(e, written, t, name)).reader.data, expand);
            AlwaysLoaded(was, all, params, stores, name, e[TYPE := t]) <==> StoredAsGiven(params, t, e, stores(name))
  {
    hide ParamsSafe, NameSafe, PairSafe, KeepsPlain, ConfigText, ReadText, Remotes, Collect, StoredAsGiven, LoadsAsIs, AlwaysLoaded;
    GeneratedRead(e, t, name, written, expand);
    GeneratedExactly(params, t, first, e, stores(name));
    assert TYPE in e[TYPE := t];
    OneLoadExactly(was, name, e[TYPE := t], params, stores);
  }
}

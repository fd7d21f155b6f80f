/** From the request to the remotes of the mount, without naming a step between: the sections that the configuration text
    has, or the one section that is generated from the type and its parameters. */
module Prepared {
  import opened Options
  import opened MapLoops
  import opened Flags
  import opened GoConfig
  import opened IniRoundTrip
  import opened IniSections
  import opened Parameters
  import opened Controller
  import opened NodeServer

  /** A configuration text that comes with the request is read as it is: the remotes are its sections, whatever the
      parameters are. */
  lemma GivenConfig(req: Request, expand: Expansion, all: Sections, params: Params,
                    lead: Params, order: seq<string>, blocks: seq<Block>)
    requires PreparedAs(req, expand, all, params) && KeepsPlain(expand)
    requires IsOrder(order, lead) && ParamsSafe(lead) && BlocksSafe(blocks) && blocks != []
    requires forall i :: 0 <= i < |blocks| ==> Listed(blocks[i])
    requires ContextOrSecret(req, "configData") == Text(PairLines(lead, order) + AllLines(blocks))
    ensures JustThese(all, blocks)
  {
    hide Missing, HasInvalidName, ParamsSafe, BlocksSafe, KeepsPlain, JustThese, ReadText, Remotes, Merged, Extracted, ContextOrSecret;
    var o, text :| PreparedFrom(req, expand, o, text, all, params);
    ContextDecides(req, o);
    SomeText(PairLines(lead, order) + AllLines(blocks), blocks);
    SectionsRoundTrip(lead, order, blocks, expand);
  }

  lemma SomeText(lines: seq<string>, blocks: seq<Block>)
    requires blocks != [] && (forall i :: 0 <= i < |blocks| ==> Listed(blocks[i])) && |lines| >= |AllLines(blocks)|
    ensures Text(lines) != ""
  {
    assert |AllLines(blocks)| >= |BlockLines(blocks[0])| > 0;
  }

  /** The options of a backend: those of the parameters that are for its type, under the backend's names. */
  ghost predicate OptionsFor(options: Params, params: Params, remoteType: string) {
    && (forall x :: x in options <==> exists k :: k in params && BackendName(remoteType, k) == Some(x))
    && (forall x :: x in options ==> exists k :: k in params && BackendName(remoteType, k) == Some(x) && options[x] == params[k])
  }

  ghost predicate SafeFor(params: Params, remoteType: string) {
    forall k :: k in params && BackendName(remoteType, k).Some? ==> PairSafe(BackendName(remoteType, k).value, params[k])
  }

  /** Without a configuration text there is one remote: its name is the remote, its type the remote type, and its options
      are those of the parameters for the type, of which there is at least one. */
  lemma GeneratedConfig(req: Request, expand: Expansion, all: Sections, params: Params)
    requires PreparedAs(req, expand, all, params) && KeepsPlain(expand) && ContextOrSecret(req, "configData") == ""
    requires NameSafe(ContextOrSecret(req, "remote")) && PairSafe("type", ContextOrSecret(req, "remoteType"))
    requires SafeFor(params, ContextOrSecret(req, "remoteType"))
    ensures ContextOrSecret(req, "remoteType") != ""
    ensures exists e :: e != map[] && OptionsFor(e, params, ContextOrSecret(req, "remoteType"))
              && all == map[ContextOrSecret(req, "remote") := map["type" := ContextOrSecret(req, "remoteType")] + e]
  {
    hide Missing, HasInvalidName, KeepsPlain, ReadText, Remotes, Merged, Extracted, ContextOrSecret, GeneratedFrom, NameSafe, PairSafe, OptionsFor, SafeFor;
    var o, text :| PreparedFrom(req, expand, o, text, all, params);
    ContextDecides(req, o);
    var pvp := Extracted(Merged(req), o);
    var first, order :| GeneratedFrom(pvp, first, order, text);
    var e := GeneratedRemote(pvp, first, order, text, expand);
  }

  lemma GeneratedRemote(pvp: PublishParams, first: seq<string>, order: seq<string>, text: string, expand: Expansion)
    returns (e: Params)
    requires GeneratedFrom(pvp, first, order, text) && KeepsPlain(expand)
    requires NameSafe(pvp.remoteName) && PairSafe("type", pvp.remoteType) && SafeFor(pvp.params, pvp.remoteType)
    ensures e != map[] && OptionsFor(e, pvp.params, pvp.remoteType)
    ensures ReadText(text).Ok?
    ensures Remotes(ReadText(text).reader.data, expand) == map[pvp.remoteName := map["type" := pvp.remoteType] + e]
  {
    e := Collect(pvp.params, first, BackendKey(pvp.remoteType));
    hide Collect, ConfigText, KeepsPlain, NameSafe, PairSafe, ReadText, Remotes;
    OptionsCollected(pvp.params, first, pvp.remoteType);
    RoundTrip(e, order, pvp.remoteType, pvp.remoteName, expand);
  }

  lemma OptionsCollected(params: Params, first: seq<string>, remoteType: string)
    requires IsOrder(first, params)
    ensures var e := Collect(params, first, BackendKey(remoteType));
            OptionsFor(e, params, remoteType) && (SafeFor(params, remoteType) ==> ParamsSafe(e))
  {
    hide Collect, BackendName, PairSafe, OptionsFor;
    OptionsTaken(params, first, remoteType);
    SafeTaken(Collect(params, first, BackendKey(remoteType)), params, remoteType);
  }

  lemma SafeTaken(e: Params, params: Params, remoteType: string)
    requires OptionsFor(e, params, remoteType)
    ensures SafeFor(params, remoteType) ==> ParamsSafe(e)
  {
    hide BackendName, PairSafe;
  }

  lemma OptionsTaken(params: Params, first: seq<string>, remoteType: string)
    requires IsOrder(first, params)
    ensures OptionsFor(Collect(params, first, BackendKey(remoteType)), params, remoteType)
  {
    hide Collect, BackendName;
    var f := BackendKey(remoteType);
    CollectedFrom(params, first, f);
    var e := Collect(params, first, f);
    forall x | x in e
      ensures exists k :: k in params && BackendName(remoteType, k) == Some(x) && e[x] == params[k]
    {
      var k :| k in first && f(k) == Some(x) && e[x] == params[k];
    }
    forall k, x | k in params && BackendName(remoteType, k) == Some(x)
      ensures x in e
    {
      assert k in first && f(k) == Some(x);
    }
  }
}

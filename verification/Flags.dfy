/** Normalised parameter names, and the extraction of a backend's parameters by name prefix. */
module Flags {
  import opened Options
  import opened GoStrings
  import opened MapLoops

  function NormalizeRcloneFlag(key: string): string {
    ToLower(ReplaceAll(TrimPrefix(key, "--"), "-", "_"))
  }

  /** No hyphen and no capital letter. */
  predicate Normal(s: string) {
    forall i :: 0 <= i < |s| ==> s[i] != '-' && !('A' <= s[i] <= 'Z')
  }

  lemma NormalizeNormal(key: string)
    ensures Normal(NormalizeRcloneFlag(key))
    ensures |NormalizeRcloneFlag(key)| == |TrimPrefix(key, "--")|
  {
    ReplaceAllChar(TrimPrefix(key, "--"), '-', '_');
  }

  /** What normalising does: two leading hyphens go, other hyphens become underscores, and capitals small letters. */
  lemma NormalizeExactly(key: string)
    ensures var k := if |key| >= 2 && key[0] == '-' && key[1] == '-' then key[2..] else key;
      var r := NormalizeRcloneFlag(key);
      |r| == |k| && forall i :: 0 <= i < |k| ==>
        if k[i] == '-' then r[i] == '_'
        else if 'A' <= k[i] <= 'Z' then 'a' <= r[i] <= 'z' && r[i] - 'a' == k[i] - 'A'
        else r[i] == k[i]
  {
    assert |key| >= 2 && key[0] == '-' && key[1] == '-' <==> "--" <= key;
    ReplaceAllChar(TrimPrefix(key, "--"), '-', '_');
    hide ReplaceAll;
  }

  /** Normal names, and only they, are left alone. */
  lemma NormalFixed(s: string)
    ensures NormalizeRcloneFlag(s) == s <==> Normal(s)
  {
    if Normal(s) {
      assert s != "" ==> s[0] != '-';
      ReplaceAllChar(s, '-', '_');
    } else {
      NormalizeNormal(s);
    }
  }

  lemma NormalizeIdempotent(key: string)
    ensures NormalizeRcloneFlag(NormalizeRcloneFlag(key)) == NormalizeRcloneFlag(key)
  {
    NormalizeNormal(key);
    NormalFixed(NormalizeRcloneFlag(key));
  }

  /** A name normalises to nothing exactly when it is empty or a bare double hyphen. */
  lemma NormalizesToNothing(key: string)
    ensures NormalizeRcloneFlag(key) == "" <==> key == "" || key == "--"
  {
    NormalizeNormal(key);
    if key != "" && TrimPrefix(key, "--") == "" { assert key == "--" + key[2..]; }
  }

  function RemovePrefixCaseInsensitive(s: string, prefix: string): string {
    if |s| < |prefix| then s
    else if EqualFold(s[..|prefix|], prefix) then s[|prefix|..]
    else s
  }

  function SanitizeFlag(remote: string, key: string): string {
    if key == "" then key
    else if remote != "" then
      NormalizeRcloneFlag(RemovePrefixCaseInsensitive(NormalizeRcloneFlag(key), remote + "_"))
    else NormalizeRcloneFlag(key)
  }

  /** The backend's name for a parameter whose name begins with the backend type, in any case. */
  function BackendName(remoteType: string, k: string): Option<string> {
    if HasPrefix(ToLower(k), ToLower(remoteType)) then Some(SanitizeFlag(remoteType, k)) else None
  }

  function BackendKey(remoteType: string): string -> Option<string> {
    k => BackendName(remoteType, k)
  }

  method ExtractRemoteTypeParams(params: map<string, string>, remoteType: string)
    returns (rcParams: map<string, string>)
    ensures exists order :: IsOrder(order, params) && rcParams == Collect(params, order, BackendKey(remoteType))
  {
    rcParams := CollectLoop(params, BackendKey(remoteType));
  }

  lemma NormalLower(s: string)
    requires Normal(s)
    ensures ToLower(s) == s
  {
  }

  /** On normal names, comparing without case is comparing with the lower-case prefix. */
  lemma FoldPrefix(k: string, prefix: string)
    requires Normal(k)
    ensures RemovePrefixCaseInsensitive(k, prefix) == if ToLower(prefix) <= k then k[|prefix|..] else k
  {
    if |k| >= |prefix| {
      NormalLower(k[..|prefix|]);
      assert ToLower(prefix) <= k <==> k[..|prefix|] == ToLower(prefix);
    }
  }

  lemma LowerUnderscore(t: string)
    ensures ToLower(t + "_") == ToLower(t) + "_"
  {
  }

  /** The prefix that is cut off. */
  function Prefix(t: string): string {
    ToLower(t) + "_"
  }

  /** On normal names: the type and its underscore are cut off. */
  lemma SanitizeNormal(t: string, k: string)
    requires t != "" && Normal(k)
    ensures SanitizeFlag(t, k) == if Prefix(t) <= k then k[|t| + 1..] else k
  {
    hide ToLower, NormalizeRcloneFlag, RemovePrefixCaseInsensitive, Normal;
    NormalFixed(k);
    FoldPrefix(k, t + "_");
    LowerUnderscore(t);
    assert |Prefix(t)| == |t| + 1;
    if Prefix(t) <= k {
      NormalTail(k, |t| + 1);
      NormalFixed(k[|t| + 1..]);
    }
  }

  lemma NormalTail(k: string, i: nat)
    requires Normal(k) && i <= |k|
    ensures Normal(k[i..])
  {
  }

  ghost predicate NormalKeys(params: map<string, string>) {
    forall k :: k in params ==> Normal(k)
  }

  /** What is left of a string after a prefix. */
  function After(s: string, prefix: string): string
    requires prefix <= s
  {
    s[|prefix|..]
  }

  lemma AfterPrefix(s: string, prefix: string)
    ensures prefix <= prefix + s && After(prefix + s, prefix) == s
    ensures prefix <= s ==> s == prefix + After(s, prefix)
  {
  }

  lemma TypeInPrefix(t: string)
    ensures ToLower(t) <= Prefix(t)
  {
    hide ToLower;
  }

  /** Which normal name is given to the backend, and under what name. */
  lemma BackendNameNormal(t: string, k: string)
    requires t != "" && Normal(k)
    ensures BackendName(t, k) ==
      if Prefix(t) <= k then Some(After(k, Prefix(t))) else if ToLower(t) <= k then Some(k) else None
  {
    hide SanitizeFlag, Normal, ToLower, NormalizeRcloneFlag;
    NormalLower(k);
    SanitizeNormal(t, k);
    TypeInPrefix(t);
    hide Prefix;
  }

  /** For a normal type: t_x is given to the backend as x, other names that begin with t as they are, and no others. */
  lemma BackendNameExactly(t: string, k: string)
    requires t != "" && Normal(t) && Normal(k)
    ensures BackendName(t, k) == if t + "_" <= k then Some(k[|t| + 1..]) else if t <= k then Some(k) else None
  {
    NormalLower(t);
    hide BackendName, Normal, ToLower;
    BackendNameNormal(t, k);
  }

  /** Extraction is exact: when every name that starts with the type t starts with t_, the backend gets x with
      value v exactly when there is a parameter t_x with value v, whatever the map order. */
  lemma ExtractionExact(params: map<string, string>, t: string, order: seq<string>, x: string)
    requires t != "" && NormalKeys(params) && IsOrder(order, params)
    requires forall k :: k in params && ToLower(t) <= k ==> Prefix(t) <= k
    ensures var rc := Collect(params, order, BackendKey(t)); var k := Prefix(t) + x;
            (x in rc <==> k in params) && (x in rc ==> rc[x] == params[k])
  {
    var f, p := BackendKey(t), Prefix(t);
    CollectedFrom(params, order, f);
    forall j | j in params && f(j) == Some(x)
      ensures j == p + x
    {
      NamedAfter(t, j, x);
    }
    if p + x in params {
      GetsName(t, x);
      assert f(p + x) == Some(x) && p + x in order;
    }
    hide Prefix, Collect;
  }

  lemma NamedAfter(t: string, j: string, x: string)
    requires t != "" && Normal(j) && (ToLower(t) <= j ==> Prefix(t) <= j) && BackendName(t, j) == Some(x)
    ensures j == Prefix(t) + x
  {
    BackendNameNormal(t, j);
    hide BackendName, ToLower, Prefix;
    AfterPrefix(j, Prefix(t));
  }

  lemma GetsName(t: string, x: string)
    requires t != "" && Normal(Prefix(t) + x)
    ensures BackendName(t, Prefix(t) + x) == Some(x)
  {
    BackendNameNormal(t, Prefix(t) + x);
    hide BackendName, ToLower, Prefix;
    AfterPrefix(x, Prefix(t));
  }

  /** Without that hypothesis two normal names clash exactly when one of them begins with t but not with t_, and
      the other is t_ before it. */
  lemma ClashExactly(t: string, j: string, k: string)
    requires t != "" && Normal(j) && Normal(k) && j != k
    ensures BackendName(t, j).Some? && BackendName(t, j) == BackendName(t, k) <==>
              (ToLower(t) <= k && !(Prefix(t) <= k) && j == Prefix(t) + k)
              || (ToLower(t) <= j && !(Prefix(t) <= j) && k == Prefix(t) + j)
  {
    BackendNameNormal(t, j);
    BackendNameNormal(t, k);
    var p, l := Prefix(t), ToLower(t);
    assert l <= p;
    assert p <= j ==> l <= j;
    assert p <= k ==> l <= k;
    hide ToLower, BackendName, Normal, Prefix;
    AfterPrefix(j, p);
    AfterPrefix(k, p);
    hide After;
  }
}

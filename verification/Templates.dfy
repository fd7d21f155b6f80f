/** Substitution of PVC and PV metadata into a remote path: replaceWithMap makes one ReplaceAll pass per map entry,
    in whatever order Go's map iteration gives.  When that equals replacing all variables at once. */
module Templates {
  import opened GoStrings
  import opened MapLoops

  const PVC_NAME := "${pvc.metadata.name}"
  const PVC_NAMESPACE := "${pvc.metadata.namespace}"
  const PV_NAME := "${pv.metadata.name}"

  predicate IsVar(k: string) {
    k == PVC_NAME || k == PVC_NAMESPACE || k == PV_NAME
  }

  // ---- the code ----

  /** The passes in the given order; an empty key is skipped. */
  function ReplaceInOrder(s: string, order: seq<string>, m: map<string, string>): string
    requires forall i :: 0 <= i < |order| ==> order[i] in m
  {
    if order == [] then s
    else
      var n := |order| - 1;
      var t := ReplaceInOrder(s, order[..n], m);
      if order[n] == "" then t else ReplaceAll(t, order[n], m[order[n]])
  }

  lemma ReplaceNext(s: string, order: seq<string>, m: map<string, string>, k: string)
    requires (forall i :: 0 <= i < |order| ==> order[i] in m) && k in m
    ensures ReplaceInOrder(s, order + [k], m) ==
              if k == "" then ReplaceInOrder(s, order, m) else ReplaceAll(ReplaceInOrder(s, order, m), k, m[k])
  {
    hide ReplaceAll;
    assert (order + [k])[..|order|] == order;
  }

  method ReplaceWithMap(s: string, m: map<string, string>) returns (r: string)
    ensures exists order :: IsOrder(order, m) && r == ReplaceInOrder(s, order, m)
  {
    r := s;
    ghost var order: seq<string> := [];
    assert r == ReplaceInOrder(s, order, m);
    hide ReplaceInOrder, ReplaceAll;
    var todo := m.Keys;
    while todo != {}
      invariant Visited(order, m, todo) && (todo == {} ==> IsOrder(order, m))
      invariant forall i :: 0 <= i < |order| ==> order[i] in m
      invariant r == ReplaceInOrder(s, order, m)
      decreases |todo|
    {
      var k :| k in todo;
      VisitOne(order, m, todo, k);
      hide Visited, IsOrder;
      ReplaceNext(s, order, m, k);
      if k != "" {
        r := ReplaceAll(r, k, m[k]);
      }
      todo, order := todo - {k}, order + [k];
    }
  }

  // ---- the meaning ----

  datatype Token = Lit(text: string) | Var(key: string)

  type Template = seq<Token>

  /** Every variable that the map knows is replaced at once; the others stay as they are. */
  function Substitute(t: Template, m: map<string, string>): string {
    if t == [] then ""
    else
      (match t[0]
       case Lit(text) => text
       case Var(k) => if k in m then m[k] else k) + Substitute(t[1..], m)
  }

  function Render(t: Template): string {
    Substitute(t, map[])
  }

  /** No place in p where the variable k begins, or could begin with p ending in the middle of it. */
  ghost predicate Inert(p: string, k: string) {
    forall i :: 0 <= i < |p| ==> !(p[i..] <= k) && !(k <= p[i..])
  }

  /** Literals are inert for every variable; literals without '$' are. */
  ghost predicate WellFormed(t: Template) {
    forall i :: 0 <= i < |t| ==>
      match t[i]
      case Lit(text) => forall k :: IsVar(k) ==> Inert(text, k)
      case Var(k) => IsVar(k)
  }

  lemma NoDollarInert(p: string, k: string)
    requires '$' !in p && IsVar(k)
    ensures Inert(p, k)
  {
    forall i | 0 <= i < |p| ensures !(p[i..] <= k) && !(k <= p[i..]) {
      assert k[0] == '$' && p[i..][0] == p[i] && p[i] in p;
    }
  }

  // ---- one pass ----

  lemma {:induction false} SkipInert(p: string, rest: string, k: string, v: string)
    requires k != "" && Inert(p, k)
    ensures ReplaceAll(p + rest, k, v) == p + ReplaceAll(rest, k, v)
    decreases |p|
  {
    var s := p + rest;
    if p == "" {
      assert s == rest;
    } else if |s| >= |k| {
      assert !(k <= s) by {
        assert p[0..] == p;
        assert k <= s ==> k <= p || p <= k;
      }
      assert s[1..] == p[1..] + rest;
      assert forall i :: 0 <= i < |p[1..]| ==> p[1..][i..] == p[i + 1..];
      SkipInert(p[1..], rest, k, v);
    }
  }

  lemma ReplaceHead(rest: string, k: string, v: string)
    requires k != ""
    ensures ReplaceAll(k + rest, k, v) == v + ReplaceAll(rest, k, v)
  {
    assert (k + rest)[|k|..] == rest;
  }

  /** A variable has '$' only at its start, and none is a prefix of another. */
  lemma VarsInert(a: string, b: string)
    requires IsVar(a) && IsVar(b) && a != b
    ensures Inert(a, b)
  {
    forall i | 0 <= i < |a| ensures !(a[i..] <= b) && !(b <= a[i..]) {
      if i > 0 {
        DollarFirst(a, i);
        assert a[i..][0] == a[i] && b[0] == '$';
      } else {
        assert a[5] != b[5] || a[14] != b[14] || a[19] != b[19];
        assert a[0..] == a;
      }
    }
  }

  lemma DollarFirst(k: string, i: nat)
    requires IsVar(k) && 0 < i < |k|
    ensures k[i] != '$'
  {
  }

  lemma {:induction false} ReplaceBySelf(s: string, k: string)
    requires k != ""
    ensures ReplaceAll(s, k, k) == s
    decreases |s|
  {
    if |s| >= |k| {
      if k <= s {
        ReplaceBySelf(s[|k|..], k);
        assert s == k + s[|k|..];
      } else {
        ReplaceBySelf(s[1..], k);
      }
    }
  }

  /** No value makes another variable appear, alone or together with what may follow it.  A variable whose value
      is its own name cannot be damaged. */
  ghost predicate InertMap(m: map<string, string>) {
    forall a, b :: a in m && b in m && a != b && m[b] != b ==> Inert(m[a], b)
  }

  function Part(m: map<string, string>, done: set<string>): map<string, string> {
    map k | k in m && k in done :: m[k]
  }

  /** The pass for k replaces exactly the variable k. */
  lemma {:induction false} OnePass(t: Template, m: map<string, string>, done: set<string>, k: string)
    requires WellFormed(t) && InertMap(m) && (forall x :: x in m ==> IsVar(x)) && k in m && k !in done && done <= m.Keys
    requires k != ""
    ensures ReplaceAll(Substitute(t, Part(m, done)), k, m[k]) == Substitute(t, Part(m, done + {k}))
    decreases |t|
  {
    if t != [] {
      var rest := Substitute(t[1..], Part(m, done));
      OnePass(t[1..], m, done, k);
      match t[0]
      case Lit(text) =>
        SkipInert(text, rest, k, m[k]);
      case Var(x) =>
        if x == k {
          ReplaceHead(rest, k, m[k]);
        } else if x in done {
          if m[k] == k {
            ReplaceBySelf(m[x] + rest, k);
            ReplaceBySelf(rest, k);
          } else {
            SkipInert(m[x], rest, k, m[k]);
          }
        } else {
          VarsInert(x, k);
          SkipInert(x, rest, k, m[k]);
        }
    }
  }

  // ---- all passes ----

  lemma {:induction false} AllPasses(t: Template, m: map<string, string>, order: seq<string>)
    requires WellFormed(t) && InertMap(m) && (forall x :: x in m ==> IsVar(x))
    requires forall i :: 0 <= i < |order| ==> order[i] in m
    requires forall i, j :: 0 <= i < j < |order| ==> order[i] != order[j]
    ensures ReplaceInOrder(Render(t), order, m) == Substitute(t, Part(m, set k | k in order))
  {
    hide InertMap, WellFormed, Substitute, ReplaceAll;
    if order == [] {
      assert Part(m, set k | k in order) == map[];
    } else {
      var n := |order| - 1;
      AllPasses(t, m, order[..n]);
      var done := set k | k in order[..n];
      assert order == order[..n] + [order[n]];
      assert done + {order[n]} == set k | k in order;
      assert order[n] !in done;
      OnePass(t, m, done, order[n]);
    }
  }

  /** With inert values every order of the passes is the substitution of all variables at once. */
  lemma OrderDoesNotMatter(t: Template, m: map<string, string>, order: seq<string>)
    requires WellFormed(t) && InertMap(m) && (forall x :: x in m ==> IsVar(x)) && IsOrder(order, m)
    ensures ReplaceInOrder(Render(t), order, m) == Substitute(t, m)
  {
    AllPasses(t, m, order);
    assert Part(m, set k | k in order) == m;
  }

  /** Values without '$', such as every name that Kubernetes gives, are inert. */
  lemma NoDollarInertMap(m: map<string, string>)
    requires forall k :: k in m ==> IsVar(k) && '$' !in m[k]
    ensures InertMap(m)
  {
    forall a, b | a in m && b in m && a != b ensures Inert(m[a], b) { NoDollarInert(m[a], b); }
  }

  // ---- and only then ----

  function Count(s: string, k: string): nat
    requires k != ""
    decreases |s|
  {
    if |s| < |k| then 0 else if k <= s then 1 + Count(s[|k|..], k) else Count(s[1..], k)
  }

  lemma {:induction false} ReplaceLength(s: string, k: string, v: string)
    requires k != ""
    ensures |ReplaceAll(s, k, v)| == |s| + Count(s, k) * (|v| - |k|)
    decreases |s|
  {
    if |s| >= |k| {
      if k <= s {
        var rest := s[|k|..];
        ReplaceLength(rest, k, v);
        MulSucc(Count(rest, k), |v| - |k|);
        assert |ReplaceAll(s, k, v)| == |v| + |ReplaceAll(rest, k, v)|;
      } else {
        ReplaceLength(s[1..], k, v);
      }
    }
  }

  lemma MulSucc(c: int, d: int)
    ensures (1 + c) * d == d + c * d
  {
  }

  lemma {:induction false} CountPositive(s: string, k: string, i: nat)
    requires k != "" && i <= |s| && k <= s[i..]
    ensures Count(s, k) > 0
    decreases |s|
  {
    if !(k <= s) {
      assert i > 0 && s[i..] == s[1..][i - 1..];
      CountPositive(s[1..], k, i - 1);
    }
  }

  lemma {:induction false} SameLengthChanges(s: string, k: string, v: string)
    requires k != "" && |v| == |k| && v != k && Count(s, k) > 0
    ensures ReplaceAll(s, k, v) != s
    decreases |s|
  {
    var r := ReplaceAll(s, k, v);
    if k <= s {
      assert r[..|k|] == v && s[..|k|] == k;
    } else {
      SameLengthChanges(s[1..], k, v);
      assert r[1..] == ReplaceAll(s[1..], k, v);
    }
  }

  lemma ProductNotZero(c: int, d: int)
    requires c != 0 && d != 0
    ensures c * d != 0
  {
  }

  /** Replacing an occurring string by another one changes the text. */
  lemma ReplaceChanges(s: string, k: string, v: string, i: nat)
    requires k != "" && v != k && i <= |s| && k <= s[i..]
    ensures ReplaceAll(s, k, v) != s
  {
    CountPositive(s, k, i);
    if |v| == |k| {
      SameLengthChanges(s, k, v);
    } else {
      ReplaceLength(s, k, v);
      ProductNotZero(Count(s, k), |v| - |k|);
    }
  }

  lemma TwoTokens(a: string, rest: string, m: map<string, string>)
    ensures Substitute([Var(a), Lit(rest)], m) == (if a in m then m[a] else a) + rest
  {
    var t := [Var(a), Lit(rest)];
    assert t[1..] == [Lit(rest)] && t[1..][1..] == [];
    assert rest + "" == rest && Substitute([Lit(rest)], m) == rest;
  }

  /** The rest of a variable that begins at the end of a value. */
  lemma RestOf(v: string, b: string, i: nat) returns (rest: string)
    requires IsVar(b) && i < |v| && v[i..] <= b
    ensures b == (v + rest)[i..] && '$' !in rest
  {
    var n := |v| - i;
    rest := b[n..];
    assert (v + rest)[i..] == v[i..] + rest;
    assert b[..n] == v[i..];
    forall j | 0 <= j < |rest| ensures rest[j] != '$' {
      DollarFirst(b, n + j);
    }
  }

  /** A value in which another variable begins, and the literal that completes that variable. */
  lemma Completion(v: string, b: string) returns (i: nat, rest: string)
    requires IsVar(b) && !Inert(v, b)
    ensures i < |v| && b <= (v + rest)[i..] && '$' !in rest
  {
    hide IsVar;
    i :| 0 <= i < |v| && (v[i..] <= b || b <= v[i..]);
    hide Inert;
    if b <= v[i..] {
      rest := "";
      assert v + rest == v;
    } else {
      rest := RestOf(v, b, i);
    }
  }

  lemma ReplaceLast(s: string, order: seq<string>, k: string, m: map<string, string>)
    requires (forall i :: 0 <= i < |order| ==> order[i] in m) && k in m && k != ""
    ensures ReplaceInOrder(s, order + [k], m) == ReplaceAll(ReplaceInOrder(s, order, m), k, m[k])
  {
    assert (order + [k])[..|order + [k]| - 1] == order;
  }

  /** The order that first makes a pass for the third variable, if it is mapped, and then for a and b. */
  lemma LastTwo(m: map<string, string>, a: string, b: string) returns (first: seq<string>)
    requires (forall x :: x in m ==> IsVar(x)) && a in m && b in m && a != b
    ensures IsOrder(first + [a] + [b], m) && (forall c :: c in first ==> c in m && c != a)
    ensures |first| <= 1
  {
    var others := m.Keys - {a, b};
    if c :| c in others {
      first := [c];
      assert forall x :: x in m ==> x == a || x == b || x == c;
    } else {
      first := [];
      assert forall x :: x in m ==> x !in others;
    }
  }

  /** If a value is not inert for another variable, some template and some order give another result. */
  lemma NotInertGoesWrong(m: map<string, string>, a: string, b: string) returns (t: Template, order: seq<string>)
    requires (forall x :: x in m ==> IsVar(x)) && a in m && b in m && a != b && m[b] != b && !Inert(m[a], b)
    ensures WellFormed(t) && IsOrder(order, m)
    ensures ReplaceInOrder(Render(t), order, m) != Substitute(t, m)
  {
    hide ReplaceAll, IsOrder, Inert;
    var i, rest := Completion(m[a], b);
    forall k | IsVar(k) ensures Inert(rest, k) { NoDollarInert(rest, k); }
    t := [Var(a), Lit(rest)];
    TwoTokens(a, rest, m);
    TwoTokens(a, rest, map[]);
    hide Substitute;
    var first := LastTwo(m, a, b);
    order := first + [a] + [b];
    WrongInTheEnd(m, a, b, first, rest, i);
  }

  lemma VarNotEmpty(k: string)
    requires IsVar(k)
    ensures k != ""
  {
  }

  /** A pass for a third variable changes nothing. */
  lemma FirstPass(m: map<string, string>, a: string, first: seq<string>, rest: string)
    requires (forall x :: x in m ==> IsVar(x)) && a in m && (forall k :: IsVar(k) ==> Inert(rest, k))
    requires |first| <= 1 && (forall c :: c in first ==> c in m && c != a)
    ensures ReplaceInOrder(a + rest, first, m) == a + rest
  {
    hide ReplaceAll, Inert, IsVar;
    if first != [] {
      assert first == [] + [first[0]] && first[0] in first;
      VarNotEmpty(first[0]);
      VarsInert(a, first[0]);
      SkipInert(a, rest, first[0], m[first[0]]);
      PassOver(rest, first[0], m[first[0]]);
      ReplaceLast(a + rest, [], first[0], m);
    }
  }

  lemma WrongInTheEnd(m: map<string, string>, a: string, b: string, first: seq<string>, rest: string, i: nat)
    requires (forall x :: x in m ==> IsVar(x)) && a in m && b in m && m[b] != b
    requires |first| <= 1 && (forall c :: c in first ==> c in m && c != a)
    requires (forall k :: IsVar(k) ==> Inert(rest, k)) && i < |m[a]| && b <= (m[a] + rest)[i..]
    ensures ReplaceInOrder(a + rest, first + [a] + [b], m) != m[a] + rest
  {
    hide ReplaceAll, Inert, IsVar, ReplaceInOrder;
    VarNotEmpty(a);
    VarNotEmpty(b);
    FirstPass(m, a, first, rest);
    ReplaceLast(a + rest, first, a, m);
    PassOver(rest, a, m[a]);
    ReplaceHead(rest, a, m[a]);
    ReplaceLast(a + rest, first + [a], b, m);
    ReplaceChanges(m[a] + rest, b, m[b], i);
  }

  lemma PassOver(p: string, k: string, v: string)
    requires k != "" && Inert(p, k)
    ensures ReplaceAll(p, k, v) == p
  {
    SkipInert(p, "", k, v);
    assert p + "" == p;
  }

  /** Main result: the passes give the simultaneous substitution for every template and every map order if and
      only if the values are inert. */
  lemma ConfluentExactlyWhenInert(m: map<string, string>)
    requires forall x :: x in m ==> IsVar(x)
    ensures InertMap(m) <==>
      forall t, order :: WellFormed(t) && IsOrder(order, m) ==> ReplaceInOrder(Render(t), order, m) == Substitute(t, m)
  {
    if InertMap(m) {
      forall t, order | WellFormed(t) && IsOrder(order, m)
        ensures ReplaceInOrder(Render(t), order, m) == Substitute(t, m)
      {
        OrderDoesNotMatter(t, m, order);
      }
    } else {
      var a, b :| a in m && b in m && a != b && m[b] != b && !Inert(m[a], b);
      var t, order := NotInertGoesWrong(m, a, b);
    }
  }
}

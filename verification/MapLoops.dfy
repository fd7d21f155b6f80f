/** Loops over Go maps.  The order of a Go map iteration is not specified, so a loop has one result for every
    order of the keys; many of the driver's loops have the form "for k, v := range m { out[f(k)] = v }". */
module MapLoops {
  import opened Options

  /** Each key of the map once. */
  ghost predicate IsOrder<V>(order: seq<string>, m: map<string, V>) {
    && (forall k :: k in order <==> k in m)
    && (forall i :: 0 <= i < |order| ==> order[i] in m)
    && (forall i, j :: 0 <= i < j < |order| ==> order[i] != order[j])
  }

  /** In the middle of a loop: the keys in order are done, those in todo are not. */
  ghost predicate Visited<V>(order: seq<string>, m: map<string, V>, todo: set<string>) {
    && todo <= m.Keys
    && (forall k :: k in order <==> k in m.Keys - todo)
    && (forall i :: 0 <= i < |order| ==> order[i] in m)
    && (forall i, j :: 0 <= i < j < |order| ==> order[i] != order[j])
  }

  lemma VisitOne<V>(order: seq<string>, m: map<string, V>, todo: set<string>, k: string)
    requires Visited(order, m, todo) && k in todo
    ensures Visited(order + [k], m, todo - {k}) && k in m && k !in order
    ensures todo == {k} ==> IsOrder(order + [k], m)
  {
    assert k !in order;
    forall i | 0 <= i < |order| ensures order[i] != k { assert order[i] in order; }
  }

  /** What the loop has collected after the keys in this order: f renames a key, or drops it. */
  function Collect(m: map<string, string>, order: seq<string>, f: string -> Option<string>): map<string, string>
    requires forall i :: 0 <= i < |order| ==> order[i] in m
  {
    if order == [] then map[]
    else
      var n := |order| - 1;
      var before := Collect(m, order[..n], f);
      match f(order[n])
      case None => before
      case Some(x) => before[x := m[order[n]]]
  }

  lemma CollectNext(m: map<string, string>, order: seq<string>, f: string -> Option<string>, k: string)
    requires (forall i :: 0 <= i < |order| ==> order[i] in m) && k in m
    ensures Collect(m, order + [k], f) ==
              match f(k)
              case None => Collect(m, order, f)
              case Some(x) => Collect(m, order, f)[x := m[k]]
  {
    assert (order + [k])[..|order|] == order;
  }

  /** The loop. */
  method CollectLoop(m: map<string, string>, f: string -> Option<string>) returns (out: map<string, string>)
    ensures exists order :: IsOrder(order, m) && out == Collect(m, order, f)
  {
    out := map[];
    ghost var order: seq<string> := [];
    assert out == Collect(m, order, f);
    hide Collect;
    var todo := m.Keys;
    while todo != {}
      invariant Visited(order, m, todo) && (todo == {} ==> IsOrder(order, m))
      invariant forall i :: 0 <= i < |order| ==> order[i] in m
      invariant out == Collect(m, order, f)
      decreases |todo|
    {
      var k :| k in todo;
      VisitOne(order, m, todo, k);
      hide Visited, IsOrder;
      CollectNext(m, order, f, k);
      match f(k) {
        case None =>
        case Some(x) => out := out[x := m[k]];
      }
      todo, order := todo - {k}, order + [k];
    }
  }

  /** No two keys with different values are renamed to the same one. */
  ghost predicate NoClash(m: map<string, string>, f: string -> Option<string>) {
    forall j, k :: j in m && k in m && f(j).Some? && f(j) == f(k) ==> m[j] == m[k]
  }

  /** The collected keys are exactly the new names, and each value comes from a key with that name. */
  lemma {:induction false} CollectedFrom(m: map<string, string>, order: seq<string>, f: string -> Option<string>)
    requires forall i :: 0 <= i < |order| ==> order[i] in m
    ensures forall x :: x in Collect(m, order, f) <==> exists k :: k in order && f(k) == Some(x)
    ensures forall x :: x in Collect(m, order, f) ==>
              exists k :: k in order && f(k) == Some(x) && Collect(m, order, f)[x] == m[k]
  {
    if order != [] {
      var n := |order| - 1;
      CollectedFrom(m, order[..n], f);
      assert order == order[..n] + [order[n]];
      var out, before := Collect(m, order, f), Collect(m, order[..n], f);
      forall x | x in out
        ensures exists k :: k in order && f(k) == Some(x) && out[x] == m[k]
      {
        if f(order[n]) == Some(x) {
          assert order[n] in order;
        } else {
          var k :| k in order[..n] && f(k) == Some(x) && before[x] == m[k];
          assert k in order;
        }
      }
      forall x | exists k :: k in order && f(k) == Some(x)
        ensures x in out
      {
        var k :| k in order && f(k) == Some(x);
        assert k == order[n] || k in order[..n];
      }
    }
  }

  /** Without clashes the result is the renamed map, for every order. */
  lemma CollectRenames(m: map<string, string>, order: seq<string>, f: string -> Option<string>, k: string)
    requires IsOrder(order, m) && NoClash(m, f) && k in m && f(k).Some?
    ensures f(k).value in Collect(m, order, f) && Collect(m, order, f)[f(k).value] == m[k]
  {
    CollectedFrom(m, order, f);
    assert k in order;
  }

  lemma CollectWithin(m: map<string, string>, a: seq<string>, b: seq<string>, f: string -> Option<string>, x: string)
    requires IsOrder(a, m) && IsOrder(b, m) && NoClash(m, f) && x in Collect(m, a, f)
    ensures x in Collect(m, b, f) && Collect(m, a, f)[x] == Collect(m, b, f)[x]
  {
    CollectedFrom(m, a, f);
    hide Collect, NoClash;
    var k :| k in a && f(k) == Some(x);
    CollectRenames(m, a, f, k);
    CollectRenames(m, b, f, k);
  }

  lemma SameForEveryOrder(m: map<string, string>, a: seq<string>, b: seq<string>, f: string -> Option<string>)
    requires IsOrder(a, m) && IsOrder(b, m) && NoClash(m, f)
    ensures Collect(m, a, f) == Collect(m, b, f)
  {
    hide Collect, NoClash;
    forall x | x in Collect(m, a, f)
      ensures x in Collect(m, b, f) && Collect(m, a, f)[x] == Collect(m, b, f)[x]
    {
      CollectWithin(m, a, b, f, x);
    }
    forall x | x in Collect(m, b, f) ensures x in Collect(m, a, f) { CollectWithin(m, b, a, f, x); }
  }

  /** Some order of a set of keys. */
  lemma {:induction false} SomeOrder(keys: set<string>) returns (order: seq<string>)
    ensures forall k :: k in order <==> k in keys
    ensures forall i, j :: 0 <= i < j < |order| ==> order[i] != order[j]
    decreases |keys|
  {
    if keys == {} {
      order := [];
    } else {
      var k :| k in keys;
      var rest := SomeOrder(keys - {k});
      order := rest + [k];
    }
  }

  /** An order that ends with a given key. */
  lemma OrderEndingWith(m: map<string, string>, k: string) returns (order: seq<string>)
    requires k in m
    ensures IsOrder(order, m) && order != [] && order[|order| - 1] == k
  {
    var rest := SomeOrder(m.Keys - {k});
    order := rest + [k];
  }

  /** An order that starts with a given key. */
  lemma OrderStartingWith<V>(m: map<string, V>, k: string) returns (order: seq<string>)
    requires k in m
    ensures IsOrder(order, m) && order != [] && order[0] == k
  {
    var rest := SomeOrder(m.Keys - {k});
    forall i | 0 <= i < |rest| ensures rest[i] in m && rest[i] != k { assert rest[i] in rest; }
    order := [k] + rest;
  }

  /** The loop has the same result for every map order if and only if no two keys clash. */
  lemma OrderIndependentExactly(m: map<string, string>, f: string -> Option<string>)
    ensures NoClash(m, f) <==>
      forall a, b :: IsOrder(a, m) && IsOrder(b, m) ==> Collect(m, a, f) == Collect(m, b, f)
  {
    if NoClash(m, f) {
      forall a, b | IsOrder(a, m) && IsOrder(b, m) ensures Collect(m, a, f) == Collect(m, b, f) {
        SameForEveryOrder(m, a, b, f);
      }
    } else {
      var j, k :| j in m && k in m && f(j).Some? && f(j) == f(k) && m[j] != m[k];
      var a := OrderEndingWith(m, j);
      var b := OrderEndingWith(m, k);
      assert Collect(m, a, f)[f(j).value] == m[j] && Collect(m, b, f)[f(j).value] == m[k];
    }
  }
}

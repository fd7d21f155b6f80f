/** The VFSes that are in use, as the vfs package keeps them: creation under the patch, creation under the rule that the
    patch removes, and shutdown.  The old rule shared a VFS between mounts with the same configuration name and options,
    and so between contexts. */
module VfsCache {

  /** What mounts must have in common to share a VFS. */
  datatype Kind = Kind(configName: string, options: string)

  /** What a mount asks for: a filesystem that was made with the mount's own context. */
  datatype Mounting = Mounting(ctx: nat, kind: Kind)

  /** A VFS: the context and kind of the mount that it was made for, and its count of users. */
  datatype Made = Made(ctx: nat, kind: Kind, inUse: int)

  /** All VFSes that have been made, and by configuration name the places in `made` of the active ones. */
  datatype Pool = Pool(made: seq<Made>, active: map<string, seq<nat>>)

  function Under(active: map<string, seq<nat>>, name: string): seq<nat> {
    if name in active then active[name] else []
  }

  predicate HasOptions(p: Pool, v: nat, options: string) {
    v < |p.made| && p.made[v].kind.options == options
  }

  /** The place in the list of the first VFS with these options, or its length. */
  function Search(p: Pool, list: seq<nat>, options: string): (i: nat)
    ensures i <= |list| && (forall j :: 0 <= j < i ==> !HasOptions(p, list[j], options))
    ensures i < |list| ==> HasOptions(p, list[i], options)
  {
    if list == [] then 0
    else if HasOptions(p, list[0], options) then 0
    else
      var i := Search(p, list[1..], options);
      assert forall j :: 0 <= j < |list| - 1 ==> list[1..][j] == list[j + 1];
      1 + i
  }

  lemma SearchIs(p: Pool, list: seq<nat>, options: string, i: nat)
    requires i <= |list| && (forall j :: 0 <= j < i ==> !HasOptions(p, list[j], options))
    requires i < |list| ==> HasOptions(p, list[i], options)
    ensures Search(p, list, options) == i
  {
    var s := Search(p, list, options);
    assert s < |list| ==> HasOptions(p, list[s], options);
  }

  function Create(p: Pool, m: Mounting): Pool {
    var name := m.kind.configName;
    Pool(p.made + [Made(m.ctx, m.kind, 1)], p.active[name := Under(p.active, name) + [|p.made|]])
  }

  /** vfs.New: under the old rule the first active VFS of the kind, if there is one; else a new one. */
  function Acquire(p: Pool, reuse: bool, m: Mounting): (r: (Pool, nat))
    ensures r.1 < |r.0.made| && |p.made| <= |r.0.made|
  {
    var list := Under(p.active, m.kind.configName);
    var i := Search(p, list, m.kind.options);
    if reuse && i < |list| then
      var v := list[i];
      (p.(made := p.made[v := p.made[v].(inUse := p.made[v].inUse + 1)]), v)
    else
      (Create(p, m), |p.made|)
  }

  function Without(list: seq<nat>, v: nat): seq<nat> {
    if list == [] then [] else if list[0] == v then list[1..] else [list[0]] + Without(list[1..], v)
  }

  /** VFS.Shutdown: one user less, and without users the VFS leaves the active ones. */
  function Shut(p: Pool, v: nat): Pool
    requires v < |p.made|
  {
    var inUse, name := p.made[v].inUse - 1, p.made[v].kind.configName;
    var list := Under(p.active, name);
    Pool(p.made[v := p.made[v].(inUse := inUse)],
         if inUse <= 0 && v in list then p.active[name := Without(list, v)] else p.active)
  }

  class Vfs {
    const ctx: nat
    const kind: Kind
    ghost const place: nat
    var inUse: int

    constructor (m: Mounting, ghost at: nat)
      ensures ctx == m.ctx && kind == m.kind && place == at && inUse == 1
    {
      ctx, kind, place, inUse := m.ctx, m.kind, at, 1;
    }
  }

  class ActiveVfs {
    var active: map<string, seq<Vfs>>
    ghost var made: seq<Vfs>

    constructor ()
      ensures Valid() && made == [] && Contents() == Pool([], map[])
    {
      active, made := map[], [];
    }

    function Listed(name: string): seq<Vfs>
      reads this
    {
      if name in active then active[name] else []
    }

    ghost predicate Valid()
      reads this
    {
      && (forall v :: 0 <= v < |made| ==> made[v].place == v)
      && (forall name, i :: name in active && 0 <= i < |active[name]| ==>
            active[name][i].place < |made| && made[active[name][i].place] == active[name][i])
    }

    ghost function Contents(): Pool
      reads this, made
    {
      Pool(seq(|made|, v requires 0 <= v < |made| reads this, made => Made(made[v].ctx, made[v].kind, made[v].inUse)),
           map name | name in active :: Places(active[name]))
    }

    /** The patched vfs.New: a new VFS, made from the mount's own filesystem and so bound to its own context. */
    method New(m: Mounting) returns (vfs: Vfs)
      requires Valid()
      modifies this
      ensures Valid() && fresh(vfs) && made == old(made) + [vfs]
      ensures vfs.ctx == m.ctx && vfs.kind == m.kind
      ensures (Contents(), vfs.place) == Acquire(old(Contents()), false, m)
    {
      ghost var p, list := Contents(), Listed(m.kind.configName);
      vfs := new Vfs(m, |made|);
      active := active[m.kind.configName := Listed(m.kind.configName) + [vfs]];
      made := made + [vfs];
      assert Under(p.active, m.kind.configName) == Places(list);
      assert Places(list + [vfs]) == Places(list) + [vfs.place];
      assert Contents().made == Create(p, m).made;
      assert Contents().active == Create(p, m).active;
    }

    /** vfs.New before the patch. */
    method NewReusing(m: Mounting) returns (vfs: Vfs)
      requires Valid()
      modifies this, made
      ensures Valid() && vfs.place < |made| && made[vfs.place] == vfs
      ensures made == old(made) || (fresh(vfs) && made == old(made) + [vfs])
      ensures (Contents(), vfs.place) == Acquire(old(Contents()), true, m)
    {
      ghost var p := Contents();
      var list := Listed(m.kind.configName);
      assert Under(p.active, m.kind.configName) == Places(list);
      for i := 0 to |list|
        invariant forall j :: 0 <= j < i ==> !HasOptions(p, Places(list)[j], m.kind.options)
        invariant Contents() == p && Valid() && made == old(made) && active == old(active)
      {
        if list[i].kind.options == m.kind.options {
          vfs := list[i];
          SearchIs(p, Places(list), m.kind.options, i);
          vfs.inUse := vfs.inUse + 1;
          assert Contents().made == Acquire(p, true, m).0.made;
          assert Contents().active == p.active;
          return;
        }
      }
      SearchIs(p, Places(list), m.kind.options, |list|);
      vfs := New(m);
    }

    /** The loop of Shutdown over the active VFSes of the name. */
    method Remove(vfs: Vfs)
      requires Valid() && vfs in made
      modifies this`active
      ensures Valid()
      ensures var name := vfs.kind.configName;
        var places := Places(old(Listed(name)));
        Contents() == Pool(old(Contents()).made,
          if vfs.place in places then old(Contents()).active[name := Without(places, vfs.place)] else old(Contents()).active)
    {
      ghost var p := Contents();
      var name := vfs.kind.configName;
      var list := Listed(name);
      for i := 0 to |list|
        invariant forall j :: 0 <= j < i ==> list[j].place != vfs.place
        invariant active == old(active)
      {
        if list[i] == vfs {
          PlacesWithout(list, i);
          assert Places(list)[i] == vfs.place;
          active := active[name := list[..i] + list[i + 1..]];
          assert Contents().active == p.active[name := Without(Places(list), vfs.place)];
          return;
        }
      }
    }

    /** VFS.Shutdown. */
    method Shutdown(vfs: Vfs)
      requires Valid() && vfs in made
      modifies this`active, vfs
      ensures Valid() && Contents() == Shut(old(Contents()), vfs.place)
    {
      ghost var p := Contents();
      vfs.inUse := vfs.inUse - 1;
      assert Contents() == Pool(p.made[vfs.place := p.made[vfs.place].(inUse := vfs.inUse)], p.active);
      assert Under(p.active, vfs.kind.configName) == Places(Listed(vfs.kind.configName));
      if vfs.inUse > 0 {
        return;
      }
      Remove(vfs);
    }
  }

  ghost function Places(list: seq<Vfs>): seq<nat> {
    seq(|list|, i requires 0 <= i < |list| => list[i].place)
  }

  lemma {:induction false} WithoutAt(list: seq<nat>, i: nat)
    requires i < |list| && list[i] !in list[..i]
    ensures Without(list, list[i]) == list[..i] + list[i + 1..]
  {
    if i > 0 {
      var rest := list[1..];
      assert list[..i] == [list[0]] + rest[..i - 1];
      WithoutAt(rest, i - 1);
      assert list[i + 1..] == rest[i..];
    }
  }

  lemma PlacesWithout(list: seq<Vfs>, i: nat)
    requires i < |list| && forall j :: 0 <= j < i ==> list[j].place != list[i].place
    ensures Without(Places(list), list[i].place) == Places(list[..i] + list[i + 1..])
  {
    var places := Places(list);
    assert places[..i] == Places(list[..i]);
    WithoutAt(places, i);
    assert Places(list[..i] + list[i + 1..]) == places[..i] + places[i + 1..];
  }

  /** Over a run of mounts: each has its own VFS bound to its own context. */
  method MountAll(pool: ActiveVfs, mounts: seq<Mounting>) returns (vfs: seq<Vfs>)
    requires pool.Valid()
    modifies pool
    ensures pool.Valid() && |vfs| == |mounts|
    ensures forall k :: 0 <= k < |vfs| ==> fresh(vfs[k]) && vfs[k].ctx == mounts[k].ctx
    ensures forall j, k :: 0 <= j < k < |vfs| ==> vfs[j] != vfs[k]
  {
    vfs := [];
    for k := 0 to |mounts|
      invariant pool.Valid() && |vfs| == k
      invariant forall j :: 0 <= j < k ==> fresh(vfs[j]) && vfs[j].ctx == mounts[j].ctx
      invariant forall i, j :: 0 <= i < j < k ==> vfs[i] != vfs[j]
    {
      var v := pool.New(mounts[k]);
      vfs := vfs + [v];
    }
  }
}

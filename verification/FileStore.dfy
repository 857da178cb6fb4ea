/** The public operations on the trees. Each holds the mount lock throughout, so each is one step. */
module FileStore {
  import opened Guards
  import opened Graphs
  import opened Options
  import opened FileTree

  // ---------- Paths ----------

  /** Where the first slash is, or the length if there is none. */
  function FirstSlash(path: Name): (k: nat)
    ensures k <= |path| && 47 !in path[..k] && (k < |path| ==> path[k] == 47)
  {
    if path == [] || path[0] == 47 then 0 else
      assert path[..FirstSlash(path[1..]) + 1] == [path[0]] + path[1..][..FirstSlash(path[1..])];
      FirstSlash(path[1..]) + 1
  }

  /** The live directory an entry's child of that name is, if it is one. */
  function Enter(es: map<nat, Entry>, d: nat, name: Name): Option<nat>
    requires EntriesOk(es) && d in es
  {
    assert EntryOk(es, d);
    if !NameOk(name) then None else
    match Find(es, d, name)
    case None => None
    case Some(e) =>
      FindInFinds(es, es[d].buckets[Bucket(name)], name);
      if es[e].kind == Dir then Some(e) else None
  }

  lemma EnterMeans(es: map<nat, Entry>, d: nat, name: Name)
    requires EntriesOk(es) && d in es
    ensures var r := Enter(es, d, name);
            r.Some? ==>
              r.value in es && es[r.value].tree == es[d].tree && es[r.value].kind == Dir
              && !es[r.value].removed
  {
    assert EntryOk(es, d);
    FindInFinds(es, es[d].buckets[Bucket(name)], name);
    if Enter(es, d, name).Some? {
      assert ChildOk(es, d, Bucket(name), Enter(es, d, name).value);
    }
  }

  /** The directory and the last name of a path below d. */
  function ParentOf(es: map<nat, Entry>, d: nat, path: Name): Option<(nat, Name)>
    requires EntriesOk(es) && d in es
    decreases |path|
  {
    var k := FirstSlash(path);
    if k == |path| then
      if NameOk(path) then Some((d, path)) else None
    else
      EnterMeans(es, d, path[..k]);
      match Enter(es, d, path[..k])
      case None => None
      case Some(e) => ParentOf(es, e, path[k + 1..])
  }

  lemma {:induction false} ParentMeans(es: map<nat, Entry>, d: nat, path: Name)
    requires EntriesOk(es) && d in es && es[d].kind == Dir && !es[d].removed
    ensures var r := ParentOf(es, d, path);
            r.Some? ==>
              r.value.0 in es && es[r.value.0].tree == es[d].tree && es[r.value.0].kind == Dir
              && !es[r.value.0].removed && NameOk(r.value.1)
    decreases |path|
  {
    var k := FirstSlash(path);
    if k < |path| {
      EnterMeans(es, d, path[..k]);
      var r := Enter(es, d, path[..k]);
      if r.Some? {
        ParentMeans(es, r.value, path[k + 1..]);
      }
    }
  }

  /** The directory a path below d names. */
  function DirAt(es: map<nat, Entry>, d: nat, path: Name): Option<nat>
    requires EntriesOk(es) && d in es
    decreases |path|
  {
    var k := FirstSlash(path);
    EnterMeans(es, d, path[..k]);
    match Enter(es, d, path[..k])
    case None => None
    case Some(e) => if k == |path| then Some(e) else DirAt(es, e, path[k + 1..])
  }

  lemma {:induction false} DirAtMeans(es: map<nat, Entry>, d: nat, path: Name)
    requires EntriesOk(es) && d in es
    ensures var r := DirAt(es, d, path);
            r.Some? ==>
              r.value in es && es[r.value].tree == es[d].tree && es[r.value].kind == Dir
              && !es[r.value].removed
    decreases |path|
  {
    var k := FirstSlash(path);
    EnterMeans(es, d, path[..k]);
    var r := Enter(es, d, path[..k]);
    if r.Some? && k < |path| {
      DirAtMeans(es, r.value, path[k + 1..]);
    }
  }

  /** ft_target: the directory of tree t a mount specification names; "." is the root. */
  function TargetOf(st: State, t: nat, path: Name): Option<nat>
    requires Inv(st) && t in st.trees
  {
    assert TreeOk(st, t);
    if path == [] || path[0] == 47 then None
    else if path == [46] then Some(st.trees[t].root)
    else DirAt(st.entries, st.trees[t].root, path)
  }

  lemma TargetMeans(st: State, t: nat, path: Name)
    requires Inv(st) && t in st.trees
    ensures var r := TargetOf(st, t, path);
            r.Some? ==>
              r.value in st.entries && st.entries[r.value].tree == t && st.entries[r.value].kind == Dir
              && !st.entries[r.value].removed
  {
    assert TreeOk(st, t);
    DirAtMeans(st.entries, st.trees[t].root, path);
  }

  // ---------- What a change does to lookups ----------

  lemma {:induction false} FindInKept(es: map<nat, Entry>, es2: map<nat, Entry>, chain: seq<nat>, name: Name)
    requires Known(es, chain) && forall c :: c in chain ==> SameChild(es, es2, c)
    ensures Known(es2, chain) && FindIn(es2, chain, name) == FindIn(es, chain, name)
  {
    assert forall i :: 0 <= i < |chain| ==> chain[i] in chain;
    if chain != [] {
      FindInKept(es, es2, chain[1..], name);
    }
  }

  lemma AddKeepsKnown(es: map<nat, Entry>, es2: map<nat, Entry>, d: nat, c: nat, name: Name, x: nat)
    requires d in es && ChainsOk(es, d) && x in es && ChainsOk(es, x) && c !in es
    requires c in es2 && es2 == es[c := es2[c]][d := Push(es[d], Bucket(name), c)]
    ensures KnownBuckets(es2, x)
  {
    forall b | 0 <= b < 64 ensures Known(es2, es2[x].buckets[b]) {
      assert Known(es, es[x].buckets[b]);
    }
  }

  /** After adding a child, its directory finds it under its name; nothing else changes. */
  lemma FindAfterAdd(es: map<nat, Entry>, es2: map<nat, Entry>, d: nat, c: nat, name: Name, x: nat, n: Name)
    requires d in es && ChainsOk(es, d) && x in es && ChainsOk(es, x) && c !in es && es[d].kind == Dir
    requires c in es2 && es2 == es[c := es2[c]][d := Push(es[d], Bucket(name), c)] && es2[c].name == name
             && !es2[c].removed
    ensures KnownBuckets(es2, x) && Find(es2, x, n) == if x == d && n == name then Some(c) else Find(es, x, n)
  {
    AddKeepsKnown(es, es2, d, c, name, x);
    var b := Bucket(n);
    FindInKept(es, es2, es[x].buckets[b], n);
    if x == d && b == Bucket(name) {
      assert es2[x].buckets[b][1..] == es[x].buckets[b];
    }
  }

  lemma {:induction false} FindWithout(es: map<nat, Entry>, d: nat, b: nat, chain: seq<nat>, e: nat, n: Name)
    requires d in es && ChainOk(es, d, b, chain) && e in chain
    ensures Known(es, Without(chain, e))
    ensures FindIn(es, Without(chain, e), n) == if es[e].name == n then None else FindIn(es, chain, n)
  {
    WithoutChain(es, d, b, chain, e);
    if chain[0] == e {
      FindInFinds(es, chain[1..], n);
    } else {
      assert ChainOk(es, d, b, chain[1..]);
      assert chain == [chain[0]] + chain[1..];
      FindWithout(es, d, b, chain[1..], e, n);
      assert Without(chain, e)[1..] == Without(chain[1..], e);
    }
  }

  /** In the chain the entry was in, only its name is gone. */
  lemma FindInAfterUnlink(es: map<nat, Entry>, es2: map<nat, Entry>, d: nat, e: nat, n: Name)
    requires Leaf(es, d, e) && ChainsOk(es, d) && Unlinked(es, es2, d, e) && Bucket(n) == Bucket(es[e].name)
    ensures Known(es2, Without(es[d].buckets[Bucket(n)], e))
    ensures FindIn(es2, Without(es[d].buckets[Bucket(n)], e), n) ==
            if n == es[e].name then None else FindIn(es, es[d].buckets[Bucket(n)], n)
  {
    var b := Bucket(n);
    FindWithout(es, d, b, es[d].buckets[b], e, n);
    ChainDistinct(es, d, b, es[d].buckets[b]);
    WithoutMeans(es[d].buckets[b], e);
    FindInKept(es, es2, Without(es[d].buckets[b], e), n);
  }

  /** After removing an entry, its directory no longer finds its name; nothing else changes. */
  lemma FindAfterUnlink(es: map<nat, Entry>, es2: map<nat, Entry>, d: nat, e: nat, x: nat, n: Name)
    requires Leaf(es, d, e) && ChainsOk(es, d) && x in es && ChainsOk(es, x) && Unlinked(es, es2, d, e)
    requires KnownBuckets(es2, x) && es[d].kind == Dir
    ensures Find(es2, x, n) == if x == d && n == es[e].name then None else Find(es, x, n)
  {
    var k, b := Bucket(es[e].name), Bucket(n);
    if x == d && b == k {
      FindInAfterUnlink(es, es2, d, e, n);
    } else {
      NotThere(es, d, k, e, x, b);
      FindInKept(es, es2, es[x].buckets[b], n);
    }
  }

  /** A child is in one chain only. */
  lemma NotThere(es: map<nat, Entry>, d: nat, k: nat, e: nat, x: nat, b: nat)
    requires d in es && ChainsOk(es, d) && x in es && ChainsOk(es, x) && k < 64 && b < 64 && e in es[d].buckets[k]
    requires x != d || b != k
    ensures e !in es[x].buckets[b]
  {
    assert ChildOk(es, d, k, e);
  }

  // ---------- Searches ----------

  method FindEntry(es: map<nat, Entry>, d: nat, name: Name) returns (r: Option<nat>)
    requires KnownBuckets(es, d)
    ensures r == Find(es, d, name)
  {
    if es[d].kind != Dir { return None; }
    var chain := es[d].buckets[Bucket(name)];
    while chain != []
      invariant Known(es, chain) && FindIn(es, es[d].buckets[Bucket(name)], name) == FindIn(es, chain, name)
      decreases |chain|
    {
      if !es[chain[0]].removed && es[chain[0]].name == name { return Some(chain[0]); }
      chain := chain[1..];
    }
    r := None;
  }

  /** ft_parent */
  method FindParent(es: map<nat, Entry>, root: nat, path: Name) returns (r: Option<(nat, Name)>)
    requires EntriesOk(es) && root in es
    ensures r == ParentOf(es, root, path)
  {
    if path == [] || path[0] == 47 { return None; }
    var d, p := root, path;
    while true
      invariant d in es && ParentOf(es, d, p) == ParentOf(es, root, path)
      decreases |p|
    {
      var k := FirstSlash(p);
      if k == |p| {
        return if NameOk(p) then Some((d, p)) else None;
      }
      if !NameOk(p[..k]) { return None; }
      assert EntryOk(es, d);
      var e := FindEntry(es, d, p[..k]);
      EnterMeans(es, d, p[..k]);
      if e == None { return None; }
      FindInFinds(es, es[d].buckets[Bucket(p[..k])], p[..k]);
      if es[e.value].kind != Dir { return None; }
      d, p := e.value, p[k + 1..];
    }
  }

  /** ft_target; copied says whether there is memory for a copy of the path. */
  method FindTarget(st: State, t: nat, path: Name, copied: bool) returns (r: Option<nat>)
    requires Inv(st) && t in st.trees
    ensures r == if copied || path == [46] then TargetOf(st, t, path) else None
  {
    if path == [] || path[0] == 47 { return None; }
    assert TreeOk(st, t);
    if path == [46] { return Some(st.trees[t].root); }
    if !copied { return None; }
    r := WalkPath(st.entries, st.trees[t].root, path);
  }

  method WalkPath(es: map<nat, Entry>, root: nat, path: Name) returns (r: Option<nat>)
    requires EntriesOk(es) && root in es
    ensures r == DirAt(es, root, path)
  {
    var d, p := root, path;
    while true
      invariant d in es && DirAt(es, d, p) == DirAt(es, root, path)
      decreases |p|
    {
      var k := FirstSlash(p);
      if !NameOk(p[..k]) { return None; }
      assert EntryOk(es, d);
      var e := FindEntry(es, d, p[..k]);
      EnterMeans(es, d, p[..k]);
      if e == None { return None; }
      FindInFinds(es, es[d].buckets[Bucket(p[..k])], p[..k]);
      if es[e.value].kind != Dir { return None; }
      if k == |p| { return e; }
      d, p := e.value, p[k + 1..];
    }
  }

  /** The tree registered under an id. */
  ghost predicate Registered(st: State, id: Name, t: nat) {
    Source(id, t) in st.sources
  }

  /** ft_resolve: finds exactly the tree registered under the id. */
  method Resolve(st: State, id: Name) returns (r: Option<nat>)
    requires SourcesOk(st)
    ensures r.Some? ==> r.value in st.trees
    ensures forall t: nat :: Registered(st, id, t) <==> r == Some(t)
  {
    for i := 0 to |st.sources|
      invariant forall j :: 0 <= j < i ==> st.sources[j].id != id
    {
      var s := st.sources[i];
      if s.id == id && st.trees[s.tree].alive {
        forall t | Registered(st, id, t) ensures t == s.tree {
          var j :| 0 <= j < |st.sources| && st.sources[j] == Source(id, t);
        }
        assert Registered(st, id, s.tree);
        return Some(s.tree);
      }
    }
    r := None;
  }

  // ---------- The store ----------

  /** The directory and name a path of tree t stands for. */
  ghost function PlaceOf(st: State, t: nat, path: Name): (r: Option<(nat, Name)>)
    requires Inv(st) && t in st.trees
    ensures r.Some? ==> r.value.0 in st.entries && KnownBuckets(st.entries, r.value.0)
  {
    assert TreeOk(st, t);
    ParentMeans(st.entries, st.trees[t].root, path);
    var r := ParentOf(st.entries, st.trees[t].root, path);
    assert r.Some? ==> EntryOk(st.entries, r.value.0);
    r
  }

  /** What looking a name up in x gives; nothing if x is no entry. */
  ghost function Seen(es: map<nat, Entry>, x: nat, n: Name): Option<nat> {
    if KnownBuckets(es, x) then Find(es, x, n) else None
  }

  ghost predicate Owned(st: State, me: nat, t: nat) {
    t in st.trees && st.trees[t].alive && st.trees[t].owner == me
  }

  /** There is no such entry and there is room for one, or there is one of that kind. */
  ghost predicate Fits(es: map<nat, Entry>, d: nat, name: Name, kind: Kind, room: bool) {
    var e := Seen(es, d, name);
    if e == None then room else e.value in es && es[e.value].kind == kind
  }

  /** When creating or overwriting an entry succeeds. */
  ghost predicate PutOk(st: State, me: nat, t: nat, path: Name, kind: Kind, data: Option<Name>, room: bool)
    requires Inv(st) && t in st.trees
  {
    && Owned(st, me, t) && (kind == Text ==> data.Some?)
    && var p := PlaceOf(st, t, path); p.Some? && Fits(st.entries, p.value.0, p.value.1, kind, room)
  }

  /** Every other name leads where it led. */
  ghost predicate SameElsewhere(es: map<nat, Entry>, es2: map<nat, Entry>, d: nat, name: Name) {
    forall x: nat, n {:trigger Seen(es2, x, n)} :: x in es && (x != d || n != name) ==>
        Seen(es2, x, n) == Seen(es, x, n)
  }

  /** Every entry but e keeps its contents, mounts and place. */
  ghost predicate SameOthers(es: map<nat, Entry>, es2: map<nat, Entry>, e: nat) {
    forall x: nat :: x in es && x != e ==> x in es2 && es2[x] == es[x].(buckets := es2[x].buckets)
  }

  /** The entry is found under its name with the given kind and contents; an existing directory keeps what it has. */
  ghost predicate PutDone(es: map<nat, Entry>, es2: map<nat, Entry>, d: nat, name: Name, kind: Kind, data: Option<Name>,
                          writable: bool) {
    var before, e := Seen(es, d, name), Seen(es2, d, name);
    && e.Some? && e.value in es2 && es2[e.value].kind == kind && (before.Some? ==> e == before)
    && SameElsewhere(es, es2, d, name) && SameOthers(es, es2, e.value)
    && (if before == None then
          d in es && es2[e.value] == Entry(name, kind, writable, false, data, es[d].tree, [], Some(d), NoChildren())
        else
          e.value in es && es2[e.value] == if kind == Dir then es[e.value]
                                           else es[e.value].(data := data, writable := writable))
  }

  /** What a directory of the store is seen to hold after the addition. */
  lemma SeenAfterAdd(st: State, t: nat, d: nat, name: Name, kind: Kind, data: Option<Name>, writable: bool, x: nat,
                     n: Name)
    requires Inv(st) && CanAdd(st, t, d, name) && x in st.entries
    ensures Seen(AddChild(st, t, d, name, kind, data, writable).entries, x, n) ==
            if x == d && n == name then Some(st.nextId) else Seen(st.entries, x, n)
  {
    assert OwnOk(st, st.nextId) && EntryOk(st.entries, d) && EntryOk(st.entries, x);
    FindAfterAdd(st.entries, AddChild(st, t, d, name, kind, data, writable).entries, d, st.nextId, name, x, n);
  }

  lemma AddIsPut(st: State, t: nat, d: nat, name: Name, kind: Kind, data: Option<Name>, writable: bool)
    requires Inv(st) && CanAdd(st, t, d, name)
    ensures PutDone(st.entries, AddChild(st, t, d, name, kind, data, writable).entries, d, name, kind, data, writable)
  {
    var es, es2 := st.entries, AddChild(st, t, d, name, kind, data, writable).entries;
    assert OwnOk(st, st.nextId) && EntryOk(es, d);
    SeenAfterAdd(st, t, d, name, kind, data, writable, d, name);
    forall x: nat, n | x in es && (x != d || n != name) ensures Seen(es2, x, n) == Seen(es, x, n) {
      SeenAfterAdd(st, t, d, name, kind, data, writable, x, n);
    }
  }

  lemma SetIsPut(st: State, e: nat, d: nat, name: Name, data: Option<Name>, writable: bool)
    requires Inv(st) && e in st.entries && Seen(st.entries, d, name) == Some(e) && st.entries[e].kind != Dir
    ensures PutDone(st.entries, SetText(st, e, data, writable).entries, d, name, st.entries[e].kind, data, writable)
  {
    var es, es2 := st.entries, SetText(st, e, data, writable).entries;
    forall x: nat, n ensures Seen(es2, x, n) == Seen(es, x, n) {
      SetKeepsSeen(es, es2, e, x, n);
    }
  }

  lemma SetKeepsSeen(es: map<nat, Entry>, es2: map<nat, Entry>, e: nat, x: nat, n: Name)
    requires e in es && e in es2 && es2 == es[e := es[e].(data := es2[e].data, writable := es2[e].writable)]
    ensures Seen(es2, x, n) == Seen(es, x, n)
  {
    assert forall chain :: Known(es, chain) <==> Known(es2, chain);
    if KnownBuckets(es, x) {
      FindInKept(es, es2, es[x].buckets[Bucket(n)], n);
    }
  }

  class Store {
    var trees: map<nat, Tree>
    var listed: seq<nat>
    var entries: map<nat, Entry>
    var sources: seq<Source>
    var nextId: nat

    function St(): State
      reads this
    {
      State(trees, listed, entries, sources, nextId)
    }

    ghost predicate Valid()
      reads this
    {
      Inv(St())
    }

    constructor ()
      ensures Valid() && St() == State(map[], [], map[], [], 1)
    {
      trees, listed, entries, sources, nextId := map[], [], map[], [], 1;
      new;
      EmptyInv(St());
    }

    /** o9_filetree_new; the allocator hands out an address that is not in use. */
    method New(me: nat, at: nat, room: bool) returns (t: Option<nat>)
      requires Valid() && at !in trees
      modifies this
      ensures Valid()
      ensures t == if room then Some(at) else None
      ensures St() == if room then NewTree(old(St()), at, me) else old(St())
      ensures room ==> Owned(St(), me, at) && trees == old(trees)[at := trees[at]] && sources == old(sources)
      ensures room ==> var r := trees[at].root;
                       r !in old(entries) && entries == old(entries)[r := entries[r]]
                       && entries[r].buckets == NoChildren() && entries[r].mounts == []
    {
      if !room { return None; }
      assert OwnOk(St(), nextId);
      NewTreeKeepsInv(St(), at, me);
      AddTree(me, at);
      t := Some(at);
    }

    /** A tree with its root entry, at the head of the list. */
    method AddTree(me: nat, at: nat)
      modifies this
      ensures St() == NewTree(old(St()), at, me)
    {
      entries := entries[nextId := Entry([46], Dir, false, false, None, at, [], None, NoChildren())];
      trees := trees[at := Tree(me, true, nextId, [nextId])];
      listed := [at] + listed;
      nextId := nextId + 1;
    }

    /** A new entry under a name its directory does not have. */
    method Create(t: nat, d: nat, name: Name, kind: Kind, data: Option<Name>, writable: bool)
      requires Valid() && CanAdd(St(), t, d, name)
      modifies this
      ensures Valid() && PutDone(old(entries), entries, d, name, kind, data, writable)
      ensures sources == old(sources) && listed == old(listed)
    {
      assert d != nextId by { assert OwnOk(St(), d); }
      AddIsPut(St(), t, d, name, kind, data, writable);
      AddChildKeepsInv(St(), t, d, name, kind, data, writable);
      AddEntry(t, d, name, kind, data, writable);
    }

    /** New contents for the entry a name leads to. */
    method Overwrite(e: nat, d: nat, name: Name, data: Option<Name>, writable: bool)
      requires Valid() && e in entries && Seen(entries, d, name) == Some(e) && entries[e].kind != Dir
      modifies this`entries
      ensures Valid() && PutDone(old(entries), entries, d, name, old(entries)[e].kind, data, writable)
    {
      SetIsPut(St(), e, d, name, data, writable);
      SetTextKeepsInv(St(), e, data, writable);
      entries := entries[e := entries[e].(data := data, writable := writable)];
    }

    /** ft_put, once the directory is known. */
    method PutAt(t: nat, d: nat, name: Name, kind: Kind, data: Option<Name>, writable: bool, room: bool)
      returns (ok: bool)
      requires Valid() && t in trees && d in entries && NameOk(name)
      requires entries[d].tree == t && entries[d].kind == Dir && !entries[d].removed
      modifies this
      ensures Valid()
      ensures ok <==> Fits(old(entries), d, name, kind, room)
      ensures !ok ==> St() == old(St())
      ensures ok ==> PutDone(old(entries), entries, d, name, kind, data, writable)
      ensures sources == old(sources) && listed == old(listed)
    {
      assert EntryOk(entries, d);
      var found := FindEntry(entries, d, name);
      if found == None {
        ok := room;
        if room {
          Create(t, d, name, kind, data, writable);
        }
      } else {
        FindInFinds(entries, entries[d].buckets[Bucket(name)], name);
        ok := entries[found.value].kind == kind;
        if ok && kind != Dir {
          Overwrite(found.value, d, name, data, writable);
        }
      }
    }

    /** The directory and the last name of a path, for the owner of a tree and if there is memory for a copy of it. */
    method Locate(me: nat, t: nat, path: Name, copied: bool) returns (place: Option<(nat, Name)>)
      requires Valid() && t in trees
      ensures place == if Owned(St(), me, t) && copied then PlaceOf(St(), t, path) else None
      ensures place.Some? ==>
                var d := place.value.0;
                d in entries && entries[d].tree == t && entries[d].kind == Dir && !entries[d].removed
                && NameOk(place.value.1)
    {
      if !trees[t].alive || trees[t].owner != me || !copied { return None; }
      assert TreeOk(St(), t);
      ParentMeans(entries, trees[t].root, path);
      place := FindParent(entries, trees[t].root, path);
      assert place == PlaceOf(St(), t, path);
    }

    /** ft_put; copied says whether there is memory for a copy of the path, room whether there is for a new entry. */
    method Put(me: nat, t: nat, path: Name, kind: Kind, data: Option<Name>, writable: bool, copied: bool, room: bool)
      returns (ok: bool)
      requires Valid() && t in trees
      modifies this
      ensures Valid()
      ensures ok <==> copied && PutOk(old(St()), me, t, path, kind, data, room)
      ensures !ok ==> St() == old(St())
      ensures ok ==> var p := PlaceOf(old(St()), t, path).value;
                     PutDone(old(entries), entries, p.0, p.1, kind, data, writable)
      ensures sources == old(sources) && listed == old(listed)
    {
      if kind == Text && data == None { return false; }
      var place := Locate(me, t, path, copied);
      if place == None { return false; }
      ok := PutAt(t, place.value.0, place.value.1, kind, data, writable, room);
    }

    /** ft_entry below a directory. */
    method AddEntry(t: nat, d: nat, name: Name, kind: Kind, data: Option<Name>, writable: bool)
      requires t in trees && d in entries && d != nextId && |entries[d].buckets| == 64
      modifies this
      ensures St() == AddChild(old(St()), t, d, name, kind, data, writable)
    {
      var e := nextId;
      entries := entries[e := Entry(name, kind, writable, false, data, t, [], Some(d), NoChildren())];
      trees := trees[t := trees[t].(all := [e] + trees[t].all)];
      var b := Bucket(name);
      entries := entries[d := entries[d].(buckets := entries[d].buckets[b := [e] + entries[d].buckets[b]])];
      nextId := nextId + 1;
    }

    /** o9_filetree_remove */
    method Remove(me: nat, t: nat, path: Name, copied: bool) returns (ok: bool)
      requires Valid() && t in trees
      modifies this
      ensures Valid()
      ensures ok <==> copied && RemoveOk(old(St()), me, t, path)
      ensures !ok ==> St() == old(St())
      ensures ok ==> var p := PlaceOf(old(St()), t, path).value; RemoveDone(old(entries), entries, p.0, p.1)
      ensures trees == old(trees) && sources == old(sources) && listed == old(listed)
    {
      var place := Locate(me, t, path, copied);
      if place == None { return false; }
      ok := RemoveAt(place.value.0, place.value.1);
    }

    method RemoveAt(d: nat, name: Name) returns (ok: bool)
      requires Valid() && d in entries && entries[d].kind == Dir
      modifies this`entries
      ensures Valid()
      ensures ok <==> Removable(old(entries), d, name)
      ensures !ok ==> entries == old(entries)
      ensures ok ==> RemoveDone(old(entries), entries, d, name)
    {
      assert EntryOk(entries, d);
      var found := FindEntry(entries, d, name);
      if found == None { return false; }
      var e := found.value;
      FindInFinds(entries, entries[d].buckets[Bucket(name)], name);
      assert EntryOk(entries, e);
      ok := NoChild(entries[e]);
      if ok {
        IsLeaf(entries, d, e, name);
        UnlinkIsRemove(St(), d, e, name);
        UnlinkKeepsInv(St(), d, e);
        var b := Bucket(name);
        var chain := DropFirst(entries[d].buckets[b], e);
        entries := entries[d := entries[d].(buckets := entries[d].buckets[b := chain])];
        entries := entries[e := entries[e].(removed := true)];
      }
    }

    /** o9_filetree_register */
    method RegisterTree(me: nat, t: nat, id: Name, room: bool) returns (ok: bool)
      requires Valid() && t in trees
      modifies this`sources
      ensures Valid()
      ensures ok <==> Owned(old(St()), me, t) && NameOk(id) && 33 !in id && 58 !in id && room
                      && forall u: nat :: !Registered(old(St()), id, u)
      ensures sources == if ok then [Source(id, t)] + old(sources) else old(sources)
    {
      if !trees[t].alive || trees[t].owner != me || !NameOk(id) || 33 in id || 58 in id || !room { return false; }
      for i := 0 to |sources|
        invariant sources == old(sources) && forall j :: 0 <= j < i ==> sources[j].id != id
      {
        if sources[i].id == id {
          assert Registered(St(), id, sources[i].tree);
          return false;
        }
      }
      RegisterKeepsInv(St(), id, t);
      sources := [Source(id, t)] + sources;
      ok := true;
    }

    /** o9_filetree_revoke */
    method RevokeTree(t: nat)
      requires Valid() && t in trees
      modifies this
      ensures Valid() && trees == old(trees)[t := old(trees)[t].(alive := false)]
      ensures entries == old(entries) && listed == old(listed)
      ensures forall id, u: nat :: Registered(St(), id, u) <==> Registered(old(St()), id, u) && u != t
    {
      RevokeKeepsInv(St(), t);
      OthersMeans(sources, t);
      trees := trees[t := trees[t].(alive := false)];
      sources := KeepOthers(sources, t);
    }

    /** o9_filetree_destroy */
    method DestroyTree(me: nat, t: nat) returns (ok: bool)
      requires Valid() && t in trees
      modifies this
      ensures Valid()
      ensures ok <==> old(trees)[t].owner == me && !old(trees)[t].alive && (forall id :: !Registered(old(St()), id, t))
                      && forall e, m :: e in old(entries) && m in old(entries)[e].mounts && m.source == t ==>
                                          old(entries)[e].tree == t
      ensures !ok ==> St() == old(St())
      ensures ok ==> trees == old(trees) - {t} && listed == Without(old(listed), t) && sources == old(sources)
                     && entries == map e | e in old(entries) && old(entries)[e].tree != t :: old(entries)[e]
    {
      if trees[t].owner != me || trees[t].alive { return false; }
      for i := 0 to |sources|
        invariant St() == old(St()) && forall j :: 0 <= j < i ==> sources[j].tree != t
      {
        if sources[i].tree == t { return false; }
      }
      var used := MountedElsewhere(St(), t);
      if used { return false; }
      DestroyKeepsInv(St(), t);
      listed := DropFirst(listed, t);
      trees := trees - {t};
      entries := map e | e in entries && entries[e].tree != t :: entries[e];
      ok := true;
    }

    /** o9_filetree_apply_specs */
    method ApplySpecs(me: nat, t: nat, specs: seq<Spec>, grant: nat -> bool) returns (ok: bool)
      requires Valid() && t in trees
      modifies this`entries
      ensures Valid()
      ensures !ok ==> St() == old(St())
      ensures ok ==> ApplyOk(old(St()), me, t, specs) && Applied(old(St()), St(), t, specs)
      ensures AllGranted(grant) ==> (ok <==> ApplyOk(old(St()), me, t, specs))
    {
      if !trees[t].alive || trees[t].owner != me { return false; }
      PlanOk(St(), t, specs);
      var plans := PlanSpecs(St(), t, specs, grant);
      if plans == None { return false; }
      var looped := AnyLoop(St(), t, plans.value);
      if looped { return false; }
      CommitKeepsInv(St(), t, plans.value);
      forall e | e in entries
        ensures Commit(St(), plans.value).entries[e] == entries[e].(mounts := Folded(St(), t, e, specs))
      {
        PlanFolds(St(), t, specs, e);
      }
      entries := CommitPlans(St(), plans.value);
      ok := true;
    }
  }

  // ---------- Removal ----------

  /** The name leads to an entry without children. */
  ghost predicate Removable(es: map<nat, Entry>, d: nat, name: Name) {
    var e := Seen(es, d, name); e.Some? && e.value in es && es[e.value].buckets == NoChildren()
  }

  ghost predicate RemoveOk(st: State, me: nat, t: nat, path: Name)
    requires Inv(st) && t in st.trees
  {
    Owned(st, me, t) && var p := PlaceOf(st, t, path); p.Some? && Removable(st.entries, p.value.0, p.value.1)
  }

  /** The name leads nowhere, its entry is marked, and every other name leads where it led. */
  ghost predicate RemoveDone(es: map<nat, Entry>, es2: map<nat, Entry>, d: nat, name: Name) {
    var e := Seen(es, d, name);
    && e.Some? && e.value in es && e.value in es2 && es2[e.value] == es[e.value].(removed := true)
    && Seen(es2, d, name) == None && SameElsewhere(es, es2, d, name) && SameOthers(es, es2, e.value)
  }

  method NoChild(e: Entry) returns (empty: bool)
    requires |e.buckets| == 64
    ensures empty <==> e.buckets == NoChildren()
  {
    for i := 0 to 64
      invariant forall j :: 0 <= j < i ==> e.buckets[j] == []
    {
      if e.buckets[i] != [] { return false; }
    }
    empty := true;
  }

  /** Unlinks the first occurrence. */
  method DropFirst(chain: seq<nat>, e: nat) returns (r: seq<nat>)
    ensures r == Without(chain, e)
  {
    var front, rest := [], chain;
    while rest != []
      invariant Without(chain, e) == front + Without(rest, e)
      decreases |rest|
    {
      if rest[0] == e {
        return front + rest[1..];
      }
      front, rest := front + [rest[0]], rest[1..];
    }
    r := front;
  }

  lemma IsLeaf(es: map<nat, Entry>, d: nat, e: nat, name: Name)
    requires EntriesOk(es) && KnownBuckets(es, d) && Find(es, d, name) == Some(e) && e in es
             && es[e].buckets == NoChildren()
    ensures Leaf(es, d, e) && es[e].name == name
  {
    FindInFinds(es, es[d].buckets[Bucket(name)], name);
  }

  /** What a directory of the store is seen to hold after the removal. */
  lemma SeenAfterUnlink(st: State, d: nat, e: nat, x: nat, n: Name)
    requires Inv(st) && Leaf(st.entries, d, e) && st.entries[d].kind == Dir && x in st.entries
    ensures Seen(Unlink(st, d, e).entries, x, n) ==
            if x == d && n == st.entries[e].name then None else Seen(st.entries, x, n)
  {
    var es, es2 := st.entries, Unlink(st, d, e).entries;
    UnlinkKeepsInv(st, d, e);
    assert EntryOk(es, d) && EntryOk(es, x) && EntryOk(es2, x);
    FindAfterUnlink(es, es2, d, e, x, n);
  }

  lemma UnlinkIsRemove(st: State, d: nat, e: nat, name: Name)
    requires Inv(st) && Leaf(st.entries, d, e) && Seen(st.entries, d, name) == Some(e) && name == st.entries[e].name
             && st.entries[d].kind == Dir
    ensures RemoveDone(st.entries, Unlink(st, d, e).entries, d, name)
  {
    var es, es2 := st.entries, Unlink(st, d, e).entries;
    SeenAfterUnlink(st, d, e, d, name);
    forall x: nat, n | x in es && (x != d || n != name) ensures Seen(es2, x, n) == Seen(es, x, n) {
      SeenAfterUnlink(st, d, e, x, n);
    }
  }

  // ---------- Revocation and destruction ----------

  method KeepOthers(ss: seq<Source>, t: nat) returns (kept: seq<Source>)
    ensures kept == Others(ss, t)
  {
    kept := [];
    for i := 0 to |ss|
      invariant kept + Others(ss[i..], t) == Others(ss, t)
    {
      if ss[i].tree != t { kept := kept + [ss[i]]; }
      assert ss[i..][1..] == ss[i + 1..];
    }
  }

  method ListMounts(ms: seq<Mount>, t: nat) returns (found: bool)
    ensures found <==> exists m :: m in ms && m.source == t
  {
    for i := 0 to |ms|
      invariant forall j :: 0 <= j < i ==> ms[j].source != t
    {
      if ms[i].source == t { return true; }
    }
    found := false;
  }

  ghost predicate EntryMounts(es: map<nat, Entry>, e: nat, t: nat) {
    e in es && exists m :: m in es[e].mounts && m.source == t
  }

  method TreeMounts(st: State, tree: nat, t: nat) returns (found: bool)
    requires tree in st.trees && TreeOk(st, tree)
    ensures found <==> exists e :: e in st.trees[tree].all && EntryMounts(st.entries, e, t)
  {
    var all := st.trees[tree].all;
    for i := 0 to |all|
      invariant forall j :: 0 <= j < i ==> !EntryMounts(st.entries, all[j], t)
    {
      var has := ListMounts(st.entries[all[i]].mounts, t);
      if has {
        assert all[i] in all && EntryMounts(st.entries, all[i], t);
        return true;
      }
    }
    found := false;
  }

  /** Does an entry of another tree, removed or not, mount t? */
  method MountedElsewhere(st: State, t: nat) returns (found: bool)
    requires TreesOk(st) && AllOk(st)
    ensures found <==> exists e, m ::
              e in st.entries && st.entries[e].tree != t && m in st.entries[e].mounts
              && m.source == t
  {
    for i := 0 to |st.listed|
      invariant forall j, e :: 0 <= j < i && st.listed[j] != t && e in st.trees[st.listed[j]].all ==>
                !EntryMounts(st.entries, e, t)
    {
      var tree := st.listed[i];
      assert TreeOk(st, tree);
      if tree != t {
        var has := TreeMounts(st, tree, t);
        if has {
          ghost var e :| e in st.trees[tree].all && EntryMounts(st.entries, e, t);
          return true;
        }
      }
    }
    forall e | e in st.entries && st.entries[e].tree != t ensures !EntryMounts(st.entries, e, t) {
      assert OwnOk(st, e) && TreeOk(st, st.entries[e].tree);
    }
    found := false;
  }

  // ---------- Mount specifications ----------

  datatype Spec = Spec(target: Name, unmount: bool, mode: int, source: Option<Name>)

  /** The tree registered under an id, if any. */
  ghost function SourceTree(st: State, id: Name): Option<nat> {
    if t: nat :| Registered(st, id, t) then Some(t) else None
  }

  /** The target is a directory of t; a mount has a mode and a registered source. */
  ghost predicate SpecOk(st: State, t: nat, sp: Spec)
    requires Inv(st) && t in st.trees
  {
    && TargetOf(st, t, sp.target).Some?
    && (sp.unmount || (0 <= sp.mode <= 2 && sp.source.Some? && SourceTree(st, sp.source.value).Some?))
  }

  ghost predicate SpecAt(st: State, t: nat, specs: seq<Spec>, i: int)
    requires Inv(st) && t in st.trees
  {
    0 <= i < |specs| ==> SpecOk(st, t, specs[i])
  }

  /** Every specification of a list is in order. */
  ghost predicate SpecsOk(st: State, t: nat, specs: seq<Spec>)
    requires Inv(st) && t in st.trees
  {
    forall i {:trigger SpecAt(st, t, specs, i)} :: SpecAt(st, t, specs, i)
  }

  lemma SpecsSnoc(st: State, t: nat, specs: seq<Spec>, sp: Spec)
    requires Inv(st) && t in st.trees && SpecsOk(st, t, specs) && SpecOk(st, t, sp)
    ensures SpecsOk(st, t, specs + [sp])
  {
    forall i ensures SpecAt(st, t, specs + [sp], i) { assert SpecAt(st, t, specs, i); }
  }

  /** One edit of a mount list: unmount empties it, replace starts it anew, before and after extend it. */
  ghost function Edit(st: State, ms: seq<Mount>, sp: Spec): seq<Mount> {
    if sp.unmount || sp.source == None || SourceTree(st, sp.source.value) == None || !(0 <= sp.mode <= 2) then []
    else
      var m := Mount(SourceTree(st, sp.source.value).value, sp.mode);
      if sp.mode == 0 then [m] else if sp.mode == 1 then [m] + ms else ms + [m]
  }

  /** The mount list of e after the specifications that target it, in order. */
  ghost function Folded(st: State, t: nat, e: nat, specs: seq<Spec>): seq<Mount>
    requires Inv(st) && t in st.trees && e in st.entries
  {
    if specs == [] then st.entries[e].mounts else
      var ms := Folded(st, t, e, specs[..|specs| - 1]);
      var sp := specs[|specs| - 1];
      if TargetOf(st, t, sp.target) == Some(e) then Edit(st, ms, sp) else ms
  }

  ghost predicate Targeted(st: State, t: nat, e: nat, specs: seq<Spec>)
    requires Inv(st) && t in st.trees
  {
    exists i :: 0 <= i < |specs| && TargetOf(st, t, specs[i].target) == Some(e)
  }

  /** The plan the specifications amount to. */
  ghost function PlanOf(st: State, t: nat, specs: seq<Spec>): Plans
    requires Inv(st) && t in st.trees
  {
    map e: nat | e in st.entries && Targeted(st, t, e, specs) :: Folded(st, t, e, specs)
  }

  lemma {:induction false} FoldedUntouched(st: State, t: nat, e: nat, specs: seq<Spec>)
    requires Inv(st) && t in st.trees && e in st.entries && !Targeted(st, t, e, specs)
    ensures Folded(st, t, e, specs) == st.entries[e].mounts
  {
    if specs != [] {
      assert !Targeted(st, t, e, specs[..|specs| - 1]);
      FoldedUntouched(st, t, e, specs[..|specs| - 1]);
    }
  }

  /** Committing the plan gives every entry the in-order fold of the specifications that target it. */
  lemma PlanFolds(st: State, t: nat, specs: seq<Spec>, e: nat)
    requires Inv(st) && t in st.trees && e in st.entries
    ensures Commit(st, PlanOf(st, t, specs)).entries[e] == st.entries[e].(mounts := Folded(st, t, e, specs))
  {
    if !Targeted(st, t, e, specs) { FoldedUntouched(st, t, e, specs); }
  }

  lemma EditKeepsShape(st: State, ms: seq<Mount>, sp: Spec)
    requires SourcesOk(st) && Shape(ms) && forall m :: m in ms ==> m.source in st.trees
    ensures Shape(Edit(st, ms, sp)) && forall m :: m in Edit(st, ms, sp) ==> m.source in st.trees
  {
    if sp.source.Some? && SourceTree(st, sp.source.value).Some? {
      assert Registered(st, sp.source.value, SourceTree(st, sp.source.value).value);
    }
  }

  lemma {:induction false} FoldedShape(st: State, t: nat, e: nat, specs: seq<Spec>)
    requires Inv(st) && t in st.trees && e in st.entries
    ensures Shape(Folded(st, t, e, specs)) && forall m :: m in Folded(st, t, e, specs) ==> m.source in st.trees
  {
    if specs == [] {
      assert MountOk(st, e);
    } else {
      FoldedShape(st, t, e, specs[..|specs| - 1]);
      EditKeepsShape(st, Folded(st, t, e, specs[..|specs| - 1]), specs[|specs| - 1]);
    }
  }

  lemma PlanOk(st: State, t: nat, specs: seq<Spec>)
    requires Inv(st) && t in st.trees
    ensures PlansOk(st, t, PlanOf(st, t, specs)) && Closed(MountGraph(Commit(st, PlanOf(st, t, specs))))
  {
    forall e | e in PlanOf(st, t, specs)
      ensures st.entries[e].tree == t && st.entries[e].kind == Dir && !st.entries[e].removed
      ensures Shape(PlanOf(st, t, specs)[e]) && forall m :: m in PlanOf(st, t, specs)[e] ==> m.source in st.trees
    {
      var i :| 0 <= i < |specs| && TargetOf(st, t, specs[i].target) == Some(e);
      TargetMeans(st, t, specs[i].target);
      FoldedShape(st, t, e, specs);
    }
    CommitKeepsMounts(st, t, PlanOf(st, t, specs));
  }

  ghost predicate IsPlan(st: State, t: nat, specs: seq<Spec>, plans: Plans)
    requires Inv(st) && t in st.trees
  {
    forall z {:trigger Look(z)} :: Look(z) ==> plans == PlanOf(st, t, specs)
  }

  lemma PlanNothing(st: State, t: nat, specs: seq<Spec>)
    requires Inv(st) && t in st.trees && specs == []
    ensures IsPlan(st, t, specs, map[])
  {
    assert PlanOf(st, t, specs) == map[];
  }

  /** One more specification touches only its target. */
  lemma PlanNext(st: State, t: nat, specs: seq<Spec>, sp: Spec, e: nat)
    requires Inv(st) && t in st.trees && e in st.entries && TargetOf(st, t, sp.target) == Some(e)
    ensures PlanOf(st, t, specs + [sp]) == PlanOf(st, t, specs)[e := Edit(st, Folded(st, t, e, specs), sp)]
  {
    assert (specs + [sp])[..|specs|] == specs;
    forall x: nat ensures Targeted(st, t, x, specs + [sp]) <==> Targeted(st, t, x, specs) || x == e {
      if Targeted(st, t, x, specs) {
        var i :| 0 <= i < |specs| && TargetOf(st, t, specs[i].target) == Some(x);
        assert (specs + [sp])[i] == specs[i];
      }
      if x == e { assert (specs + [sp])[|specs|] == sp; }
    }
  }

  /** When a list of specifications is accepted. */
  ghost predicate ApplyOk(st: State, me: nat, t: nat, specs: seq<Spec>)
    requires Inv(st) && t in st.trees
  {
    && Owned(st, me, t)
    && SpecsOk(st, t, specs)
    && (PlanOk(st, t, specs); NoLoop(st, t, PlanOf(st, t, specs)))
  }

  /** Every mount list is the in-order fold of its specifications, and nothing else has changed. */
  ghost predicate Applied(st: State, st2: State, t: nat, specs: seq<Spec>)
    requires Inv(st) && t in st.trees
  {
    && st2 == st.(entries := st2.entries) && st2.entries.Keys == st.entries.Keys
    && forall e :: e in st.entries ==> st2.entries[e] == st.entries[e].(mounts := Folded(st, t, e, specs))
  }

  // ---------- The cycle check ----------

  /** ft_reaches: looks at every mount of every non-removed entry, planned lists first. */
  method SearchTree(st: State, plans: Plans, node: nat, goal: nat, seen: seq<nat>) returns (r: bool)
    requires TreesOk(st) && AllOk(st) && Closed(MountGraph(Commit(st, plans))) && node in st.trees
    ensures r <==> Reaches(MountGraph(Commit(st, plans)), node, goal, seen)
    decreases PATH_LIMIT - |seen|
  {
    if node == goal || |seen| >= PATH_LIMIT { return true; }
    if node in seen { return false; }
    ghost var st2 := Commit(st, plans);
    ghost var g := MountGraph(st2);
    assert TreeOk(st, node);
    var all := st.trees[node].all;
    for i := 0 to |all|
      invariant forall j, s :: 0 <= j < i && MountedAt(st2, all[j], node, s) && s in g ==>
                !Reaches(g, s, goal, seen + [node])
    {
      var e := all[i];
      if !st.entries[e].removed {
        var ms := if e in plans then plans[e] else st.entries[e].mounts;
        assert st2.entries[e].mounts == ms;
        for k := 0 to |ms|
          invariant forall j :: 0 <= j < k && ms[j].source in g ==> !Reaches(g, ms[j].source, goal, seen + [node])
        {
          assert ms[k] in ms && MountedAt(st2, e, node, ms[k].source);
          EdgeMeans(st2, node, ms[k].source);
          var found := SearchTree(st, plans, ms[k].source, goal, seen + [node]);
          if found { return true; }
        }
      }
    }
    forall s | s in g[node] ensures Edge(g, node, s) && !Reaches(g, s, goal, seen + [node]) {
      EdgeMeans(st2, node, s);
      var e :| MountedAt(st2, e, node, s);
      assert OwnOk(st, e);
      var j :| 0 <= j < |all| && all[j] == e;
    }
    r := false;
  }

  // ---------- Planning ----------

  ghost predicate AllGranted(grant: nat -> bool) {
    forall k :: grant(k)
  }

  /** ft_copy_mounts: one allocation per mount. */
  method CopyMounts(ms: seq<Mount>, grant: nat -> bool, k: nat) returns (copy: Option<seq<Mount>>, k': nat)
    ensures copy.Some? ==> copy.value == ms
    ensures copy == None ==> !AllGranted(grant)
  {
    var head: seq<Mount> := [];
    k' := k;
    for i := 0 to |ms|
      invariant head == ms[..i]
    {
      if !grant(k') { return None, k' + 1; }
      head, k' := head + [ms[i]], k' + 1;
    }
    copy := Some(head);
  }

  /** The edit one specification makes to a list. */
  method EditList(st: State, ms: seq<Mount>, sp: Spec, grant: nat -> bool, k: nat)
    returns (r: Option<seq<Mount>>, k': nat)
    requires SourcesOk(st)
    ensures r.Some? ==> r.value == Edit(st, ms, sp)
    ensures r.Some? ==> sp.unmount || (0 <= sp.mode <= 2 && sp.source.Some? && SourceTree(st, sp.source.value).Some?)
    ensures r == None ==>
              !AllGranted(grant)
              || !(sp.unmount || (0 <= sp.mode <= 2 && sp.source.Some? && SourceTree(st, sp.source.value).Some?))
  {
    k' := k;
    if sp.unmount { return Some([]), k'; }
    if sp.mode < 0 || sp.mode > 2 || sp.source == None { return None, k'; }
    var source := Resolve(st, sp.source.value);
    if source == None { return None, k'; }
    assert Registered(st, sp.source.value, source.value);
    if !grant(k') { return None, k' + 1; }
    k' := k' + 1;
    var m := Mount(source.value, sp.mode);
    r := Some(if sp.mode == 0 then [m] else if sp.mode == 1 then [m] + ms else ms + [m]);
  }

  /** The list the plan holds for e, or a copy of its mounts. */
  method PlannedList(st: State, t: nat, plans: Plans, e: nat, grant: nat -> bool, k: nat, ghost done: seq<Spec>)
    returns (ms: Option<seq<Mount>>, k': nat)
    requires Inv(st) && t in st.trees && e in st.entries && plans == PlanOf(st, t, done)
    ensures ms.Some? ==> ms.value == Folded(st, t, e, done)
    ensures ms == None ==> !AllGranted(grant)
  {
    if e in plans { return Some(plans[e]), k; }
    if !grant(k) { return None, k + 1; }
    FoldedUntouched(st, t, e, done);
    ms, k' := CopyMounts(st.entries[e].mounts, grant, k + 1);
  }

  /** One turn of the planning loop. */
  method PlanSpec(st: State, t: nat, plans: Plans, sp: Spec, grant: nat -> bool, k: nat, ghost done: seq<Spec>)
    returns (r: Option<Plans>, k': nat)
    requires Inv(st) && t in st.trees && IsPlan(st, t, done, plans)
    ensures r.Some? ==> IsPlan(st, t, done + [sp], r.value) && SpecOk(st, t, sp)
    ensures r == None ==> !AllGranted(grant) || !SpecOk(st, t, sp)
  {
    assert Look(0);
    var target := FindTarget(st, t, sp.target, grant(k));
    if target == None { return None, k + 1; }
    TargetMeans(st, t, sp.target);
    var ms, edited;
    ms, k' := PlannedList(st, t, plans, target.value, grant, k + 1, done);
    if ms == None { return None, k'; }
    edited, k' := EditList(st, ms.value, sp, grant, k');
    if edited == None { return None, k'; }
    PlanNext(st, t, done, sp, target.value);
    r := Some(plans[target.value := edited.value]);
  }

  /** The planning loop: every specification edits the planned list of its target. */
  method PlanSpecs(st: State, t: nat, specs: seq<Spec>, grant: nat -> bool) returns (r: Option<Plans>)
    requires Inv(st) && t in st.trees
    ensures r.Some? ==> r.value == PlanOf(st, t, specs) && SpecsOk(st, t, specs)
    ensures r == None ==> !AllGranted(grant) || !SpecsOk(st, t, specs)
  {
    var plans: Plans := map[];
    var k := 0;
    ghost var done: seq<Spec> := [];
    PlanNothing(st, t, done);
    for i := 0 to |specs|
      invariant done == specs[..i] && IsPlan(st, t, done, plans) && SpecsOk(st, t, done)
    {
      var next;
      next, k := PlanSpec(st, t, plans, specs[i], grant, k, done);
      assert SpecsOk(st, t, specs) ==> SpecAt(st, t, specs, i);
      if next == None { return None; }
      plans := next.value;
      SpecsSnoc(st, t, done, specs[i]);
      done := done + [specs[i]];
    }
    assert done == specs && Look(0);
    r := Some(plans);
  }

  /** The check of every planned mount before the commit. */
  method AnyLoop(st: State, t: nat, plans: Plans) returns (looped: bool)
    requires Inv(st) && t in st.trees && PlansOk(st, t, plans) && Closed(MountGraph(Commit(st, plans)))
    ensures looped <==> !NoLoop(st, t, plans)
  {
    ghost var g := MountGraph(Commit(st, plans));
    var left := plans.Keys;
    while left != {}
      invariant left <= plans.Keys
      invariant forall e, m :: e in plans && e !in left && m in plans[e] && m.source in st.trees ==>
                !Reaches(g, m.source, t, [])
      decreases |left|
    {
      var e :| e in left;
      looped := AnyBack(st, t, plans, e);
      if looped { return; }
      left := left - {e};
    }
    looped := false;
  }

  /** Does a tree planned for entry e lead back to t? */
  method AnyBack(st: State, t: nat, plans: Plans, e: nat) returns (back: bool)
    requires Inv(st) && t in st.trees && PlansOk(st, t, plans) && Closed(MountGraph(Commit(st, plans))) && e in plans
    ensures back <==> exists m :: m in plans[e] && m.source in st.trees
                                  && Reaches(MountGraph(Commit(st, plans)), m.source, t, [])
  {
    ghost var g := MountGraph(Commit(st, plans));
    var ms := plans[e];
    for i := 0 to |ms|
      invariant forall j :: 0 <= j < i && ms[j].source in st.trees ==> !Reaches(g, ms[j].source, t, [])
    {
      assert ms[i] in plans[e];
      var found := SearchTree(st, plans, ms[i].source, t, []);
      if found { return true; }
    }
    back := false;
  }

  /** The commit loop. */
  method CommitPlans(st: State, plans: Plans) returns (es: map<nat, Entry>)
    requires plans.Keys <= st.entries.Keys
    ensures es == Commit(st, plans).entries
  {
    es := st.entries;
    var left := plans.Keys;
    while left != {}
      invariant left <= plans.Keys && es.Keys == st.entries.Keys
      invariant forall e :: e in es ==>
                es[e] == if e in plans && e !in left then st.entries[e].(mounts := plans[e]) else st.entries[e]
      decreases |left|
    {
      var e :| e in left;
      es := es[e := es[e].(mounts := plans[e])];
      left := left - {e};
    }
  }
}

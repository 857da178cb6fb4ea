/** Walking to a name and listing a directory, through mounts at any depth: two searches of the same union. */
module FileWalk {
  import opened Options
  import opened FileTree
  import opened FileStore

  /** A directory the search may look into. */
  predicate Open(st: State, d: nat, depth: nat)
    requires d in st.entries && st.entries[d].tree in st.trees
  {
    st.entries[d].kind == Dir && !st.entries[d].removed && st.trees[st.entries[d].tree].alive && depth <= 64
  }

  ghost predicate Sound(st: State) {
    TreesOk(st) && AllOk(st) && EntriesOk(st.entries) && MountsOk(st)
  }

  /** The root of a mounted tree. */
  function RootOf(st: State, t: nat): (r: nat)
    requires Sound(st) && t in st.trees
    ensures r in st.entries
  {
    assert TreeOk(st, t);
    st.trees[t].root
  }

  ghost predicate Mounts(st: State, ms: seq<Mount>) {
    forall i :: 0 <= i < |ms| ==> ms[i].source in st.trees
  }

  predicate IsBefore(m: Mount) { m.mode == 0 || m.mode == 1 }

  /** ft_lookup_mount: replacing and earlier mounts first, then the directory itself unless replaced, then later
      ones. */
  function Lookup(st: State, d: nat, name: Name, depth: nat): (r: Option<nat>)
    requires Sound(st) && d in st.entries
    decreases 65 - depth, 1, 0
  {
    assert OwnOk(st, d) && EntryOk(st.entries, d) && MountOk(st, d);
    if !Open(st, d, depth) then None
    else
      var ms := st.entries[d].mounts;
      var first := LookupIn(st, ms, true, name, depth);
      if first.Some? then first
      else
        var own := if Replaced(ms) then None else Find(st.entries, d, name);
        if own.Some? then own else LookupIn(st, ms, false, name, depth)
  }

  predicate Replaced(ms: seq<Mount>) {
    exists i :: 0 <= i < |ms| && ms[i].mode == 0
  }

  /** The first hit among the earlier (or the later) mounts. */
  function LookupIn(st: State, ms: seq<Mount>, before: bool, name: Name, depth: nat): (r: Option<nat>)
    requires Sound(st) && Mounts(st, ms) && depth <= 64
    decreases 65 - depth, 0, |ms|
  {
    if ms == [] then None
    else
      var hit := if IsBefore(ms[0]) == before then Lookup(st, RootOf(st, ms[0].source), name, depth + 1) else None;
      if hit.Some? then hit else LookupIn(st, ms[1..], before, name, depth)
  }

  lemma {:induction false} LookupFinds(st: State, d: nat, name: Name, depth: nat)
    requires Sound(st) && d in st.entries
    ensures var r := Lookup(st, d, name, depth); r.Some? ==>
            r.value in st.entries && st.entries[r.value].name == name && !st.entries[r.value].removed
    decreases 65 - depth, 1, 0
  {
    assert OwnOk(st, d) && EntryOk(st.entries, d) && MountOk(st, d);
    if Open(st, d, depth) {
      LookupInFinds(st, st.entries[d].mounts, true, name, depth);
      LookupInFinds(st, st.entries[d].mounts, false, name, depth);
      FindInFinds(st.entries, st.entries[d].buckets[Bucket(name)], name);
    }
  }

  lemma {:induction false} LookupInFinds(st: State, ms: seq<Mount>, before: bool, name: Name, depth: nat)
    requires Sound(st) && Mounts(st, ms) && depth <= 64
    ensures var r := LookupIn(st, ms, before, name, depth); r.Some? ==>
            r.value in st.entries && st.entries[r.value].name == name && !st.entries[r.value].removed
    decreases 65 - depth, 0, |ms|
  {
    if ms != [] {
      LookupFinds(st, RootOf(st, ms[0].source), name, depth + 1);
      LookupInFinds(st, ms[1..], before, name, depth);
    }
  }

  // ---------- Lists ----------

  /** Entries with distinct names. */
  ghost predicate IsList(es: map<nat, Entry>, list: seq<nat>) {
    Known(es, list) && forall i, j :: 0 <= i < j < |list| ==> es[list[i]].name != es[list[j]].name
  }

  /** The entry a list has under a name. */
  function ByName(es: map<nat, Entry>, list: seq<nat>, name: Name): (r: Option<nat>)
    requires Known(es, list)
    ensures r.Some? ==> r.value in list && es[r.value].name == name
    ensures r == None ==> forall i :: 0 <= i < |list| ==> es[list[i]].name != name
  {
    if list == [] then None else if es[list[0]].name == name then Some(list[0]) else ByName(es, list[1..], name)
  }

  lemma {:induction false} ByNameSnoc(es: map<nat, Entry>, list: seq<nat>, e: nat, name: Name)
    requires Known(es, list) && e in es
    ensures Known(es, list + [e])
    ensures ByName(es, list + [e], name) ==
            if ByName(es, list, name).Some? then ByName(es, list, name) else if es[e].name == name then Some(e)
            else None
  {
    if list != [] {
      assert (list + [e])[1..] == list[1..] + [e];
      ByNameSnoc(es, list[1..], e, name);
    } else {
      assert (list + [e])[1..] == [];
    }
  }

  /** What a list holds under a name, or else what comes after it. */
  function OrElse(a: Option<nat>, b: Option<nat>): Option<nat> {
    if a.Some? then a else b
  }

  /** ft_list_add: an entry whose name is listed already is dropped. The array doubles when it is full, if the
      allocator grants the new capacity. */
  method ListAdd(es: map<nat, Entry>, list: seq<nat>, cap: nat, e: nat, grant: nat -> bool)
    returns (ok: bool, list': seq<nat>, cap': nat)
    requires IsList(es, list) && e in es && |list| <= cap
    ensures |list'| <= cap' && list <= list' && IsList(es, list')
    ensures ok ==> forall n {:trigger ByName(es, list', n)} ::
                     ByName(es, list', n) == OrElse(ByName(es, list, n), if es[e].name == n then Some(e) else None)
    ensures !ok ==> !AllGranted(grant)
  {
    ok, list', cap' := true, list, cap;
    for i := 0 to |list|
      invariant forall j :: 0 <= j < i ==> es[list[j]].name != es[e].name
    {
      if es[list[i]].name == es[e].name { return; }
    }
    if |list| == cap {
      var c := if cap > 0 then cap * 2 else 8;
      if !grant(c) { return false, list, cap; }
      cap' := c;
    }
    list' := list + [e];
    forall n ensures ByName(es, list', n) == OrElse(ByName(es, list, n), if es[e].name == n then Some(e) else None) {
      ByNameSnoc(es, list, e, n);
    }
  }

  method AddChain(es: map<nat, Entry>, list: seq<nat>, cap: nat, chain: seq<nat>, grant: nat -> bool)
    returns (ok: bool, list': seq<nat>, cap': nat)
    requires IsList(es, list) && Known(es, chain) && |list| <= cap
    ensures |list'| <= cap' && IsList(es, list')
    ensures ok ==> forall n {:trigger ByName(es, list', n)} ::
            ByName(es, list', n) == OrElse(ByName(es, list, n), ByName(es, chain, n))
    ensures !ok ==> !AllGranted(grant)
  {
    ok, list', cap' := true, list, cap;
    for i := 0 to |chain|
      invariant |list'| <= cap' && IsList(es, list') && Known(es, chain[..i])
      invariant forall n {:trigger ByName(es, list', n)} ::
                ByName(es, list', n) == OrElse(ByName(es, list, n), ByName(es, chain[..i], n))
    {
      ghost var before := list';
      ok, list', cap' := ListAdd(es, list', cap', chain[i], grant);
      if !ok { return; }
      assert chain[..i + 1] == chain[..i] + [chain[i]];
      forall n ensures ByName(es, list', n) == OrElse(ByName(es, list, n), ByName(es, chain[..i + 1], n)) {
        assert ByName(es, before, n) == OrElse(ByName(es, list, n), ByName(es, chain[..i], n));
        ByNameSnoc(es, chain[..i], chain[i], n);
      }
    }
    assert chain[..|chain|] == chain;
  }

  /** In a chain of live children the first match is the match. */
  lemma {:induction false} ChainFinds(es: map<nat, Entry>, d: nat, b: nat, chain: seq<nat>, name: Name)
    requires d in es && ChainOk(es, d, b, chain)
    ensures ByName(es, chain, name) == FindIn(es, chain, name)
    ensures Bucket(name) != b ==> ByName(es, chain, name) == None
  {
    if chain != [] {
      assert ChainOk(es, d, b, chain[1..]);
      ChainFinds(es, d, b, chain[1..], name);
      assert ChildOk(es, d, b, chain[0]);
    }
  }

  /** What the first i chains of d have under a name. */
  ghost function OwnUpTo(es: map<nat, Entry>, d: nat, i: nat, n: Name): Option<nat>
    requires KnownBuckets(es, d)
  {
    if Bucket(n) < i then FindIn(es, es[d].buckets[Bucket(n)], n) else None
  }

  /** The children of d, chain by chain. */
  method AddOwn(es: map<nat, Entry>, d: nat, list: seq<nat>, cap: nat, grant: nat -> bool)
    returns (ok: bool, list': seq<nat>, cap': nat)
    requires d in es && ChainsOk(es, d) && es[d].kind == Dir && IsList(es, list) && |list| <= cap
    ensures |list'| <= cap' && IsList(es, list')
    ensures ok ==> forall n {:trigger ByName(es, list', n)} ::
            ByName(es, list', n) == OrElse(ByName(es, list, n), Find(es, d, n))
    ensures !ok ==> !AllGranted(grant)
  {
    ok, list', cap' := true, list, cap;
    for i := 0 to 64
      invariant |list'| <= cap' && IsList(es, list')
      invariant forall n {:trigger ByName(es, list', n)} ::
                ByName(es, list', n) == OrElse(ByName(es, list, n), OwnUpTo(es, d, i, n))
    {
      ghost var before := list';
      ok, list', cap' := AddChain(es, list', cap', es[d].buckets[i], grant);
      if !ok { return; }
      forall n ensures ByName(es, list', n) == OrElse(ByName(es, list, n), OwnUpTo(es, d, i + 1, n)) {
        assert ByName(es, before, n) == OrElse(ByName(es, list, n), OwnUpTo(es, d, i, n));
        ChainFinds(es, d, i, es[d].buckets[i], n);
      }
    }
  }

  // ---------- Listing ----------

  /** Every directory of the union can be looked into. */
  ghost predicate Listable(st: State, d: nat, depth: nat)
    requires Sound(st) && d in st.entries
    decreases 65 - depth, 0
  {
    assert OwnOk(st, d) && MountOk(st, d);
    && Open(st, d, depth)
    && forall i :: 0 <= i < |st.entries[d].mounts| ==> MountListable(st, st.entries[d].mounts[i], depth + 1)
  }

  ghost predicate MountListable(st: State, m: Mount, depth: nat)
    requires Sound(st) && 1 <= depth <= 65
    decreases 65 - depth, 1
  {
    m.source in st.trees ==> Listable(st, RootOf(st, m.source), depth)
  }

  /** ft_collect */
  method Collect(st: State, d: nat, list: seq<nat>, cap: nat, depth: nat, grant: nat -> bool)
    returns (ok: bool, list': seq<nat>, cap': nat)
    requires Sound(st) && d in st.entries && IsList(st.entries, list) && |list| <= cap
    ensures |list'| <= cap' && IsList(st.entries, list')
    ensures ok ==> forall n {:trigger ByName(st.entries, list', n)} ::
                     ByName(st.entries, list', n) == OrElse(ByName(st.entries, list, n), Lookup(st, d, n, depth))
    ensures ok ==> Listable(st, d, depth)
    ensures !ok ==> !AllGranted(grant) || !Listable(st, d, depth)
    decreases 65 - depth, 1, 0
  {
    assert OwnOk(st, d) && EntryOk(st.entries, d) && MountOk(st, d);
    if !Open(st, d, depth) { return false, list, cap; }
    var ms := st.entries[d].mounts;
    ok, list', cap' := CollectIn(st, ms, true, list, cap, depth, grant);
    if !ok { return; }
    ghost var l1 := list';
    var replace := false;
    for i := 0 to |ms|
      invariant replace <==> exists j :: 0 <= j < i && ms[j].mode == 0
    {
      if ms[i].mode == 0 { replace := true; }
    }
    if !replace {
      ok, list', cap' := AddOwn(st.entries, d, list', cap', grant);
      if !ok { return; }
    }
    ghost var l2 := list';
    ok, list', cap' := CollectIn(st, ms, false, list', cap', depth, grant);
  }

  /** The mounts on one side of the directory. */
  method CollectIn(st: State, ms: seq<Mount>, before: bool, list: seq<nat>, cap: nat, depth: nat, grant: nat -> bool)
    returns (ok: bool, list': seq<nat>, cap': nat)
    requires Sound(st) && Mounts(st, ms) && depth <= 64 && IsList(st.entries, list) && |list| <= cap
    ensures |list'| <= cap' && IsList(st.entries, list')
    ensures ok ==> forall n {:trigger ByName(st.entries, list', n)} ::
                     ByName(st.entries, list', n) == OrElse(ByName(st.entries, list, n),
                       LookupIn(st, ms, before, n, depth))
    ensures ok ==> forall i :: 0 <= i < |ms| && IsBefore(ms[i]) == before ==> MountListable(st, ms[i], depth + 1)
    ensures !ok ==> !AllGranted(grant) || exists i :: 0 <= i < |ms| && !MountListable(st, ms[i], depth + 1)
    decreases 65 - depth, 0
  {
    var es := st.entries;
    ok, list', cap' := true, list, cap;
    for k := 0 to |ms|
      invariant |list'| <= cap' && IsList(es, list')
      invariant forall n {:trigger ByName(es, list', n)} ::
                  OrElse(ByName(es, list', n), LookupIn(st, ms[k..], before, n, depth)) ==
                    OrElse(ByName(es, list, n), LookupIn(st, ms, before, n, depth))
      invariant forall i :: 0 <= i < k && IsBefore(ms[i]) == before ==> MountListable(st, ms[i], depth + 1)
    {
      ghost var cur := list';
      assert ms[k..][1..] == ms[k + 1..];
      if IsBefore(ms[k]) == before {
        ok, list', cap' := Collect(st, RootOf(st, ms[k].source), list', cap', depth + 1, grant);
        if !ok { return; }
      }
      forall n ensures OrElse(ByName(es, list', n), LookupIn(st, ms[k + 1..], before, n, depth)) ==
          OrElse(ByName(es, list, n), LookupIn(st, ms, before, n, depth)) {
        assert OrElse(ByName(es, cur, n), LookupIn(st, ms[k..], before, n, depth)) ==
            OrElse(ByName(es, list, n), LookupIn(st, ms, before, n, depth));
      }
    }
  }

  /** o9_filetree_entries and o9_filetree_lookup: a listing that succeeds names every entry the lookup finds, and
      no other, each name once. */
  method Entries(st: State, t: nat, d: nat, grant: nat -> bool) returns (list: Option<seq<nat>>)
    requires Sound(st) && t in st.trees && d in st.entries
    ensures list.Some? ==> IsList(st.entries, list.value) && forall n ::
            ByName(st.entries, list.value, n) == WalkTo(st, t, d, n)
    ensures list.Some? ==> st.trees[t].alive && Listable(st, d, 0)
    ensures list == None ==> !AllGranted(grant) || !st.trees[t].alive || !Listable(st, d, 0)
  {
    assert OwnOk(st, d);
    if st.entries[d].kind != Dir || !st.trees[t].alive { return None; }
    var ok, l, _ := Collect(st, d, [], 0, 0, grant);
    if !ok { return None; }
    list := Some(l);
    forall n ensures ByName(st.entries, l, n) == WalkTo(st, t, d, n) { }
  }

  /** o9_filetree_lookup */
  function WalkTo(st: State, t: nat, d: nat, name: Name): Option<nat>
    requires Sound(st) && t in st.trees && d in st.entries
  {
    if st.trees[t].alive then Lookup(st, d, name, 0) else None
  }
}

/** What paths, mount specifications and unions mean, said without the functions that compute them. */
module FileLaws {
  import opened Guards
  import opened Options
  import opened Graphs
  import opened FileTree
  import opened FileStore
  import opened FileWalk

  // ---------- Names ----------

  /** A good name is not empty, a dot or two dots, and has no slash, delete or control character. */
  lemma NameIff(name: Name)
    ensures NameOk(name) <==>
            && name != [] && name != [46] && name != [46, 46]
            && 47 !in name && 127 !in name && forall c :: c in name ==> c > 31
  {
    if !NameOk(name) && name != [] && name != [46] && name != [46, 46] {
      var i :| 0 <= i < |name| && (name[i] == 47 || name[i] < 32 || name[i] == 127);
      assert name[i] in name;
    }
  }

  // ---------- Children ----------

  /** A name leads to the live entry of that name whose parent the directory is. */
  lemma FindIff(es: map<nat, Entry>, d: nat, name: Name, e: nat)
    requires EntriesOk(es) && d in es
    ensures KnownBuckets(es, d)
    ensures Find(es, d, name) == Some(e) <==>
            e in es && es[e].parent == Some(d) && !es[e].removed && es[e].name == name
  {
    assert EntryOk(es, d) && EntryOk(es, e);
    var chain := es[d].buckets[Bucket(name)];
    FindInFinds(es, chain, name);
    if Find(es, d, name) == Some(e) {
      assert ChildOk(es, d, Bucket(name), e);
    }
    if e in es && es[e].parent == Some(d) && !es[e].removed && es[e].name == name {
      assert e in chain;
      InChain(es, d, Bucket(name), chain, e);
    }
  }

  lemma InChain(es: map<nat, Entry>, d: nat, b: nat, chain: seq<nat>, e: nat)
    requires d in es && ChainOk(es, d, b, chain) && e in chain && e in es
    ensures FindIn(es, chain, es[e].name) == Some(e)
  {
    var name := es[e].name;
    FindInFinds(es, chain, name);
    var i :| 0 <= i < |chain| && chain[i] == e;
    assert ChildOk(es, d, b, chain[i]);
    var r := FindIn(es, chain, name).value;
    var j :| 0 <= j < |chain| && chain[j] == r;
  }

  /** A directory's chains are empty exactly if nothing that lives has it for a parent. */
  lemma ChildlessIff(es: map<nat, Entry>, d: nat)
    requires EntriesOk(es) && d in es
    ensures es[d].buckets == NoChildren() <==> forall e :: e in es && es[e].parent == Some(d) ==> es[e].removed
  {
    assert EntryOk(es, d);
    if es[d].buckets != NoChildren() {
      var b: nat :| b < 64 && es[d].buckets[b] != [];
      assert ChildOk(es, d, b, es[d].buckets[b][0]);
    }
    if e :| e in es && es[e].parent == Some(d) && !es[e].removed {
      assert EntryOk(es, e);
    }
  }

  // ---------- Paths ----------

  /** Names without a slash. */
  predicate Plain(names: seq<Name>) {
    names != [] && forall i :: 0 <= i < |names| ==> 47 !in names[i]
  }

  /** The names with slashes between them. */
  function Join(names: seq<Name>): (path: Name)
    requires names != []
  {
    if |names| == 1 then names[0] else names[0] + [47] + Join(names[1..])
  }

  lemma {:induction false} SlashAt(path: Name, k: nat)
    requires k <= |path| && 47 !in path[..k] && (k < |path| ==> path[k] == 47)
    ensures FirstSlash(path) == k
    decreases |path|
  {
    if k > 0 {
      assert path[0] == path[..k][0] && path[1..][..k - 1] == path[..k][1..];
      SlashAt(path[1..], k - 1);
    }
  }

  /** The first slash of a joined path ends its first name. */
  lemma JoinSplit(names: seq<Name>)
    requires Plain(names)
    ensures var path, k := Join(names), |names[0]|;
            && FirstSlash(path) == k && path[..k] == names[0] && (k == |path| <==> |names| == 1)
            && (|names| > 1 ==> Plain(names[1..]) && path[k + 1..] == Join(names[1..]))
  {
    var path, k := Join(names), |names[0]|;
    assert path[..k] == names[0];
    if |names| > 1 {
      assert path[k + 1..] == Join(names[1..]);
    }
    SlashAt(path, k);
  }

  /** Every path is a list of names with slashes between them. */
  lemma {:induction false} Splits(path: Name) returns (names: seq<Name>)
    ensures Plain(names) && Join(names) == path
    decreases |path|
  {
    var k := FirstSlash(path);
    if k == |path| {
      names := [path];
      assert path[..k] == path;
    } else {
      var rest := Splits(path[k + 1..]);
      names := [path[..k]] + rest;
      assert names[1..] == rest;
      assert path == path[..k] + [47] + path[k + 1..];
    }
  }

  /** And of only one. */
  lemma {:induction false} SplitsOnce(m: seq<Name>, n: seq<Name>)
    requires Plain(m) && Plain(n) && Join(m) == Join(n)
    ensures m == n
    decreases |m|
  {
    JoinSplit(m);
    JoinSplit(n);
    if |m| > 1 {
      SplitsOnce(m[1..], n[1..]);
    }
    assert m == [m[0]] + m[1..] && n == [n[0]] + n[1..];
  }

  /** e is a directory under a good name of d. */
  ghost predicate Steps(es: map<nat, Entry>, d: nat, name: Name, e: nat) {
    NameOk(name) && KnownBuckets(es, d) && Find(es, d, name) == Some(e) && e in es && es[e].kind == Dir
  }

  /** Each directory has the next under its name. */
  ghost predicate Leads(es: map<nat, Entry>, ds: seq<nat>, names: seq<Name>) {
    |ds| == |names| + 1 && forall i :: 0 <= i < |names| ==> Steps(es, ds[i], names[i], ds[i + 1])
  }

  ghost predicate LeadsTo(es: map<nat, Entry>, d: nat, names: seq<Name>, e: nat) {
    forall z {:trigger Look(z)} :: Look(z) ==> exists ds :: Leads(es, ds, names) && ds[0] == d && ds[|names|] == e
  }

  lemma EnterIff(es: map<nat, Entry>, d: nat, name: Name, e: nat)
    requires EntriesOk(es) && d in es
    ensures Enter(es, d, name) == Some(e) <==> Steps(es, d, name, e)
  {
    assert EntryOk(es, d);
    FindInFinds(es, es[d].buckets[Bucket(name)], name);
  }

  /** The way can be taken name by name. */
  lemma LeadsFirst(es: map<nat, Entry>, d: nat, names: seq<Name>, e: nat)
    requires names != []
    ensures LeadsTo(es, d, names, e) <==> exists c: nat :: Steps(es, d, names[0], c) && LeadsTo(es, c, names[1..], e)
  {
    assert Look(0);
    if LeadsTo(es, d, names, e) {
      var ds :| Leads(es, ds, names) && ds[0] == d && ds[|names|] == e;
      assert Steps(es, ds[0], names[0], ds[0 + 1]);
      forall i | 0 <= i < |names[1..]| ensures Steps(es, ds[1..][i], names[1..][i], ds[1..][i + 1]) {
        assert Steps(es, ds[i + 1], names[i + 1], ds[i + 1 + 1]);
      }
      assert Leads(es, ds[1..], names[1..]);
      assert LeadsTo(es, ds[1], names[1..], e);
    }
    if c: nat :| Steps(es, d, names[0], c) && LeadsTo(es, c, names[1..], e) {
      var ds :| Leads(es, ds, names[1..]) && ds[0] == c && ds[|names[1..]|] == e;
      var all := [d] + ds;
      forall i | 0 <= i < |names| ensures Steps(es, all[i], names[i], all[i + 1]) {
        if i > 0 { assert Steps(es, ds[i - 1], names[1..][i - 1], ds[i - 1 + 1]); }
      }
      assert Leads(es, all, names);
    }
  }

  /** That is what entering one directory after the other does. */
  lemma LeadsEnter(es: map<nat, Entry>, d: nat, names: seq<Name>, e: nat)
    requires EntriesOk(es) && d in es && names != []
    ensures var next := Enter(es, d, names[0]);
            LeadsTo(es, d, names, e) <==> next.Some? && LeadsTo(es, next.value, names[1..], e)
  {
    LeadsFirst(es, d, names, e);
    forall c: nat ensures Steps(es, d, names[0], c) <==> Enter(es, d, names[0]) == Some(c) {
      EnterIff(es, d, names[0], c);
    }
  }

  lemma LeadsNowhere(es: map<nat, Entry>, d: nat, e: nat)
    ensures LeadsTo(es, d, [], e) <==> d == e
  {
    assert Look(0);
    if d == e { assert Leads(es, [d], []); }
  }

  /** The directory a path names. */
  lemma {:induction false} DirIff(es: map<nat, Entry>, d: nat, names: seq<Name>, e: nat)
    requires EntriesOk(es) && d in es && Plain(names)
    ensures DirAt(es, d, Join(names)) == Some(e) <==> LeadsTo(es, d, names, e)
    decreases |names|
  {
    JoinSplit(names);
    LeadsEnter(es, d, names, e);
    EnterMeans(es, d, names[0]);
    var next := Enter(es, d, names[0]);
    if next.Some? {
      if |names| > 1 { DirIff(es, next.value, names[1..], e); } else { LeadsNowhere(es, next.value, e); }
    }
  }

  lemma ParentNext(es: map<nat, Entry>, d: nat, names: seq<Name>)
    requires EntriesOk(es) && d in es && Plain(names)
    ensures var r, next := ParentOf(es, d, Join(names)), Enter(es, d, names[0]);
            && (next.Some? ==> next.value in es)
            && if |names| == 1 then r == if NameOk(names[0]) then Some((d, names[0])) else None
               else r == if next == None then None else ParentOf(es, next.value, Join(names[1..]))
  {
    JoinSplit(names);
    EnterMeans(es, d, names[0]);
    assert |names| == 1 ==> Join(names) == names[0];
  }

  /** The directory all but the last name lead to, and the last name. */
  lemma {:induction false} ParentIff(es: map<nat, Entry>, d: nat, front: seq<Name>, last: Name, p: nat, leaf: Name)
    requires EntriesOk(es) && d in es && Plain(front + [last])
    ensures ParentOf(es, d, Join(front + [last])) == Some((p, leaf)) <==>
            leaf == last && NameOk(leaf) && LeadsTo(es, d, front, p)
    decreases |front|
  {
    var names := front + [last];
    ParentNext(es, d, names);
    if front == [] {
      LeadsNowhere(es, d, p);
    } else {
      LeadsEnter(es, d, front, p);
      var next := Enter(es, d, front[0]);
      assert names[1..] == front[1..] + [last];
      if next.Some? { ParentIff(es, next.value, front[1..], last, p, leaf); }
    }
  }

  /** Where Put and Remove do their work: below the root, in the directory the names before the last lead to. */
  lemma PlaceIff(st: State, t: nat, front: seq<Name>, last: Name, p: nat, leaf: Name)
    requires Inv(st) && t in st.trees && Plain(front + [last])
    ensures PlaceOf(st, t, Join(front + [last])) == Some((p, leaf)) <==>
            leaf == last && NameOk(leaf) && LeadsTo(st.entries, st.trees[t].root, front, p)
  {
    assert TreeOk(st, t);
    ParentIff(st.entries, st.trees[t].root, front, last, p, leaf);
  }

  /** What a mount specification targets: the root for a dot, or the directory the names lead to. */
  lemma TargetIff(st: State, t: nat, names: seq<Name>, e: nat)
    requires Inv(st) && t in st.trees && Plain(names)
    ensures TargetOf(st, t, Join(names)) == Some(e) <==>
            if names == [[46]] then e == st.trees[t].root else LeadsTo(st.entries, st.trees[t].root, names, e)
  {
    assert TreeOk(st, t);
    var path, root := Join(names), st.trees[t].root;
    JoinSplit(names);
    DirIff(st.entries, root, names, e);
    if path == [46] { SplitsOnce(names, [[46]]); }
    if path == [] || path[0] == 47 {
      assert names[0] == [];
      LeadsFirst(st.entries, root, names, e);
    }
  }

  // ---------- Mount specifications ----------

  lemma AppliedNothing(st: State, st2: State, t: nat)
    requires Inv(st) && t in st.trees && Applied(st, st2, t, [])
    ensures st2 == st
  {
    assert st2.entries == st.entries;
  }

  /** What one more specification adds. */
  lemma AppliedNext(st: State, st2: State, st3: State, t: nat, specs: seq<Spec>, sp: Spec, e: nat, src: nat)
    requires Inv(st) && t in st.trees && e in st.entries
    requires Applied(st, st2, t, specs) && Applied(st, st3, t, specs + [sp]) && SpecOk(st, t, sp)
    requires !sp.unmount ==> Registered(st, sp.source.value, src)
    ensures var ms, ms' := st2.entries[e].mounts, st3.entries[e].mounts;
            if TargetOf(st, t, sp.target) != Some(e) then ms' == ms
            else if sp.unmount then ms' == []
            else if sp.mode == 0 then ms' == [Mount(src, 0)]
            else if sp.mode == 1 then ms' == [Mount(src, 1)] + ms
            else ms' == ms + [Mount(src, 2)]
  {
    assert (specs + [sp])[..|specs|] == specs;
    assert st3.entries[e].mounts == Folded(st, t, e, specs + [sp]) && st2.entries[e].mounts == Folded(st, t, e, specs);
    if !sp.unmount { Edited(st, st2.entries[e].mounts, sp, src); }
  }

  lemma Edited(st: State, ms: seq<Mount>, sp: Spec, src: nat)
    requires SourcesOk(st) && !sp.unmount && 0 <= sp.mode <= 2
    requires sp.source.Some? && Registered(st, sp.source.value, src)
    ensures Edit(st, ms, sp) == if sp.mode == 0 then [Mount(src, 0)] else if sp.mode == 1 then [Mount(src, 1)] + ms
              else ms + [Mount(src, 2)]
  {
    RegisteredOnce(st, sp.source.value, src);
  }

  lemma RegisteredOnce(st: State, id: Name, src: nat)
    requires SourcesOk(st) && Registered(st, id, src)
    ensures SourceTree(st, id) == Some(src)
  {
    var x := SourceTree(st, id).value;
    assert Registered(st, id, x);
    var i :| 0 <= i < |st.sources| && st.sources[i] == Source(id, src);
    var j :| 0 <= j < |st.sources| && st.sources[j] == Source(id, x);
  }

  /** It has a target and, unless it unmounts, one of the three modes and a registered source. */
  ghost predicate Meaningful(st: State, t: nat, sp: Spec)
    requires Inv(st) && t in st.trees
  {
    && (exists e :: TargetOf(st, t, sp.target) == Some(e))
    && (sp.unmount || (sp.mode in {0, 1, 2} && sp.source.Some? && exists u :: Registered(st, sp.source.value, u)))
  }

  /** With at most 256 trees, specifications are accepted from the owner exactly if they are all meaningful and what
      they make of the mounts has no cycle. */
  lemma AcceptedIff(st: State, st2: State, me: nat, t: nat, specs: seq<Spec>)
    requires Inv(st) && t in st.trees && |st.trees| <= 256 && Applied(st, st2, t, specs)
    ensures ApplyOk(st, me, t, specs) <==>
            && Owned(st, me, t) && (forall i :: 0 <= i < |specs| ==> Meaningful(st, t, specs[i]))
            && Acyclic(MountGraph(st2))
  {
    PlanOk(st, t, specs);
    CheckExact(st, t, PlanOf(st, t, specs));
    CommitApplies(st, st2, t, specs);
    forall i | 0 <= i < |specs| ensures SpecAt(st, t, specs, i) <==> Meaningful(st, t, specs[i]) {
      SpecMeans(st, t, specs[i]);
    }
  }

  lemma SpecMeans(st: State, t: nat, sp: Spec)
    requires Inv(st) && t in st.trees
    ensures SpecOk(st, t, sp) <==> Meaningful(st, t, sp)
  {
    if TargetOf(st, t, sp.target).Some? { assert TargetOf(st, t, sp.target) == Some(TargetOf(st, t, sp.target).value); }
  }

  lemma CommitApplies(st: State, st2: State, t: nat, specs: seq<Spec>)
    requires Inv(st) && t in st.trees && Applied(st, st2, t, specs)
    ensures Commit(st, PlanOf(st, t, specs)) == st2
  {
    var st3 := Commit(st, PlanOf(st, t, specs));
    forall e | e in st.entries ensures st3.entries[e] == st2.entries[e] {
      PlanFolds(st, t, specs, e);
    }
    assert st3.entries == st2.entries;
  }

  // ---------- Unions ----------

  /** No mount of those modes has the name. */
  ghost predicate NoneHas(has: Mount -> Option<nat>, ms: seq<Mount>, modes: set<nat>) {
    forall i :: 0 <= i < |ms| && ms[i].mode in modes ==> has(ms[i]) == None
  }

  /** Mount i is the first of those modes that has it. */
  ghost predicate FirstHas(has: Mount -> Option<nat>, ms: seq<Mount>, modes: set<nat>, i: nat) {
    i < |ms| && ms[i].mode in modes && has(ms[i]).Some? && NoneHas(has, ms[..i], modes)
  }

  /** r is what the first mount of those modes has, if one has it. */
  ghost predicate IsFirst(has: Mount -> Option<nat>, ms: seq<Mount>, modes: set<nat>, r: Option<nat>) {
    forall i: nat {:trigger FirstHas(has, ms, modes, i)} :: FirstHas(has, ms, modes, i) ==> r == has(ms[i])
  }

  /** r is what a directory with those mounts, and own of its own, has under a name: what the first replacing or earlier
      mount has; else its own, unless it is replaced; else what the first later mount has. */
  ghost predicate UnionLaw(has: Mount -> Option<nat>, ms: seq<Mount>, own: Option<nat>, r: Option<nat>) {
    IsFirst(has, ms, {0, 1}, r) && (NoneHas(has, ms, {0, 1}) ==> OwnOrLater(has, ms, own, r))
  }

  ghost predicate OwnOrLater(has: Mount -> Option<nat>, ms: seq<Mount>, own: Option<nat>, r: Option<nat>) {
    if own.Some? && forall i :: 0 <= i < |ms| ==> ms[i].mode != 0 then r == own
    else IsFirst(has, ms, {2}, r) && (NoneHas(has, ms, {2}) ==> r == None)
  }

  lemma {:induction false} SomeFirst(has: Mount -> Option<nat>, ms: seq<Mount>, modes: set<nat>) returns (i: nat)
    ensures NoneHas(has, ms, modes) || FirstHas(has, ms, modes, i)
  {
    i := 0;
    while i < |ms| && (ms[i].mode in modes ==> has(ms[i]) == None)
      invariant i <= |ms| && NoneHas(has, ms[..i], modes)
    {
      assert ms[..i + 1] == ms[..i] + [ms[i]];
      i := i + 1;
    }
    assert ms[..|ms|] == ms;
  }

  /** There is one such answer. */
  lemma UnionDecides(has: Mount -> Option<nat>, ms: seq<Mount>, own: Option<nat>, r: Option<nat>, r': Option<nat>)
    requires UnionLaw(has, ms, own, r) && UnionLaw(has, ms, own, r')
    ensures r == r'
  {
    var i := SomeFirst(has, ms, {0, 1});
    var j := SomeFirst(has, ms, {2});
  }

  /** What a replaced directory has comes from a mount. */
  lemma ReplacedHides(has: Mount -> Option<nat>, ms: seq<Mount>, own: Option<nat>, r: Option<nat>, i: nat)
    requires UnionLaw(has, ms, own, r) && i < |ms| && ms[i].mode == 0 && r.Some?
    ensures exists j :: 0 <= j < |ms| && r == has(ms[j])
  {
    var j := SomeFirst(has, ms, {0, 1});
    var k := SomeFirst(has, ms, {2});
    if !NoneHas(has, ms, {0, 1}) { assert r == has(ms[j]); }
  }

  /** What a mounted tree has under a name, inside depth others. */
  function Mounted(st: State, name: Name, depth: nat): Mount -> Option<nat>
    requires Sound(st)
  {
    (m: Mount) => if m.source in st.trees then Lookup(st, RootOf(st, m.source), name, depth) else None
  }

  lemma {:induction false} FirstDecides(st: State, ms: seq<Mount>, early: bool, name: Name, depth: nat, i: nat)
    requires Sound(st) && Mounts(st, ms) && depth <= 64 && forall j :: 0 <= j < |ms| ==> ms[j].mode <= 2
    ensures var has, modes := Mounted(st, name, depth + 1), if early then {0, 1} else {2};
            && (FirstHas(has, ms, modes, i) ==> LookupIn(st, ms, early, name, depth) == has(ms[i]))
            && (NoneHas(has, ms, modes) ==> LookupIn(st, ms, early, name, depth) == None)
    decreases |ms|
  {
    if ms != [] {
      var rest := ms[1..];
      assert forall j :: 0 <= j < |rest| ==> rest[j] == ms[j + 1];
      if i > 0 {
        assert i < |ms| ==> rest[..i - 1] == ms[..i][1..];
        FirstDecides(st, rest, early, name, depth, i - 1);
      } else {
        FirstDecides(st, rest, early, name, depth, 0);
      }
    }
  }

  /** A live directory of a live tree, inside at most 64 others. */
  ghost predicate OpenAt(st: State, d: nat, depth: nat) {
    && d in st.entries && st.entries[d].kind == Dir && !st.entries[d].removed
    && st.entries[d].tree in st.trees && st.trees[st.entries[d].tree].alive && depth <= 64
  }

  /** The law of ft_lookup_mount, at any depth: what its mounts have one deeper decides what an open directory has. */
  lemma UnionAt(st: State, d: nat, name: Name, depth: nat)
    requires Sound(st) && d in st.entries
    ensures st.entries[d].tree in st.trees && KnownBuckets(st.entries, d)
    ensures if OpenAt(st, d, depth) then
              UnionLaw(Mounted(st, name, depth + 1), st.entries[d].mounts, Find(st.entries, d, name),
                       Lookup(st, d, name, depth))
            else Lookup(st, d, name, depth) == None
  {
    assert OwnOk(st, d) && EntryOk(st.entries, d) && MountOk(st, d);
    if !Open(st, d, depth) { return; }
    var ms, has := st.entries[d].mounts, Mounted(st, name, depth + 1);
    forall i: nat | FirstHas(has, ms, {0, 1}, i) ensures Lookup(st, d, name, depth) == has(ms[i]) {
      FirstDecides(st, ms, true, name, depth, i);
    }
    if NoneHas(has, ms, {0, 1}) {
      FirstDecides(st, ms, true, name, depth, 0);
      FirstDecides(st, ms, false, name, depth, 0);
      forall i: nat | FirstHas(has, ms, {2}, i) ensures LookupIn(st, ms, false, name, depth) == has(ms[i]) {
        FirstDecides(st, ms, false, name, depth, i);
      }
    }
  }

  // ---------- The depth of nesting ----------

  /** Along a walk of mounts no tree comes twice. */
  lemma WalkFits(st: State, p: seq<nat>)
    requires Inv(st) && Walk(MountGraph(st), p) && p[|p| - 1] in st.trees
    ensures |p| <= |st.trees|
  {
    var g := MountGraph(st);
    forall i, j | 0 <= i < j < |p| ensures p[i] != p[j] {
      Slice(g, p, i, j + 1);
    }
    forall x | x in p ensures x in st.trees.Keys {
      var i :| 0 <= i < |p| && p[i] == x;
      if i < |p| - 1 { assert Edge(g, p[i], p[i + 1]); }
    }
    DistinctFits(p, st.trees.Keys);
  }

  /** A mount of a directory leads one tree on. */
  lemma WalkOn(st: State, p: seq<nat>, d: nat, m: Mount)
    requires Inv(st) && d in st.entries && !st.entries[d].removed && m in st.entries[d].mounts
    requires Walk(MountGraph(st), p) && p[|p| - 1] == st.entries[d].tree
    ensures Walk(MountGraph(st), p + [m.source])
  {
    assert OwnOk(st, d) && MountedAt(st, d, st.entries[d].tree, m.source);
    EdgeMeans(st, st.entries[d].tree, m.source);
  }

  /** With at most 64 trees the depth limit is never met: only what is mounted where matters. */
  lemma {:induction false} DepthFree(st: State, d: nat, name: Name, k: nat, l: nat, p: seq<nat>, q: seq<nat>)
    requires Inv(st) && |st.trees| <= 64 && d in st.entries && k < |p| && l < |q|
    requires Joins(MountGraph(st), p, p[0], st.entries[d].tree) && Joins(MountGraph(st), q, q[0], st.entries[d].tree)
    ensures Lookup(st, d, name, k) == Lookup(st, d, name, l)
    decreases 65 - k, 1, 0
  {
    assert OwnOk(st, d) && MountOk(st, d);
    WalkFits(st, p);
    WalkFits(st, q);
    if Open(st, d, k) {
      DepthFreeIn(st, d, 0, true, name, k, l, p, q);
      DepthFreeIn(st, d, 0, false, name, k, l, p, q);
      assert st.entries[d].mounts[0..] == st.entries[d].mounts;
    }
  }

  lemma {:induction false} DepthFreeIn(st: State, d: nat, i: nat, before: bool, name: Name, k: nat, l: nat, p: seq<nat>,
                                       q: seq<nat>)
    requires Inv(st) && |st.trees| <= 64 && d in st.entries && k < |p| <= 64 && l < |q| <= 64
    requires !st.entries[d].removed && i <= |st.entries[d].mounts| && Mounts(st, st.entries[d].mounts)
    requires Joins(MountGraph(st), p, p[0], st.entries[d].tree) && Joins(MountGraph(st), q, q[0], st.entries[d].tree)
    ensures var ms := st.entries[d].mounts[i..]; LookupIn(st, ms, before, name, k) == LookupIn(st, ms, before, name, l)
    decreases 65 - k, 0, |st.entries[d].mounts| - i
  {
    if i < |st.entries[d].mounts| {
      var m := st.entries[d].mounts[i];
      WalkOn(st, p, d, m);
      WalkOn(st, q, d, m);
      assert TreeOk(st, m.source);
      DepthFree(st, RootOf(st, m.source), name, k + 1, l + 1, p + [m.source], q + [m.source]);
      DepthFreeIn(st, d, i + 1, before, name, k, l, p, q);
      assert st.entries[d].mounts[i..][1..] == st.entries[d].mounts[i + 1..];
    }
  }

  /** What walking finds in a mounted tree. */
  function Walked(st: State, name: Name): Mount -> Option<nat>
    requires Sound(st)
  {
    (m: Mount) => if m.source in st.trees then WalkTo(st, m.source, RootOf(st, m.source), name) else None
  }

  /** The law of o9_filetree_lookup: a name leads where it leads in the first replacing or earlier mount that has it,
      else to the directory's own child, unless it is replaced, else where it leads in the first later mount that
      has it. */
  lemma WalkUnion(st: State, t: nat, d: nat, name: Name)
    requires Inv(st) && |st.trees| <= 64 && t in st.trees && d in st.entries
    ensures KnownBuckets(st.entries, d)
    ensures if st.trees[t].alive && OpenAt(st, d, 0) then
              UnionLaw(Walked(st, name), st.entries[d].mounts, Find(st.entries, d, name), WalkTo(st, t, d, name))
            else WalkTo(st, t, d, name) == None
  {
    UnionAt(st, d, name, 0);
    if !st.trees[t].alive || !OpenAt(st, d, 0) { return; }
    WalkedSame(st, d, name, Find(st.entries, d, name), WalkTo(st, t, d, name));
  }

  lemma WalkedSame(st: State, d: nat, name: Name, own: Option<nat>, r: Option<nat>)
    requires Inv(st) && |st.trees| <= 64 && d in st.entries && !st.entries[d].removed
    requires UnionLaw(Mounted(st, name, 1), st.entries[d].mounts, own, r)
    ensures UnionLaw(Walked(st, name), st.entries[d].mounts, own, r)
  {
    forall m | m in st.entries[d].mounts ensures Mounted(st, name, 1)(m) == Walked(st, name)(m) {
      MountedWalk(st, d, m, name);
    }
    SameLaw(Mounted(st, name, 1), Walked(st, name), st.entries[d].mounts, own, r);
  }

  lemma MountedWalk(st: State, d: nat, m: Mount, name: Name)
    requires Inv(st) && |st.trees| <= 64 && d in st.entries && !st.entries[d].removed && m in st.entries[d].mounts
    ensures Mounted(st, name, 1)(m) == Walked(st, name)(m)
  {
    assert MountOk(st, d) && TreeOk(st, m.source);
    WalkOn(st, [st.entries[d].tree], d, m);
    DepthFree(st, RootOf(st, m.source), name, 1, 0, [st.entries[d].tree, m.source], [m.source]);
  }

  lemma SameLaw(has: Mount -> Option<nat>, has': Mount -> Option<nat>, ms: seq<Mount>, own: Option<nat>, r: Option<nat>)
    requires UnionLaw(has, ms, own, r) && forall m :: m in ms ==> has(m) == has'(m)
    ensures UnionLaw(has', ms, own, r)
  {
    assert forall i :: 0 <= i < |ms| ==> ms[i] in ms;
    forall modes ensures NoneHas(has, ms, modes) <==> NoneHas(has', ms, modes) { }
    forall i: nat, modes ensures FirstHas(has, ms, modes, i) <==> FirstHas(has', ms, modes, i) {
      if i < |ms| { assert forall j :: 0 <= j < i ==> ms[..i][j] == ms[j]; }
    }
  }

  // ---------- What can be listed ----------

  /** Each directory is the root of a tree mounted on the one before. */
  ghost predicate Nested(st: State, ds: seq<nat>)
    requires Sound(st)
  {
    |ds| > 0 && (forall i :: 0 <= i < |ds| ==> ds[i] in st.entries)
    && forall i :: 0 <= i < |ds| - 1 ==> MountedOn(st, ds[i], ds[i + 1])
  }

  ghost predicate MountedOn(st: State, d: nat, e: nat)
    requires Sound(st)
  {
    d in st.entries && exists m :: m in st.entries[d].mounts && m.source in st.trees && RootOf(st, m.source) == e
  }

  /** A directory can be listed exactly if every directory in its union is open, at the depth it is mounted. */
  lemma {:induction false} ListableIff(st: State, d: nat, depth: nat)
    requires Sound(st) && d in st.entries
    ensures Listable(st, d, depth) <==>
            forall ds :: Nested(st, ds) && ds[0] == d ==> OpenAt(st, ds[|ds| - 1], depth + |ds| - 1)
    decreases 65 - depth
  {
    assert OwnOk(st, d) && MountOk(st, d);
    if Listable(st, d, depth) {
      forall ds | Nested(st, ds) && ds[0] == d ensures OpenAt(st, ds[|ds| - 1], depth + |ds| - 1) {
        AllOpen(st, ds, depth);
      }
    }
    if forall ds :: Nested(st, ds) && ds[0] == d ==> OpenAt(st, ds[|ds| - 1], depth + |ds| - 1) {
      assert Nested(st, [d]);
      var ms := st.entries[d].mounts;
      forall i | 0 <= i < |ms| ensures MountListable(st, ms[i], depth + 1) {
        var e := RootOf(st, ms[i].source);
        assert MountedOn(st, d, e);
        forall ds | Nested(st, ds) && ds[0] == e ensures OpenAt(st, ds[|ds| - 1], depth + 1 + |ds| - 1) {
          NestedMore(st, d, ds);
        }
        ListableIff(st, e, depth + 1);
      }
    }
  }

  lemma NestedMore(st: State, d: nat, ds: seq<nat>)
    requires Sound(st) && d in st.entries && Nested(st, ds) && MountedOn(st, d, ds[0])
    ensures Nested(st, [d] + ds)
  {
    var all := [d] + ds;
    forall i | 0 <= i < |all| - 1 ensures MountedOn(st, all[i], all[i + 1]) {
      if i > 0 { assert MountedOn(st, ds[i - 1], ds[i - 1 + 1]); }
    }
  }

  lemma {:induction false} AllOpen(st: State, ds: seq<nat>, depth: nat)
    requires Sound(st) && Nested(st, ds) && Listable(st, ds[0], depth)
    ensures OpenAt(st, ds[|ds| - 1], depth + |ds| - 1)
    decreases |ds|
  {
    assert OwnOk(st, ds[0]);
    if |ds| > 1 {
      assert MountedOn(st, ds[0], ds[0 + 1]);
      var ms := st.entries[ds[0]].mounts;
      var m :| m in ms && m.source in st.trees && RootOf(st, m.source) == ds[1];
      var i :| 0 <= i < |ms| && ms[i] == m;
      assert MountListable(st, ms[i], depth + 1);
      forall k | 0 <= k < |ds[1..]| - 1 ensures MountedOn(st, ds[1..][k], ds[1..][k + 1]) {
        assert MountedOn(st, ds[k + 1], ds[k + 1 + 1]);
      }
      AllOpen(st, ds[1..], depth + 1);
    }
  }
}

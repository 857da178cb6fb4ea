/** Actor-owned directory trees that are mounted into each other: the shared state, its invariant, and what
    each primitive change does to it. */
module FileTree {
  import opened Options
  import opened Words
  import opened Graphs

  type Name = seq<u8>

  datatype Kind = Dir | Text | Live

  /** mode 0 replaces the directory, 1 goes before it, 2 after it. */
  datatype Mount = Mount(source: nat, mode: nat)

  datatype Entry = Entry(name: Name, kind: Kind, writable: bool, removed: bool, data: Option<Name>, tree: nat,
                         mounts: seq<Mount>, parent: Option<nat>, buckets: seq<seq<nat>>)

  datatype Tree = Tree(owner: nat, alive: bool, root: nat, all: seq<nat>)

  datatype Source = Source(id: Name, tree: nat)

  /** Trees are named by their address, entries by their id. Lists are head first. */
  datatype State = State(trees: map<nat, Tree>, listed: seq<nat>, entries: map<nat, Entry>, sources: seq<Source>,
                         nextId: nat)

  // ---------- Names ----------

  function Fnv(name: Name, h: bv32): bv32 {
    if name == [] then h else Fnv(name[1..], (h ^ (name[0] as bv32)) * 16777619)
  }

  /** ft_bucket: a 32-bit FNV-1a hash. */
  function Bucket(name: Name): (b: nat)
    ensures b < 64
  {
    (Fnv(name, 2166136261) % 64) as nat
  }

  /** ft_name_ok: not empty, not "." or "..", and no slash or control character. */
  predicate NameOk(name: Name) {
    name != [] && name != [46] && name != [46, 46] && forall i :: 0 <= i < |name| ==>
      name[i] != 47 && name[i] >= 32 && name[i] != 127
  }

  // ---------- Looking up a name in one directory ----------

  predicate Known(es: map<nat, Entry>, chain: seq<nat>) {
    forall i :: 0 <= i < |chain| ==> chain[i] in es
  }

  function FindIn(es: map<nat, Entry>, chain: seq<nat>, name: Name): Option<nat>
    requires Known(es, chain)
  {
    if chain == [] then None
    else if !es[chain[0]].removed && es[chain[0]].name == name then Some(chain[0])
    else FindIn(es, chain[1..], name)
  }

  predicate KnownBuckets(es: map<nat, Entry>, d: nat) {
    d in es && |es[d].buckets| == 64 && forall b :: 0 <= b < 64 ==> Known(es, es[d].buckets[b])
  }

  /** ft_find */
  function Find(es: map<nat, Entry>, d: nat, name: Name): Option<nat>
    requires KnownBuckets(es, d)
  {
    if es[d].kind != Dir then None else FindIn(es, es[d].buckets[Bucket(name)], name)
  }

  lemma {:induction false} FindInFinds(es: map<nat, Entry>, chain: seq<nat>, name: Name)
    requires Known(es, chain)
    ensures var r := FindIn(es, chain, name);
            r.Some? ==> r.value in chain && r.value in es && es[r.value].name == name && !es[r.value].removed
    ensures FindIn(es, chain, name).None? ==> forall i :: 0 <= i < |chain| ==>
            es[chain[i]].removed || es[chain[i]].name != name
  {
    if chain != [] {
      FindInFinds(es, chain[1..], name);
      assert chain == [chain[0]] + chain[1..];
    }
  }

  // ---------- The invariant ----------

  /** ft_trees links trees that exist, each once. */
  ghost predicate ListOk(st: State) {
    Distinct(st.listed) && forall i :: 0 <= i < |st.listed| ==> st.listed[i] in st.trees
  }

  /** A tree is linked, has a root directory, and lists only entries of its own, each once. */
  ghost predicate TreeOk(st: State, t: nat) {
    t in st.trees ==>
      && t in st.listed && RootOk(st, t) && Distinct(st.trees[t].all)
      && forall e :: e in st.trees[t].all ==> e in st.entries && st.entries[e].tree == t
  }

  ghost predicate RootOk(st: State, t: nat)
    requires t in st.trees
  {
    var r := st.trees[t].root;
    r in st.entries && st.entries[r].tree == t && st.entries[r].kind == Dir && !st.entries[r].removed
      && st.entries[r].parent == None
  }

  /** An entry, removed or not, is listed by its tree. */
  ghost predicate OwnOk(st: State, e: nat) {
    e in st.entries ==> e < st.nextId && st.entries[e].tree in st.trees && e in st.trees[st.entries[e].tree].all
  }

  ghost predicate TreesOk(st: State) {
    ListOk(st) && forall t {:trigger TreeOk(st, t)} :: TreeOk(st, t)
  }

  ghost predicate AllOk(st: State) {
    forall e {:trigger OwnOk(st, e)} :: OwnOk(st, e)
  }

  /** c is a live child of d, in the chain its name hashes to. */
  ghost predicate ChildOk(es: map<nat, Entry>, d: nat, b: nat, c: nat)
    requires d in es && c in es
  {
    && es[c].tree == es[d].tree && !es[c].removed && es[c].parent == Some(d)
    && Bucket(es[c].name) == b && NameOk(es[c].name)
  }

  /** Chain b of d holds live children of d, with distinct names. */
  ghost predicate ChainOk(es: map<nat, Entry>, d: nat, b: nat, chain: seq<nat>)
    requires d in es
  {
    && Known(es, chain)
    && (forall i :: 0 <= i < |chain| ==> ChildOk(es, d, b, chain[i]))
    && (forall i, j :: 0 <= i < j < |chain| ==> es[chain[i]].name != es[chain[j]].name)
  }

  /** All chains are in order; only a live directory has children. */
  ghost predicate ChainsOk(es: map<nat, Entry>, d: nat)
    requires d in es
  {
    && KnownBuckets(es, d)
    && (forall b {:trigger es[d].buckets[b]} :: 0 <= b < 64 ==> ChainOk(es, d, b, es[d].buckets[b]))
    && (es[d].kind != Dir || es[d].removed ==> forall b :: 0 <= b < 64 ==> es[d].buckets[b] == [])
  }

  /** A live entry other than a root is linked from its parent. */
  ghost predicate LinkedOk(es: map<nat, Entry>, e: nat)
    requires e in es
  {
    es[e].parent.Some? && !es[e].removed ==>
      es[e].parent.value in es && |es[es[e].parent.value].buckets| == 64
        && e in es[es[e].parent.value].buckets[Bucket(es[e].name)]
  }

  ghost predicate EntryOk(es: map<nat, Entry>, e: nat) {
    e in es ==> ChainsOk(es, e) && LinkedOk(es, e)
  }

  ghost predicate EntriesOk(es: map<nat, Entry>) {
    forall e {:trigger EntryOk(es, e)} :: EntryOk(es, e)
  }

  /** before*, at most one replace, after* */
  ghost predicate Shape(ms: seq<Mount>) {
    && (forall i :: 0 <= i < |ms| ==> ms[i].mode <= 2)
    && (forall i, j :: 0 <= i < j < |ms| ==> ms[i].mode == 1 || ms[j].mode == 2)
  }

  /** Every mount source is a tree that has not been destroyed; only directories carry mounts. */
  ghost predicate MountOk(st: State, e: nat) {
    e in st.entries ==>
      && Shape(st.entries[e].mounts)
      && (st.entries[e].kind != Dir ==> st.entries[e].mounts == [])
      && forall m :: m in st.entries[e].mounts ==> m.source in st.trees
  }

  ghost predicate MountsOk(st: State) {
    forall e {:trigger MountOk(st, e)} :: MountOk(st, e)
  }

  /** Registered ids are unique, and each names a live tree. */
  ghost predicate SourcesOk(st: State) {
    && (forall i, j :: 0 <= i < j < |st.sources| ==> st.sources[i].id != st.sources[j].id)
    && (forall i :: 0 <= i < |st.sources| ==> st.sources[i].tree in st.trees && st.trees[st.sources[i].tree].alive)
  }

  function SourcesOf(ms: seq<Mount>): set<nat> {
    set m | m in ms :: m.source
  }

  /** Entry e of tree a is not removed and mounts b. */
  predicate MountedAt(st: State, e: nat, a: nat, b: nat) {
    e in st.entries && st.entries[e].tree == a && !st.entries[e].removed && b in SourcesOf(st.entries[e].mounts)
  }

  function MountedBy(st: State, t: nat): set<nat> {
    set e, b | e in st.entries && b in SourcesOf(st.entries[e].mounts) && MountedAt(st, e, t, b) :: b
  }

  /** "A non-removed entry of tree a mounts tree b." */
  function MountGraph(st: State): Graph {
    map t | t in st.trees :: MountedBy(st, t)
  }

  lemma EdgeMeans(st: State, a: nat, b: nat)
    ensures Edge(MountGraph(st), a, b) <==> a in st.trees && exists e :: MountedAt(st, e, a, b)
  {
  }

  ghost predicate Inv(st: State) {
    TreesOk(st) && AllOk(st) && EntriesOk(st.entries) && MountsOk(st) && SourcesOk(st) && Acyclic(MountGraph(st))
  }

  // ---------- Changes that keep the entries in order ----------

  /** es2 still has c, with the same name, tree, parent and liveness. */
  ghost predicate SameChild(es: map<nat, Entry>, es2: map<nat, Entry>, c: nat) {
    c in es && c in es2 && es2[c].name == es[c].name && es2[c].tree == es[c].tree && es2[c].removed == es[c].removed
    && es2[c].parent == es[c].parent
  }

  lemma ChainKept(es: map<nat, Entry>, es2: map<nat, Entry>, d: nat, b: nat, chain: seq<nat>)
    requires d in es && d in es2 && es2[d].tree == es[d].tree && ChainOk(es, d, b, chain)
    requires forall c :: c in chain ==> SameChild(es, es2, c)
    ensures ChainOk(es2, d, b, chain)
  {
    assert forall i :: 0 <= i < |chain| ==> chain[i] in chain;
  }

  lemma ChainsKept(es: map<nat, Entry>, es2: map<nat, Entry>, d: nat)
    requires d in es && ChainsOk(es, d) && SameChild(es, es2, d) && es2[d].buckets == es[d].buckets
             && es2[d].kind == es[d].kind
    requires forall c :: c in es && es[c].parent == Some(d) && !es[c].removed ==> SameChild(es, es2, c)
    ensures ChainsOk(es2, d)
  {
    forall b | 0 <= b < 64 ensures ChainOk(es2, d, b, es2[d].buckets[b]) {
      ChainKept(es, es2, d, b, es[d].buckets[b]);
    }
  }

  lemma LinkKept(es: map<nat, Entry>, es2: map<nat, Entry>, e: nat)
    requires e in es && LinkedOk(es, e) && SameChild(es, es2, e)
    requires es[e].parent.Some? && !es[e].removed ==>
               var d := es[e].parent.value;
               d in es && d in es2 && |es2[d].buckets| == 64
                 && (e in es[d].buckets[Bucket(es[e].name)] ==> e in es2[d].buckets[Bucket(es[e].name)])
    ensures LinkedOk(es2, e)
  {
  }

  /** 64 empty chains. */
  function NoChildren(): (bs: seq<seq<nat>>)
    ensures |bs| == 64 && forall b :: 0 <= b < 64 ==> bs[b] == []
  {
    seq(64, _ => [])
  }

  // ---------- A new entry in a directory ----------

  /** d with c pushed on the chain of bucket b. */
  function Push(d: Entry, b: nat, c: nat): Entry
    requires b < |d.buckets|
  {
    d.(buckets := d.buckets[b := [c] + d.buckets[b]])
  }

  /** ft_entry below directory d of tree t. */
  function AddChild(st: State, t: nat, d: nat, name: Name, kind: Kind, data: Option<Name>, writable: bool): State
    requires t in st.trees && d in st.entries && |st.entries[d].buckets| == 64
  {
    var e := Entry(name, kind, writable, false, data, t, [], Some(d), NoChildren());
    st.(trees := st.trees[t := st.trees[t].(all := [st.nextId] + st.trees[t].all)],
        entries := st.entries[st.nextId := e][d := Push(st.entries[d], Bucket(name), st.nextId)],
        nextId := st.nextId + 1)
  }

  /** What adding a child asks for: a live directory of the tree, and a good name it does not have. */
  ghost predicate CanAdd(st: State, t: nat, d: nat, name: Name) {
    && t in st.trees && d in st.entries && st.entries[d].tree == t && st.entries[d].kind == Dir
    && !st.entries[d].removed && NameOk(name) && KnownBuckets(st.entries, d) && Find(st.entries, d, name) == None
  }

  lemma PushedChain(es2: map<nat, Entry>, d: nat, b: nat, chain: seq<nat>, c: nat)
    requires d in es2 && ChainOk(es2, d, b, chain) && c in es2 && ChildOk(es2, d, b, c)
    requires forall i :: 0 <= i < |chain| ==> es2[chain[i]].name != es2[c].name
    ensures ChainOk(es2, d, b, [c] + chain)
  {
  }

  lemma PushedChains(es: map<nat, Entry>, es2: map<nat, Entry>, d: nat, c: nat, name: Name)
    requires d in es && ChainsOk(es, d) && c !in es && c in es2 && d in es2 && es[d].kind == Dir && !es[d].removed
    requires forall x :: x in es ==> SameChild(es, es2, x)
    requires es2[d] == Push(es[d], Bucket(name), c)
    requires es2[c].name == name && es2[c].tree == es[d].tree && !es2[c].removed && es2[c].parent == Some(d)
             && NameOk(name)
    requires Find(es, d, name) == None
    ensures ChainsOk(es2, d)
  {
    var k := Bucket(name);
    forall b | 0 <= b < 64 ensures ChainOk(es2, d, b, es2[d].buckets[b]) {
      var chain := es[d].buckets[b];
      ChainKept(es, es2, d, b, chain);
      if b == k {
        FindInFinds(es, chain, name);
        assert forall i :: 0 <= i < |chain| ==> SameChild(es, es2, chain[i]);
        PushedChain(es2, d, b, chain, c);
      }
    }
  }

  /** One entry after c has been added below d. */
  lemma AddedEntry(es: map<nat, Entry>, es2: map<nat, Entry>, d: nat, c: nat, name: Name, e: nat)
    requires EntriesOk(es) && d in es && c !in es && es[d].kind == Dir && !es[d].removed && NameOk(name)
    requires c in es2 && |es[d].buckets| == 64 && es2 == es[c := es2[c]][d := Push(es[d], Bucket(name), c)]
    requires es2[c].name == name && es2[c].tree == es[d].tree && !es2[c].removed && es2[c].parent == Some(d)
             && es2[c].buckets == NoChildren()
    requires ChainsOk(es, d) && Find(es, d, name) == None
    ensures EntryOk(es2, e)
  {
    assert EntryOk(es, e);
    assert forall x :: x in es ==> SameChild(es, es2, x);
    if e == c {
      assert c in es2[d].buckets[Bucket(name)];
    } else if e in es {
      if e == d {
        PushedChains(es, es2, d, c, name);
      } else {
        ChainsKept(es, es2, e);
      }
      if es[e].parent.Some? && !es[e].removed {
        assert EntryOk(es, es[e].parent.value);
        LinkKept(es, es2, e);
      }
    }
  }

  /** No new mount: no new cycle. */
  lemma MountsOnlyGo(st: State, st2: State)
    requires AllOk(st) && Acyclic(MountGraph(st))
    requires forall e, a, b :: MountedAt(st2, e, a, b) ==> MountedAt(st, e, a, b)
    ensures Acyclic(MountGraph(st2))
  {
    forall a, b | Edge(MountGraph(st2), a, b) ensures Edge(MountGraph(st), a, b) {
      EdgeMeans(st2, a, b);
      var e :| MountedAt(st2, e, a, b);
      assert OwnOk(st, e);
      EdgeMeans(st, a, b);
    }
    FewerKeepsAcyclic(MountGraph(st), MountGraph(st2));
  }

  lemma AddChildKeepsEntries(st: State, t: nat, d: nat, name: Name, kind: Kind, data: Option<Name>, writable: bool)
    requires Inv(st) && CanAdd(st, t, d, name)
    ensures EntriesOk(AddChild(st, t, d, name, kind, data, writable).entries)
  {
    var st2 := AddChild(st, t, d, name, kind, data, writable);
    assert OwnOk(st, st.nextId) && EntryOk(st.entries, d);
    forall e ensures EntryOk(st2.entries, e) {
      AddedEntry(st.entries, st2.entries, d, st.nextId, name, e);
    }
  }

  lemma AddChildKeepsInv(st: State, t: nat, d: nat, name: Name, kind: Kind, data: Option<Name>, writable: bool)
    requires Inv(st) && CanAdd(st, t, d, name)
    ensures Inv(AddChild(st, t, d, name, kind, data, writable))
  {
    var st2 := AddChild(st, t, d, name, kind, data, writable);
    assert OwnOk(st, st.nextId);
    AddChildKeepsEntries(st, t, d, name, kind, data, writable);
    MountsOnlyGo(st, st2);
    forall u ensures TreeOk(st2, u) { AddChildTree(st, t, d, name, kind, data, writable, u); }
    forall e ensures OwnOk(st2, e) && MountOk(st2, e) { assert OwnOk(st, e) && MountOk(st, e); }
  }

  lemma AddChildTree(st: State, t: nat, d: nat, name: Name, kind: Kind, data: Option<Name>, writable: bool, u: nat)
    requires Inv(st) && CanAdd(st, t, d, name)
    ensures TreeOk(AddChild(st, t, d, name, kind, data, writable), u)
  {
    assert TreeOk(st, u) && OwnOk(st, st.nextId);
  }

  // ---------- A new tree ----------

  /** o9_filetree_new, at an address no tree has. */
  function NewTree(st: State, at: nat, owner: nat): State {
    st.(trees := st.trees[at := Tree(owner, true, st.nextId, [st.nextId])],
        listed := [at] + st.listed,
        entries := st.entries[st.nextId := Entry([46], Dir, false, false, None, at, [], None, NoChildren())],
        nextId := st.nextId + 1)
  }

  lemma NewTreeKeepsEntries(es: map<nat, Entry>, es2: map<nat, Entry>, c: nat)
    requires EntriesOk(es) && c !in es && c in es2 && es2 == es[c := es2[c]]
    requires es2[c].parent == None && es2[c].buckets == NoChildren()
    ensures EntriesOk(es2)
  {
    forall e ensures EntryOk(es2, e) {
      assert EntryOk(es, e);
      assert forall x :: x in es ==> SameChild(es, es2, x);
      if e in es {
        ChainsKept(es, es2, e);
        LinkKept(es, es2, e);
      }
    }
  }

  lemma NewTreeKeepsInv(st: State, at: nat, owner: nat)
    requires Inv(st) && at !in st.trees
    ensures Inv(NewTree(st, at, owner))
  {
    var st2 := NewTree(st, at, owner);
    assert OwnOk(st, st.nextId);
    NewTreeKeepsEntries(st.entries, st2.entries, st.nextId);
    MountsOnlyGo(st, st2);
    forall u ensures TreeOk(st2, u) { assert TreeOk(st, u); }
    forall e ensures OwnOk(st2, e) && MountOk(st2, e) { assert OwnOk(st, e) && MountOk(st, e); }
  }

  // ---------- Changes that leave the directories alone ----------

  /** Only contents, mount lists, and which trees are alive or registered may differ. */
  ghost predicate SameLayout(st: State, st2: State) {
    && st2.listed == st.listed && st2.nextId == st.nextId && st2.trees.Keys == st.trees.Keys
      && st2.entries.Keys == st.entries.Keys
    && (forall t :: t in st.trees ==> st2.trees[t].root == st.trees[t].root && st2.trees[t].all == st.trees[t].all)
    && (forall e :: e in st.entries ==>
          var to := st2.entries[e];
          to == st.entries[e].(data := to.data, writable := to.writable, mounts := to.mounts))
  }

  lemma LayoutKept(st: State, st2: State)
    requires TreesOk(st) && AllOk(st) && EntriesOk(st.entries) && SameLayout(st, st2)
    ensures TreesOk(st2) && AllOk(st2) && EntriesOk(st2.entries)
  {
    forall u ensures TreeOk(st2, u) { assert TreeOk(st, u); }
    forall e ensures OwnOk(st2, e) { assert OwnOk(st, e); }
    var es, es2 := st.entries, st2.entries;
    forall e ensures EntryOk(es2, e) {
      assert EntryOk(es, e);
      assert forall x :: x in es ==> SameChild(es, es2, x);
      if e in es {
        ChainsKept(es, es2, e);
        LinkKept(es, es2, e);
      }
    }
  }

  function SetText(st: State, e: nat, data: Option<Name>, writable: bool): State
    requires e in st.entries
  {
    st.(entries := st.entries[e := st.entries[e].(data := data, writable := writable)])
  }

  lemma SetTextKeepsInv(st: State, e: nat, data: Option<Name>, writable: bool)
    requires Inv(st) && e in st.entries
    ensures Inv(SetText(st, e, data, writable))
  {
    var st2 := SetText(st, e, data, writable);
    LayoutKept(st, st2);
    MountsOnlyGo(st, st2);
    forall x ensures MountOk(st2, x) { assert MountOk(st, x); }
  }

  // ---------- Removing an entry ----------

  /** The list without the first occurrence of e. */
  function Without(chain: seq<nat>, e: nat): seq<nat> {
    if chain == [] then [] else if chain[0] == e then chain[1..] else [chain[0]] + Without(chain[1..], e)
  }

  lemma {:induction false} WithoutMeans(chain: seq<nat>, e: nat)
    requires Distinct(chain)
    ensures Distinct(Without(chain, e)) && forall x :: x in Without(chain, e) <==> x in chain && x != e
  {
    if chain != [] {
      assert chain == [chain[0]] + chain[1..];
      WithoutMeans(chain[1..], e);
      var rest := Without(chain[1..], e);
      forall i | 0 <= i < |rest| ensures rest[i] in chain[1..] && rest[i] != chain[0] {
        assert rest[i] in rest;
      }
    }
  }

  lemma ChainDistinct(es: map<nat, Entry>, d: nat, b: nat, chain: seq<nat>)
    requires d in es && ChainOk(es, d, b, chain)
    ensures Distinct(chain)
  {
  }

  lemma {:induction false} WithoutChain(es: map<nat, Entry>, d: nat, b: nat, chain: seq<nat>, e: nat)
    requires d in es && ChainOk(es, d, b, chain)
    ensures ChainOk(es, d, b, Without(chain, e))
  {
    ChainDistinct(es, d, b, chain);
    WithoutMeans(chain, e);
    if chain != [] && chain[0] != e {
      assert ChainOk(es, d, b, chain[1..]);
      WithoutChain(es, d, b, chain[1..], e);
      ChainDistinct(es, d, b, chain[1..]);
      WithoutMeans(chain[1..], e);
      var rest := Without(chain[1..], e);
      forall i | 0 <= i < |rest| ensures es[rest[i]].name != es[chain[0]].name {
        assert rest[i] in chain[1..];
      }
      PushedChain(es, d, b, rest, chain[0]);
    }
  }

  /** Entry e is unlinked from directory d and marked; its mounts stay in memory. */
  function Unlink(st: State, d: nat, e: nat): State
    requires d in st.entries && e in st.entries && |st.entries[d].buckets| == 64
  {
    var b := Bucket(st.entries[e].name);
    var dir := st.entries[d].(buckets := st.entries[d].buckets[b := Without(st.entries[d].buckets[b], e)]);
    st.(entries := st.entries[d := dir][e := st.entries[e].(removed := true)])
  }

  /** e is a child of d without children of its own. */
  ghost predicate Leaf(es: map<nat, Entry>, d: nat, e: nat) {
    && d in es && e in es && d != e && |es[d].buckets| == 64 && e in es[d].buckets[Bucket(es[e].name)]
    && es[e].buckets == NoChildren()
  }

  /** es2 is es after e has been unlinked from d. */
  ghost predicate Unlinked(es: map<nat, Entry>, es2: map<nat, Entry>, d: nat, e: nat)
    requires Leaf(es, d, e)
  {
    var b := Bucket(es[e].name);
    es2 == es[d := es[d].(buckets := es[d].buckets[b := Without(es[d].buckets[b], e)])][e := es[e].(removed := true)]
  }

  lemma UnlinkedDir(es: map<nat, Entry>, es2: map<nat, Entry>, d: nat, e: nat)
    requires Leaf(es, d, e) && ChainsOk(es, d) && Unlinked(es, es2, d, e)
    ensures ChainsOk(es2, d)
  {
    var k := Bucket(es[e].name);
    ChainDistinct(es, d, k, es[d].buckets[k]);
    WithoutMeans(es[d].buckets[k], e);
    forall b | 0 <= b < 64 ensures ChainOk(es2, d, b, es2[d].buckets[b]) {
      if e in es[d].buckets[b] { assert ChildOk(es, d, b, e); }
      WithoutChain(es, d, b, es[d].buckets[b], e);
      ChainKept(es, es2, d, b, es2[d].buckets[b]);
    }
  }

  lemma KeptInChain(es: map<nat, Entry>, d: nat, b: nat, e: nat, x: nat)
    requires d in es && ChainsOk(es, d) && b < 64 && x in es[d].buckets[b] && x != e
    ensures x in Without(es[d].buckets[b], e)
  {
    ChainDistinct(es, d, b, es[d].buckets[b]);
    WithoutMeans(es[d].buckets[b], e);
  }

  lemma UnlinkedLink(es: map<nat, Entry>, es2: map<nat, Entry>, d: nat, e: nat, x: nat)
    requires Leaf(es, d, e) && ChainsOk(es, d) && Unlinked(es, es2, d, e)
    requires x in es && x != e && LinkedOk(es, x)
    ensures LinkedOk(es2, x)
  {
    var k := Bucket(es[e].name);
    if x in es[d].buckets[k] { KeptInChain(es, d, k, e, x); }
  }

  lemma UnlinkEntry(es: map<nat, Entry>, es2: map<nat, Entry>, d: nat, e: nat, x: nat)
    requires EntriesOk(es) && Leaf(es, d, e) && Unlinked(es, es2, d, e)
    ensures EntryOk(es2, x)
  {
    assert EntryOk(es, d) && EntryOk(es, x);
    if x in es && x != e {
      if x == d {
        UnlinkedDir(es, es2, d, e);
      } else {
        assert ChildOk(es, d, Bucket(es[e].name), e);
        ChainsKept(es, es2, x);
      }
      UnlinkedLink(es, es2, d, e, x);
    }
  }

  lemma UnlinkKeepsOwn(st: State, d: nat, e: nat)
    requires AllOk(st) && MountsOk(st) && Leaf(st.entries, d, e)
    ensures AllOk(Unlink(st, d, e)) && MountsOk(Unlink(st, d, e))
  {
    forall x ensures OwnOk(Unlink(st, d, e), x) { assert OwnOk(st, x); }
    forall x ensures MountOk(Unlink(st, d, e), x) { assert MountOk(st, x); }
  }

  lemma UnlinkKeepsTrees(st: State, d: nat, e: nat)
    requires TreesOk(st) && Leaf(st.entries, d, e) && st.entries[e].parent != None
    ensures TreesOk(Unlink(st, d, e))
  {
    forall u ensures TreeOk(Unlink(st, d, e), u) { assert TreeOk(st, u); }
  }

  lemma UnlinkKeepsInv(st: State, d: nat, e: nat)
    requires Inv(st) && Leaf(st.entries, d, e)
    ensures Inv(Unlink(st, d, e))
  {
    forall x ensures EntryOk(Unlink(st, d, e).entries, x) {
      UnlinkEntry(st.entries, Unlink(st, d, e).entries, d, e, x);
    }
    MountsOnlyGo(st, Unlink(st, d, e));
    assert EntryOk(st.entries, d);
    assert ChildOk(st.entries, d, Bucket(st.entries[e].name), e);
    UnlinkKeepsOwn(st, d, e);
    UnlinkKeepsTrees(st, d, e);
  }

  // ---------- Registering, revoking, destroying ----------

  function Register(st: State, id: Name, t: nat): State {
    st.(sources := [Source(id, t)] + st.sources)
  }

  lemma RegisterKeepsInv(st: State, id: Name, t: nat)
    requires Inv(st) && t in st.trees && st.trees[t].alive && forall i :: 0 <= i < |st.sources| ==>
             st.sources[i].id != id
    ensures Inv(Register(st, id, t))
  {
    var st2 := Register(st, id, t);
    LayoutKept(st, st2);
    MountsOnlyGo(st, st2);
    forall x ensures MountOk(st2, x) { assert MountOk(st, x); }
  }

  /** The registrations of other trees. */
  function Others(ss: seq<Source>, t: nat): seq<Source> {
    if ss == [] then [] else (if ss[0].tree == t then [] else [ss[0]]) + Others(ss[1..], t)
  }

  lemma {:induction false} OthersMeans(ss: seq<Source>, t: nat)
    ensures forall s :: s in Others(ss, t) <==> s in ss && s.tree != t
  {
    if ss != [] {
      OthersMeans(ss[1..], t);
      assert ss == [ss[0]] + ss[1..];
    }
  }

  lemma {:induction false} OthersDistinct(ss: seq<Source>, t: nat)
    requires forall i, j :: 0 <= i < j < |ss| ==> ss[i].id != ss[j].id
    ensures forall i, j :: 0 <= i < j < |Others(ss, t)| ==> Others(ss, t)[i].id != Others(ss, t)[j].id
  {
    if ss != [] {
      var rest := Others(ss[1..], t);
      OthersDistinct(ss[1..], t);
      OthersMeans(ss[1..], t);
      forall i | 0 <= i < |rest| ensures rest[i].id != ss[0].id {
        assert rest[i] in ss[1..];
      }
    }
  }

  /** o9_filetree_revoke */
  function Revoke(st: State, t: nat): State
    requires t in st.trees
  {
    st.(trees := st.trees[t := st.trees[t].(alive := false)], sources := Others(st.sources, t))
  }

  lemma RevokeKeepsInv(st: State, t: nat)
    requires Inv(st) && t in st.trees
    ensures Inv(Revoke(st, t))
  {
    var st2 := Revoke(st, t);
    LayoutKept(st, st2);
    MountsOnlyGo(st, st2);
    forall x ensures MountOk(st2, x) { assert MountOk(st, x); }
    OthersMeans(st.sources, t);
    OthersDistinct(st.sources, t);
    forall i | 0 <= i < |st2.sources| ensures st2.sources[i].tree in st2.trees && st2.trees[st2.sources[i].tree].alive {
      assert st2.sources[i] in st.sources;
    }
  }

  /** Tree t and its entries are gone. */
  function Destroy(st: State, t: nat): State {
    st.(trees := st.trees - {t}, listed := Without(st.listed, t),
        entries := map e | e in st.entries && st.entries[e].tree != t :: st.entries[e])
  }

  /** Tree t is closed, unregistered, and mounted by no entry of another tree, removed or not. */
  ghost predicate Unused(st: State, t: nat) {
    && t in st.trees && !st.trees[t].alive
    && (forall i :: 0 <= i < |st.sources| ==> st.sources[i].tree != t)
    && forall e, m :: e in st.entries && st.entries[e].tree != t && m in st.entries[e].mounts ==> m.source != t
  }

  lemma DestroyKeepsEntries(es: map<nat, Entry>, es2: map<nat, Entry>, t: nat)
    requires EntriesOk(es) && es2 == map e | e in es && es[e].tree != t :: es[e]
    ensures EntriesOk(es2)
  {
    forall e ensures EntryOk(es2, e) {
      assert EntryOk(es, e);
      if e in es2 {
        forall b | 0 <= b < 64 ensures ChainOk(es2, e, b, es2[e].buckets[b]) {
          var chain := es[e].buckets[b];
          forall c | c in chain ensures SameChild(es, es2, c) {
            assert ChildOk(es, e, b, c);
          }
          ChainKept(es, es2, e, b, chain);
        }
        if es[e].parent.Some? && !es[e].removed {
          var d := es[e].parent.value;
          assert EntryOk(es, d);
          assert ChildOk(es, d, Bucket(es[e].name), e);
        }
      }
    }
  }

  lemma DestroyKeepsTrees(st: State, t: nat)
    requires TreesOk(st)
    ensures TreesOk(Destroy(st, t))
  {
    var st2 := Destroy(st, t);
    WithoutMeans(st.listed, t);
    assert forall i :: 0 <= i < |st2.listed| ==> st2.listed[i] in st2.listed;
    forall u ensures TreeOk(st2, u) { assert TreeOk(st, u); }
  }

  lemma DestroyKeepsOwn(st: State, t: nat)
    requires AllOk(st) && MountsOk(st) && Unused(st, t)
    ensures AllOk(Destroy(st, t)) && MountsOk(Destroy(st, t))
  {
    forall x ensures OwnOk(Destroy(st, t), x) { assert OwnOk(st, x); }
    forall x ensures MountOk(Destroy(st, t), x) { assert MountOk(st, x); }
  }

  lemma DestroyKeepsInv(st: State, t: nat)
    requires Inv(st) && Unused(st, t)
    ensures Inv(Destroy(st, t))
  {
    DestroyKeepsEntries(st.entries, Destroy(st, t).entries, t);
    MountsOnlyGo(st, Destroy(st, t));
    DestroyKeepsTrees(st, t);
    DestroyKeepsOwn(st, t);
  }

  // ---------- Committing planned mount lists ----------

  type Plans = map<nat, seq<Mount>>

  /** The planned lists replace those of their targets. */
  function Commit(st: State, plans: Plans): State {
    st.(entries := map e | e in st.entries :: if e in plans then st.entries[e].(mounts := plans[e]) else st.entries[e])
  }

  /** The plans are for live directories of t, and well formed. */
  ghost predicate PlansOk(st: State, t: nat, plans: Plans) {
    forall e :: e in plans ==>
      && e in st.entries && st.entries[e].tree == t && st.entries[e].kind == Dir && !st.entries[e].removed
      && Shape(plans[e]) && forall m :: m in plans[e] ==> m.source in st.trees
  }

  lemma GraphClosed(st: State)
    requires MountsOk(st)
    ensures Closed(MountGraph(st))
  {
    forall a, b | Edge(MountGraph(st), a, b) ensures b in MountGraph(st) {
      EdgeMeans(st, a, b);
      var e :| MountedAt(st, e, a, b);
      assert MountOk(st, e);
    }
  }

  lemma CommitKeepsMounts(st: State, t: nat, plans: Plans)
    requires MountsOk(st) && PlansOk(st, t, plans)
    ensures MountsOk(Commit(st, plans)) && Closed(MountGraph(Commit(st, plans)))
  {
    forall x ensures MountOk(Commit(st, plans), x) { assert MountOk(st, x); }
    GraphClosed(Commit(st, plans));
  }

  /** Only edges out of t change, and each new one is planned. */
  lemma CommitEdges(st: State, t: nat, plans: Plans)
    requires PlansOk(st, t, plans)
    ensures SameBut(MountGraph(st), MountGraph(Commit(st, plans)), t)
    ensures forall s :: Edge(MountGraph(Commit(st, plans)), t, s) ==>
              Edge(MountGraph(st), t, s) || exists e :: e in plans && s in SourcesOf(plans[e])
  {
    var st2 := Commit(st, plans);
    forall a, b | a != t ensures Edge(MountGraph(st), a, b) <==> Edge(MountGraph(st2), a, b) {
      EdgeMeans(st, a, b);
      EdgeMeans(st2, a, b);
      assert forall e :: MountedAt(st, e, a, b) <==> MountedAt(st2, e, a, b);
    }
    forall s | Edge(MountGraph(st2), t, s)
      ensures Edge(MountGraph(st), t, s) || exists e :: e in plans && s in SourcesOf(plans[e])
    {
      EdgeMeans(st2, t, s);
      EdgeMeans(st, t, s);
      var e :| MountedAt(st2, e, t, s);
      assert e in plans ==> s in SourcesOf(plans[e]);
      assert e !in plans ==> MountedAt(st, e, t, s);
    }
  }

  /** The check made for every planned mount: its source does not seem to reach t, plans included. */
  ghost predicate NoLoop(st: State, t: nat, plans: Plans)
    requires Closed(MountGraph(Commit(st, plans)))
  {
    forall e, m :: e in plans && m in plans[e] && m.source in st.trees ==>
        !Reaches(MountGraph(Commit(st, plans)), m.source, t, [])
  }

  lemma CommitAcyclic(st: State, t: nat, plans: Plans)
    requires Acyclic(MountGraph(st)) && MountsOk(st) && PlansOk(st, t, plans)
    requires Closed(MountGraph(Commit(st, plans))) && NoLoop(st, t, plans)
    ensures Acyclic(MountGraph(Commit(st, plans)))
  {
    var g, h := MountGraph(st), MountGraph(Commit(st, plans));
    CommitEdges(st, t, plans);
    forall s | Edge(h, t, s) ensures Edge(g, t, s) || !Reach(h, s, t) {
      if !Edge(g, t, s) {
        var e :| e in plans && s in SourcesOf(plans[e]);
        var m :| m in plans[e] && m.source == s;
        SearchComplete(h, s, t);
      }
    }
    ReplaceKeepsAcyclic(g, h, t);
  }

  lemma CommitKeepsInv(st: State, t: nat, plans: Plans)
    requires Inv(st) && PlansOk(st, t, plans)
    requires Closed(MountGraph(Commit(st, plans))) && NoLoop(st, t, plans)
    ensures Inv(Commit(st, plans))
  {
    LayoutKept(st, Commit(st, plans));
    CommitKeepsMounts(st, t, plans);
    CommitAcyclic(st, t, plans);
  }

  /** A planned mount whose source reaches t would close a cycle. */
  lemma LoopIsCycle(st: State, t: nat, plans: Plans, e: nat, m: Mount)
    requires t in st.trees && PlansOk(st, t, plans) && e in plans && m in plans[e]
    requires Reach(MountGraph(Commit(st, plans)), m.source, t)
    ensures !Acyclic(MountGraph(Commit(st, plans)))
  {
    var h := MountGraph(Commit(st, plans));
    var p :| Joins(h, p, m.source, t);
    assert MountedAt(Commit(st, plans), e, t, m.source);
    EdgeMeans(Commit(st, plans), t, m.source);
    assert Walk(h, [t, m.source]);
    Concat(h, [t, m.source], p);
  }

  /** With at most 256 trees the check refuses only plans that would close a cycle. */
  lemma CheckExact(st: State, t: nat, plans: Plans)
    requires Inv(st) && t in st.trees && PlansOk(st, t, plans) && |st.trees.Keys| <= PATH_LIMIT
    requires Closed(MountGraph(Commit(st, plans)))
    ensures NoLoop(st, t, plans) <==> Acyclic(MountGraph(Commit(st, plans)))
  {
    var h := MountGraph(Commit(st, plans));
    assert h.Keys == st.trees.Keys;
    if NoLoop(st, t, plans) {
      CommitAcyclic(st, t, plans);
    } else {
      var e, m :| e in plans && m in plans[e] && m.source in st.trees && Reaches(h, m.source, t, []);
      SearchSound(h, m.source, t, []);
      LoopIsCycle(st, t, plans, e, m);
    }
  }

  // ---------- Runs ----------

  /** A change of the shared state, with what its operation checks first. */
  datatype Change =
    | Grow(at: nat, owner: nat)
    | Add(t: nat, d: nat, name: Name, kind: Kind, data: Option<Name>, writable: bool)
    | Write(e: nat, data: Option<Name>, writable: bool)
    | Drop(d: nat, e: nat)
    | Publish(id: Name, t: nat)
    | Close(t: nat)
    | Free(t: nat)
    | Mounting(t: nat, plans: Plans)

  ghost predicate Allowed(st: State, c: Change) {
    match c
    case Grow(at, _) => at !in st.trees
    case Add(t, d, name, _, _, _) => CanAdd(st, t, d, name)
    case Write(e, _, _) => e in st.entries
    case Drop(d, e) => Leaf(st.entries, d, e)
    case Publish(id, t) => t in st.trees && st.trees[t].alive && forall i :: 0 <= i < |st.sources| ==>
      st.sources[i].id != id
    case Close(t) => t in st.trees
    case Free(t) => Unused(st, t)
    case Mounting(t, plans) => PlansOk(st, t, plans) && Closed(MountGraph(Commit(st, plans))) && NoLoop(st, t, plans)
  }

  ghost function After(st: State, c: Change): State
    requires Allowed(st, c)
  {
    match c
    case Grow(at, owner) => NewTree(st, at, owner)
    case Add(t, d, name, kind, data, writable) => AddChild(st, t, d, name, kind, data, writable)
    case Write(e, data, writable) => SetText(st, e, data, writable)
    case Drop(d, e) => Unlink(st, d, e)
    case Publish(id, t) => Register(st, id, t)
    case Close(t) => Revoke(st, t)
    case Free(t) => Destroy(st, t)
    case Mounting(_, plans) => Commit(st, plans)
  }

  lemma ChangeKeepsInv(st: State, c: Change)
    requires Inv(st) && Allowed(st, c)
    ensures Inv(After(st, c))
  {
    match c
    case Grow(at, owner) => NewTreeKeepsInv(st, at, owner);
    case Add(t, d, name, kind, data, writable) => AddChildKeepsInv(st, t, d, name, kind, data, writable);
    case Write(e, data, writable) => SetTextKeepsInv(st, e, data, writable);
    case Drop(d, e) => UnlinkKeepsInv(st, d, e);
    case Publish(id, t) => RegisterKeepsInv(st, id, t);
    case Close(t) => RevokeKeepsInv(st, t);
    case Free(t) => DestroyKeepsInv(st, t);
    case Mounting(t, plans) => CommitKeepsInv(st, t, plans);
  }

  lemma EmptyInv(st: State)
    requires st == State(map[], [], map[], [], 1)
    ensures Inv(st)
  {
    forall p: seq<nat> | |p| >= 2 ensures !Walk(MountGraph(st), p) {
      assert !Edge(MountGraph(st), p[0], p[0 + 1]);
    }
  }

  /** The states a run goes through, from the empty state. */
  ghost predicate IsRun(run: seq<State>) {
    && |run| >= 1 && run[0] == State(map[], [], map[], [], 1)
    && forall i :: 0 <= i < |run| - 1 ==> exists c :: Allowed(run[i], c) && run[i + 1] == After(run[i], c)
  }

  /** In every state of every run no tree mounts itself through others, every mount source and every registered
      tree exists, registered ids are unique and live, and every mount list has its shape. */
  lemma {:induction false} RunsKeepInv(run: seq<State>, i: nat)
    requires IsRun(run) && i < |run|
    ensures Inv(run[i])
  {
    if i == 0 {
      EmptyInv(run[0]);
    } else {
      RunsKeepInv(run, i - 1);
      assert run[i - 1 + 1] == run[i];
      var c :| Allowed(run[i - 1], c) && run[i] == After(run[i - 1], c);
      ChangeKeepsInv(run[i - 1], c);
    }
  }
}

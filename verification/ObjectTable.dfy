/** The table of live objects: open addressing with tombstones over 256 entries, and generation-stamped handles. */
module ObjectTable {
  import opened Graphs
  import opened Words

  type Name = seq<nat>

  datatype Key = Key(class_: Name, oid: Name)

  datatype Obj = Obj(gen: nat, active: bool, key: Key, inst: nat, chan: nat)

  const EMPTY: int := -1
  const TOMBSTONE: int := -2

  // ---------- Probing ----------

  /** The slot a probe from h looks at in its given step. */
  function At(h: nat, step: nat): (s: nat)
    ensures s < 256
  {
    (h + step) % 256
  }

  /** The step in which a probe from h meets slot s. */
  function StepTo(h: nat, s: nat): (d: nat)
    requires h < 256 && s < 256
    ensures d < 256 && At(h, d) == s
  {
    if s >= h then s - h else s + 256 - h
  }

  lemma StepUnique(h: nat, d: nat)
    requires h < 256 && d < 256
    ensures StepTo(h, At(h, d)) == d
  {
  }

  ghost predicate Sizes(es: seq<Obj>, tab: seq<int>) {
    |es| == 256 && |tab| == 256 && forall s :: 0 <= s < 256 ==> -2 <= tab[s] < 256
  }

  /** A slot that holds an index holds that of an active entry. */
  ghost predicate SlotOk(es: seq<Obj>, tab: seq<int>, s: nat)
    requires Sizes(es, tab) && s < 256
  {
    tab[s] >= 0 ==> es[tab[s]].active
  }

  /** An entry has its slot, and no empty slot comes before it on the way from its home. */
  ghost predicate Placed(es: seq<Obj>, tab: seq<int>, home: Key -> nat, i: nat, s: nat)
    requires Sizes(es, tab)
  {
    var h := home(es[i % 256].key);
    s < 256 && tab[s] == i && h < 256 && forall d: nat :: d < StepTo(h, s) ==> tab[At(h, d)] != EMPTY
  }

  ghost predicate EntryOk(es: seq<Obj>, tab: seq<int>, home: Key -> nat, i: nat)
    requires Sizes(es, tab) && i < 256
  {
    es[i].active ==> exists s: nat {:trigger Placed(es, tab, home, i, s)} :: Placed(es, tab, home, i, s)
  }

  /** The slots in use hold the indices of active entries, each once. */
  ghost predicate ShapeOk(es: seq<Obj>, tab: seq<int>) {
    && Sizes(es, tab)
    && (forall s: nat {:trigger SlotOk(es, tab, s)} :: s < 256 ==> SlotOk(es, tab, s))
    && (forall s, t :: 0 <= s < t < 256 && tab[s] >= 0 ==> tab[s] != tab[t])
  }

  /** Beyond that, every active entry can be found by its key, and no key has two. */
  ghost predicate TableOk(es: seq<Obj>, tab: seq<int>, home: Key -> nat) {
    && ShapeOk(es, tab)
    && (forall i: nat {:trigger EntryOk(es, tab, home, i)} :: i < 256 ==> EntryOk(es, tab, home, i))
    && (forall i, j :: 0 <= i < j < 256 && es[i].active && es[j].active ==> es[i].key != es[j].key)
  }

  /** The active entry registered under a key. */
  ghost predicate Bound(es: seq<Obj>, k: Key, i: nat) {
    i < |es| && es[i].active && es[i].key == k
  }

  /** The step at which an entry under k would be met comes before any empty slot. */
  lemma MetBeforeEmpty(es: seq<Obj>, tab: seq<int>, home: Key -> nat, k: Key, i: nat) returns (d: nat)
    requires TableOk(es, tab, home) && home(k) < 256 && Bound(es, k, i)
    ensures d < 256 && tab[At(home(k), d)] == i && forall e: nat :: e <= d ==> tab[At(home(k), e)] != EMPTY
  {
    assert EntryOk(es, tab, home, i);
    var s: nat :| Placed(es, tab, home, i, s);
    d := StepTo(home(k), s);
  }

  /** A probe that meets no match up to an empty slot, or all the way round, has met every candidate. */
  lemma NotThere(es: seq<Obj>, tab: seq<int>, home: Key -> nat, k: Key, steps: nat, i: nat)
    requires TableOk(es, tab, home) && home(k) < 256 && steps <= 256
    requires steps == 256 || tab[At(home(k), steps)] == EMPTY
    requires forall d: nat :: d < steps ==> tab[At(home(k), d)] < 0 || es[tab[At(home(k), d)]].key != k
    ensures !Bound(es, k, i)
  {
    if Bound(es, k, i) {
      var d := MetBeforeEmpty(es, tab, home, k, i);
    }
  }

  // ---------- Changes ----------

  /** Entry i becomes active at free slot f. */
  lemma InsertShape(es: seq<Obj>, tab: seq<int>, i: nat, o: Obj, f: nat)
    requires ShapeOk(es, tab) && i < 256 && !es[i].active && o.active && f < 256 && tab[f] < 0
    ensures ShapeOk(es[i := o], tab[f := i])
  {
    var es2, tab2 := es[i := o], tab[f := i];
    forall s: nat | s < 256 ensures SlotOk(es2, tab2, s) { assert SlotOk(es, tab, s); }
    forall s: nat | s < 256 && tab[s] >= 0 ensures tab[s] != i { assert SlotOk(es, tab, s); }
  }

  /** If its key was free and its slot is where a probe for the key ends, every key can be found again. */
  lemma InsertKeeps(es: seq<Obj>, tab: seq<int>, home: Key -> nat, i: nat, o: Obj, f: nat)
    requires TableOk(es, tab, home) && i < 256 && !es[i].active && o.active && home(o.key) < 256
    requires f < 256 && tab[f] < 0
    requires forall j: nat :: !Bound(es, o.key, j)
    requires forall d: nat :: d < StepTo(home(o.key), f) ==> tab[At(home(o.key), d)] != EMPTY
    ensures TableOk(es[i := o], tab[f := i], home)
  {
    var es2, tab2 := es[i := o], tab[f := i];
    InsertShape(es, tab, i, o, f);
    forall j: nat | j < 256 ensures EntryOk(es2, tab2, home, j) {
      assert EntryOk(es, tab, home, j);
      if j == i {
        assert Placed(es2, tab2, home, i, f);
      } else if es[j].active {
        var s: nat :| Placed(es, tab, home, j, s);
        assert Placed(es2, tab2, home, j, s);
      }
    }
    forall j | 0 <= j < 256 && es[j].active ensures es[j].key != o.key { assert !Bound(es, o.key, j); }
  }

  /** Entry i, at slot f, becomes inactive; the slot becomes a tombstone. */
  lemma RemoveKeeps(es: seq<Obj>, tab: seq<int>, home: Key -> nat, i: nat, o: Obj, f: nat)
    requires ShapeOk(es, tab) && i < 256 && f < 256 && tab[f] == i && !o.active
    ensures ShapeOk(es[i := o], tab[f := TOMBSTONE])
    ensures TableOk(es, tab, home) ==> TableOk(es[i := o], tab[f := TOMBSTONE], home)
  {
    var es2, tab2 := es[i := o], tab[f := TOMBSTONE];
    forall s: nat | s < 256 ensures SlotOk(es2, tab2, s) { assert SlotOk(es, tab, s); }
    if TableOk(es, tab, home) {
      forall j: nat | j < 256 ensures EntryOk(es2, tab2, home, j) {
        assert EntryOk(es, tab, home, j);
        if j != i && es[j].active {
          var s: nat :| Placed(es, tab, home, j, s);
          assert Placed(es2, tab2, home, j, s);
        }
      }
    }
  }

  /** Entry i is updated in place. */
  lemma UpdateKeeps(es: seq<Obj>, tab: seq<int>, home: Key -> nat, i: nat, o: Obj)
    requires ShapeOk(es, tab) && i < 256 && es[i].active && o.active && o.key == es[i].key
    ensures ShapeOk(es[i := o], tab)
    ensures TableOk(es, tab, home) ==> TableOk(es[i := o], tab, home)
  {
    var es2 := es[i := o];
    forall s: nat | s < 256 ensures SlotOk(es2, tab, s) { assert SlotOk(es, tab, s); }
    if TableOk(es, tab, home) {
      forall j: nat | j < 256 ensures EntryOk(es2, tab, home, j) {
        assert EntryOk(es, tab, home, j);
        if es[j].active {
          var s: nat :| Placed(es, tab, home, j, s);
          assert Placed(es2, tab, home, j, s);
        }
      }
    }
  }

  /** If every slot holds an index, every entry is active. */
  lemma AllSlotsUsed(es: seq<Obj>, tab: seq<int>, i: nat)
    requires ShapeOk(es, tab) && i < 256 && forall s :: 0 <= s < 256 ==> tab[s] >= 0
    ensures es[i].active
  {
    var s := Onto(tab, |tab|, i);
    assert SlotOk(es, tab, s);
  }

  // ---------- Handles ----------

  /** (gen << 16) | i in 32 bits. */
  function HandleOf(gen: nat, i: nat): nat {
    (gen * 65536 + i) % 0x1_0000_0000
  }

  lemma HandleParts(gen: nat, i: nat)
    requires gen < 0x1_0000_0000 && i < 256
    ensures HandleOf(gen, i) % 65536 == i && HandleOf(gen, i) / 65536 == gen % 65536
  {
    var q, r := gen / 65536, gen % 65536;
    ModUnique(gen * 65536 + i, q, 0x1_0000_0000, r * 65536 + i);
    ModUnique(r * 65536 + i, r, 65536, i);
  }

  /** o9_objtab_resolve */
  function Resolve(es: seq<Obj>, handle: nat): int
    requires |es| == 256
  {
    var i, gen := handle % 65536, handle / 65536;
    if handle == 0 || i >= 256 then -1 else if es[i].active && es[i].gen == gen then i else -1
  }

  /** A registration that was made: its entry, the generation it was given, and whether it is still live. */
  datatype Reg = Reg(index: nat, gen: nat, live: bool)

  ghost predicate RegOk(es: seq<Obj>, r: Reg) {
    && r.index < |es| && 1 <= r.gen <= es[r.index].gen < 0x1_0000_0000
    && (r.live <==> es[r.index].active && es[r.index].gen == r.gen)
  }

  /** Generations fit 32 bits. Registering and unregistering an entry each move its generation on by one, so that it is
      odd exactly while the entry is active, also after it has wrapped around. */
  ghost predicate GensOk(es: seq<Obj>) {
    forall i :: 0 <= i < |es| ==> es[i].gen < 0x1_0000_0000 && (es[i].active <==> es[i].gen % 2 == 1)
  }

  /** A handle resolves, to the entry it was issued for, exactly while its registration is live, if and only if the
      generation fits 16 bits; a handle whose generation does not fit never resolves. */
  lemma HandleResolves(es: seq<Obj>, r: Reg)
    requires |es| == 256 && RegOk(es, r)
    ensures Resolve(es, HandleOf(r.gen, r.index)) == if r.live && r.gen < 65536 then r.index else -1
  {
    HandleParts(r.gen, r.index);
    var h := HandleOf(r.gen, r.index);
    assert h == h / 65536 * 65536 + h % 65536;
  }

  /** A new instance or channel replaces the old one where it is given. */
  function Touched(o: Obj, inst: nat, chan: nat): Obj {
    o.(inst := if inst != 0 then inst else o.inst, chan := if chan != 0 then chan else o.chan)
  }

  // ---------- Names ----------

  /** A name is stored with its first 63 bytes. */
  function Cut(n: Name): (c: Name)
    ensures c <= n && |c| == if |n| < 64 then |n| else 63
  {
    if |n| > 63 then n[..63] else n
  }

  function Stored(k: Key): Key {
    Key(Cut(k.class_), Cut(k.oid))
  }

  predicate Long(k: Key) {
    |k.class_| > 63 || |k.oid| > 63
  }

  ghost predicate NamesOk(es: seq<Obj>) {
    forall i :: 0 <= i < |es| ==> !Long(es[i].key)
  }

  // ---------- The table ----------

  class Table {
    const entries: array<Obj>
    const tab: array<int>
    const home: Key -> nat
    var inited: bool
    ghost var regs: seq<Reg>
    ghost var wrapped: bool   // has a 32-bit generation ever wrapped around?
    ghost var cut: bool       // has a name ever been cut?

    ghost predicate Valid()
      reads this, entries, tab
    {
      && entries.Length == 256 && tab.Length == 256 && (forall k :: home(k) < 256)
      && GensOk(entries[..]) && NamesOk(entries[..])
      && (inited ==> ShapeOk(entries[..], tab[..]))
      && (inited && !cut ==> TableOk(entries[..], tab[..], home))
      && (!inited ==> forall i :: 0 <= i < 256 ==> !entries[i].active)
      && (!wrapped ==> forall r :: 0 <= r < |regs| ==> RegOk(entries[..], regs[r]))
    }

    constructor (home: Key -> nat)
      requires forall k :: home(k) < 256
      ensures Valid() && fresh(entries) && fresh(tab) && regs == [] && !wrapped && !cut
      ensures forall i :: 0 <= i < 256 ==> !entries[i].active && entries[i].gen == 0
    {
      this.home := home;
      entries := new Obj[256](_ => Obj(0, false, Key([], []), 0, 0));
      tab := new int[256](_ => 0);
      inited, regs, wrapped, cut := false, [], false, false;
    }

    /** Empties the hash table before its first use. */
    method Init()
      requires Valid()
      modifies this`inited, tab
      ensures Valid() && inited && (old(inited) ==> tab[..] == old(tab[..]))
    {
      if inited { return; }
      for i := 0 to 256
        invariant forall j :: 0 <= j < i ==> tab[j] == EMPTY
        invariant !inited
      {
        tab[i] := EMPTY;
      }
      inited := true;
      assert forall s: nat :: s < 256 ==> SlotOk(entries[..], tab[..], s);
      assert forall i: nat :: i < 256 ==> EntryOk(entries[..], tab[..], home, i);
    }

    /** The probe for a key: its slot, or else the first slot that can take it. It is exact while no name was cut; a key
        with a long name is never found. */
    method Probe(k: Key) returns (hit: int, free: int)
      requires Valid() && inited
      ensures -1 <= hit < 256 && -1 <= free < 256
      ensures hit >= 0 ==> tab[hit] >= 0 && Bound(entries[..], k, tab[hit])
      ensures hit < 0 && !cut ==> forall i: nat :: !Bound(entries[..], k, i)
      ensures Long(k) ==> hit < 0
      ensures hit < 0 && free < 0 ==> forall s :: 0 <= s < 256 ==> tab[s] >= 0
      ensures hit < 0 && free >= 0 ==>
                tab[free] < 0 && forall d: nat :: d < StepTo(home(k), free) ==> tab[At(home(k), d)] != EMPTY
    {
      var h := home(k);
      ghost var es, t := entries[..], tab[..];
      hit, free := -1, -1;
      var step := 0;
      while step < 256
        invariant 0 <= step <= 256 && hit == -1 && -1 <= free < 256
        invariant forall d: nat :: d < step ==> t[At(h, d)] != EMPTY && (t[At(h, d)] < 0 || es[t[At(h, d)]].key != k)
        invariant free < 0 ==> forall d: nat :: d < step ==> t[At(h, d)] >= 0
        invariant free >= 0 ==> t[free] < 0 && StepTo(h, free) < step
      {
        var s := At(h, step);
        var i := tab[s];
        StepUnique(h, step);
        if i == EMPTY {
          if free < 0 { free := s; }
          break;
        }
        if i == TOMBSTONE {
          if free < 0 { free := s; }
        } else {
          assert SlotOk(es, t, s);
          if entries[i].active && entries[i].key == k { hit := s; return; }
        }
        step := step + 1;
      }
      if !cut {
        forall i: nat ensures !Bound(es, k, i) { NotThere(es, t, home, k, step, i); }
      }
      if free < 0 {
        forall s: nat | s < 256 ensures tab[s] >= 0 { assert At(h, StepTo(h, s)) == s; }
      }
    }

    /** The first inactive entry. */
    method FreeEntry() returns (i: int)
      requires entries.Length == 256
      ensures -1 <= i < 256
      ensures i >= 0 ==> !entries[i].active && forall j :: 0 <= j < i ==> entries[j].active
      ensures i < 0 ==> forall j :: 0 <= j < 256 ==> entries[j].active
    {
      for step := 0 to 256
        invariant forall j :: 0 <= j < step ==> entries[j].active
      {
        if !entries[step].active { return step; }
      }
      i := -1;
    }

    /** o9_objtab_register: a key that is found keeps its handle; otherwise the first inactive entry is taken, unless
        all are active. at is the entry that was found or taken. While no name is cut, a key is found exactly when it is
        registered. A key with a long name is never found: each time it takes one more entry, under the cut name. */
    method Register(k: Key, inst: nat, chan: nat) returns (handle: nat, ghost at: int)
      requires Valid()
      modifies this, entries, tab
      ensures Valid() && -1 <= at < 256 && wrapped == old(wrapped) && (cut <==> old(cut) || (at >= 0 && Long(k)))
      ensures at < 0 ==> handle == 0 && entries[..] == old(entries[..]) && regs == old(regs)
      ensures at < 0 ==> forall i :: 0 <= i < 256 ==> old(entries[i].active)
      ensures at >= 0 ==> handle == HandleOf(entries[at].gen, at) && Bound(entries[..], Stored(k), at)
      ensures at >= 0 ==> forall i :: 0 <= i < 256 && i != at ==> entries[i] == old(entries[i])
      ensures at >= 0 && old(entries[at].active) ==>
                && regs == old(regs) && |k.class_| < 64 && |k.oid| < 64
                && entries[at].inst == (if inst != 0 then inst else old(entries[at].inst))
                && entries[at].chan == (if chan != 0 then chan else old(entries[at].chan))
                && entries[at] == old(entries[at]).(inst := entries[at].inst, chan := entries[at].chan)
      ensures at >= 0 && !old(entries[at].active) ==>
                && entries[at] == Obj(old(entries[at].gen) + 1, true, Stored(k), inst, chan)
                && regs == old(regs) + [Reg(at, entries[at].gen, true)]
                && forall j :: 0 <= j < at ==> old(entries[j].active)
      ensures !old(cut) ==> (at >= 0 && old(entries[at].active) <==> exists i: nat :: Bound(old(entries[..]), k, i))
    {
      Init();
      var hit, free := Probe(k);
      if hit >= 0 {
        at := tab[hit];
        handle := Touch(tab[hit], inst, chan);
        return;
      }
      if free < 0 {
        forall i | 0 <= i < 256 ensures entries[i].active { AllSlotsUsed(entries[..], tab[..], i); }
        return 0, -1;
      }
      var i := FreeEntry();
      if i < 0 { return 0, -1; }
      at := i;
      handle := Fill(i, free, k, inst, chan);
    }

    /** A live entry gets a new instance or channel, where one is given. */
    method Touch(i: nat, inst: nat, chan: nat) returns (handle: nat)
      requires Valid() && inited && i < 256 && entries[i].active
      modifies entries
      ensures Valid() && handle == HandleOf(entries[i].gen, i)
      ensures entries[..] == old(entries[..])[i := Touched(old(entries[i]), inst, chan)]
    {
      var o := Touched(entries[i], inst, chan);
      UpdateKeeps(entries[..], tab[..], home, i, o);
      ghost var es := entries[..];
      entries[i] := o;
      assert entries[..] == es[i := o];
      handle := HandleOf(entries[i].gen, i);
    }

    /** Entry i is filled and linked from a free slot. Its generation is even before, so that it does not wrap here. */
    method Fill(i: nat, free: nat, k: Key, inst: nat, chan: nat) returns (handle: nat)
      requires Valid() && inited && i < 256 && !entries[i].active && free < 256 && tab[free] < 0
      requires !cut ==> forall j: nat :: !Bound(entries[..], k, j)
      requires forall d: nat :: d < StepTo(home(k), free) ==> tab[At(home(k), d)] != EMPTY
      modifies this`regs, this`cut, entries, tab
      ensures Valid() && handle == HandleOf(entries[i].gen, i) && cut == (old(cut) || Long(k))
      ensures entries[..] == old(entries[..])[i := Obj(old(entries[i].gen) + 1, true, Stored(k), inst, chan)]
      ensures regs == old(regs) + [Reg(i, entries[i].gen, true)]
    {
      ghost var es, t := entries[..], tab[..];
      var gen := (entries[i].gen + 1) % 0x1_0000_0000;
      if gen == 0 { gen := 1; }
      var o := Obj(gen, true, Stored(k), inst, chan);
      InsertShape(es, t, i, o, free);
      if !cut && !Long(k) { InsertKeeps(es, t, home, i, o, free); }
      cut := cut || Long(k);
      tab[free] := i;
      entries[i] := o;
      assert entries[..] == es[i := o] && tab[..] == t[free := i];
      regs := regs + [Reg(i, gen, true)];
      handle := HandleOf(gen, i);
    }

    /** o9_objtab_unregister: at most one entry is retired, and while no name was cut the key is gone afterwards. */
    method Unregister(k: Key)
      requires Valid()
      modifies this, entries, tab
      ensures Valid() && inited == old(inited) && cut == old(cut)
      ensures wrapped <==> old(wrapped) || exists i :: 0 <= i < 256 && old(entries[i].active) && entries[i].gen == 0
      ensures forall i :: 0 <= i < 256 ==>
                || entries[i] == old(entries[i])
                || (Bound(old(entries[..]), k, i)
                    && entries[i] == old(entries[i]).(active := false, gen := (old(entries[i].gen) + 1) % 0x1_0000_0000,
                                                      chan := 0, inst := 0))
      ensures !cut ==> forall i :: 0 <= i < 256 && Bound(old(entries[..]), k, i) ==> !entries[i].active
      ensures |k.class_| >= 64 || |k.oid| >= 64 ==> entries[..] == old(entries[..])
      ensures |regs| == |old(regs)| && forall r :: 0 <= r < |regs| ==> regs[r] == old(regs)[r].(live := regs[r].live)
      ensures !wrapped ==> forall r :: 0 <= r < |regs| ==>
                regs[r].live == (old(regs)[r].live && entries[regs[r].index].active)
    {
      if !inited { return; }
      var hit, free := Probe(k);
      if hit >= 0 {
        Kill(tab[hit], hit, k);
      }
    }

    /** Entry i, at slot f, is retired; its generation moves on. */
    method Kill(i: nat, f: nat, ghost k: Key)
      requires Valid() && inited && i < 256 && f < 256 && tab[f] == i && Bound(entries[..], k, i)
      modifies this`regs, this`wrapped, entries, tab
      ensures Valid() && wrapped == (old(wrapped) || entries[i].gen == 0)
      ensures entries[..] == old(entries[..])[i := Retired(old(entries[i]))]
      ensures |regs| == |old(regs)| && forall r :: 0 <= r < |regs| ==>
                regs[r] == old(regs)[r].(live := old(regs)[r].live && old(regs)[r].index != i)
    {
      ghost var es, t := entries[..], tab[..];
      var o := Retired(entries[i]);
      RemoveKeeps(es, t, home, i, o, f);
      wrapped := wrapped || o.gen == 0;
      entries[i] := o;
      tab[f] := TOMBSTONE;
      assert entries[..] == es[i := o] && tab[..] == t[f := TOMBSTONE];
      ghost var rs := regs;
      regs := seq(|rs|, r requires 0 <= r < |rs| => rs[r].(live := rs[r].live && rs[r].index != i));
    }
  }

  /** A retired entry: its generation moves on. */
  function Retired(o: Obj): Obj {
    o.(active := false, gen := (o.gen + 1) % 0x1_0000_0000, chan := 0, inst := 0)
  }

  /** A run that loses a live handle: an object that was unregistered n times is registered once more. Its generation is
      2 n + 1, and from n == 32768 on the handle just issued does not resolve. */
  method LiveHandleLost(home: Key -> nat, k: Key, n: nat) returns (t: Table, handle: nat)
    requires (forall q :: home(q) < 256) && !Long(k) && n < 0x8000_0000
    ensures t.Valid() && !t.cut && !t.wrapped && Bound(t.entries[..], k, 0) && t.entries[0].gen == 2 * n + 1
    ensures handle == HandleOf(2 * n + 1, 0)
    ensures Resolve(t.entries[..], handle) == if n < 32768 then 0 else -1
  {
    t := new Table(home);
    ghost var at;
    for i := 0 to n
      invariant t.Valid() && !t.cut && !t.wrapped && fresh(t) && fresh(t.entries) && fresh(t.tab)
      invariant !t.entries[0].active && t.entries[0].gen == 2 * i
      invariant forall j: nat :: !Bound(t.entries[..], k, j)
    {
      handle, at := t.Register(k, 1, 1);
      t.Unregister(k);
    }
    handle, at := t.Register(k, 1, 1);
    HandleResolves(t.entries[..], t.regs[|t.regs| - 1]);
  }
}

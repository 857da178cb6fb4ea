/** The pending-call table and the sweep that fails the calls of dead actors. */
module Reaper {
  import opened Options

  /** One pending call; chan 0 is no channel. */
  datatype Slot = Slot(active: bool, started: bool, tid: int, replyc: nat, chan: nat)

  /** A row of the channel-to-thread table. */
  datatype Row = Row(chan: nat, tid: int)

  /** What the other processes make of the two tables after a given number of passes. */
  type Env = (nat, seq<Slot>, seq<Row>) -> (seq<Slot>, seq<Row>)

  const MAX_PENDING: nat := 512

  /** o9_tid_for_chan */
  function TidFor(rows: seq<Row>, chan: nat): int {
    if chan == 0 || rows == [] then 0 else if rows[0].chan == chan then rows[0].tid else TidFor(rows[1..], chan)
  }

  /** A channel has at most one row, and the rows in use hold thread ids. */
  ghost predicate RowsOk(rows: seq<Row>) {
    && (forall i, j :: 0 <= i < j < |rows| && rows[i].chan != 0 ==> rows[i].chan != rows[j].chan)
    && (forall i :: 0 <= i < |rows| && rows[i].chan != 0 ==> rows[i].tid > 0)
  }

  lemma {:induction false} TidForMeans(rows: seq<Row>, chan: nat)
    requires RowsOk(rows)
    ensures TidFor(rows, chan) >= 0
    ensures forall i :: 0 <= i < |rows| && chan != 0 && rows[i].chan == chan ==> TidFor(rows, chan) == rows[i].tid
    ensures (forall i :: 0 <= i < |rows| ==> rows[i].chan != chan) ==> TidFor(rows, chan) == 0
  {
    if rows != [] && chan != 0 {
      assert forall i :: 0 <= i < |rows| - 1 ==> rows[1..][i] == rows[i + 1];
      TidForMeans(rows[1..], chan);
      forall i | 0 <= i < |rows| && rows[i].chan == chan ensures TidFor(rows, chan) == rows[i].tid {
        if i > 0 { assert rows[1..][i - 1] == rows[i]; }
      }
    }
  }

  /** The thread the reaper takes for a call's actor: the registered one, or else the one noted in the slot. */
  function Judge(s: Slot, rows: seq<Row>): int {
    var t := TidFor(rows, s.chan);
    if t > 0 then t else if s.started || s.tid < 0 then s.tid else 0
  }

  predicate IsDead(tid: int, dead: int -> bool) {
    tid < 0 || (tid > 0 && dead(tid))
  }

  /** A call is judged dead exactly if its channel's thread is dead, or it has no row and its own thread never came to
      be or is noted and dead. */
  lemma JudgedDead(s: Slot, rows: seq<Row>, dead: int -> bool)
    requires RowsOk(rows)
    ensures IsDead(Judge(s, rows), dead) <==>
            if exists i :: 0 <= i < |rows| && rows[i].chan == s.chan != 0 then
              exists i :: 0 <= i < |rows| && rows[i].chan == s.chan && dead(rows[i].tid)
            else s.tid < 0 || (s.started && s.tid > 0 && dead(s.tid))
  {
    TidForMeans(rows, s.chan);
    if s.chan != 0 && forall i :: 0 <= i < |rows| ==> rows[i].chan != s.chan { assert TidFor(rows, s.chan) == 0; }
  }

  // ---------- Counting ----------

  function Active(slots: seq<Slot>): nat {
    if slots == [] then 0 else (if slots[0].active then 1 else 0) + Active(slots[1..])
  }

  lemma {:induction false} ActiveFewer(a: seq<Slot>, b: seq<Slot>)
    requires |a| == |b| && forall i :: 0 <= i < |a| && b[i].active ==> a[i].active
    ensures Active(b) <= Active(a)
    ensures (exists i :: 0 <= i < |a| && a[i].active && !b[i].active) ==> Active(b) < Active(a)
  {
    if a != [] {
      assert forall i :: 0 <= i < |a| - 1 ==> a[1..][i] == a[i + 1] && b[1..][i] == b[i + 1];
      ActiveFewer(a[1..], b[1..]);
      if i :| 0 <= i < |a| && a[i].active && !b[i].active {
        if i > 0 { assert a[1..][i - 1].active && !b[1..][i - 1].active; }
      }
    }
  }

  lemma {:induction false} ActiveOne(a: seq<Slot>, i: nat)
    requires i < |a| && a[i].active
    ensures Active(a[i := Slot(false, false, 0, 0, 0)]) == Active(a) - 1
  {
    var b := a[i := Slot(false, false, 0, 0, 0)];
    if i > 0 {
      assert b[1..] == a[1..][i - 1 := Slot(false, false, 0, 0, 0)];
      ActiveOne(a[1..], i - 1);
    } else {
      assert b[1..] == a[1..];
    }
  }

  // ---------- What a locked pass does ----------

  /** The same calls, some with their thread noted. */
  ghost predicate Noted(a: seq<Slot>, b: seq<Slot>) {
    |a| == |b| && forall i :: 0 <= i < |a| ==> b[i] == a[i].(tid := b[i].tid, started := b[i].started)
  }

  /** A call to chan notes its thread. */
  function NotedFor(s: Slot, chan: nat, tid: int): Slot {
    if s.active && s.chan == chan then s.(tid := tid, started := true) else s
  }

  /** Slot i has been cleared, the rest only noted. */
  ghost predicate Cleared(a: seq<Slot>, b: seq<Slot>, i: nat) {
    |a| == |b| && i < |a| && a[i].active && b[i] == Slot(false, false, 0, 0, 0)
    && forall j :: 0 <= j < |a| && j != i ==> b[j] == a[j].(tid := b[j].tid, started := b[j].started)
  }

  /** The judgement of a call stands, unless its channel is chan: then it may have become tid. */
  ghost predicate Judged(a: seq<Slot>, b: seq<Slot>, rows: seq<Row>, chan: nat, tid: int) {
    |a| == |b| && forall j :: 0 <= j < |a| && a[j].active && b[j].active ==>
      Judge(b[j], rows) == Judge(a[j], rows) || (chan != 0 && a[j].chan == chan && Judge(b[j], rows) == tid)
  }

  class PendingTable {
    var slots: seq<Slot>
    var rows: seq<Row>

    ghost predicate Valid()
      reads this
    {
      |slots| == MAX_PENDING && RowsOk(rows)
    }

    /** o9_actor_tid_put: the channel's own row, else the first free one, else row 0, whose channel is then
        forgotten. Every other channel keeps its thread. */
    method PutRow(chan: nat, tid: int)
      requires Valid() && |rows| > 0 && tid > 0
      modifies this`rows
      ensures Valid() && |rows| == |old(rows)|
      ensures chan == 0 ==> rows == old(rows)
      ensures chan != 0 ==> TidFor(rows, chan) == tid
      ensures var full := forall j :: 0 <= j < |rows| ==> old(rows)[j].chan != 0 && old(rows)[j].chan != chan;
              forall c :: c != chan && chan != 0 ==>
                TidFor(rows, c) == if full && c == old(rows)[0].chan then 0 else TidFor(old(rows), c)
    {
      if chan == 0 { return; }
      var slot := -1;
      var i := 0;
      while i < |rows|
        invariant 0 <= i <= |rows| && rows == old(rows) && -1 <= slot < i
        invariant forall j :: 0 <= j < i ==> rows[j].chan != chan
        invariant slot >= 0 ==> rows[slot].chan == 0
        invariant slot < 0 ==> forall j :: 0 <= j < i ==> rows[j].chan != 0
      {
        if rows[i].chan == chan { slot := i; break; }
        if slot < 0 && rows[i].chan == 0 { slot := i; }
        i := i + 1;
      }
      var at := if slot < 0 then 0 else slot;
      rows := rows[at := Row(chan, tid)];
      TidForMeans(rows, chan);
      assert rows[at].chan == chan;
      forall c | c != chan && c != old(rows)[at].chan ensures TidFor(rows, c) == TidFor(old(rows), c) {
        RowReplaced(old(rows), rows, at, c);
      }
      forall c | c != chan && c == old(rows)[at].chan
        ensures TidFor(rows, c) == if slot >= 0 then TidFor(old(rows), c) else 0
      {
        TidForMeans(rows, c);
      }
    }

    /** o9_pending_register: the first free slot. */
    method Register(tid: int, replyc: nat, chan: nat) returns (slot: int)
      requires Valid()
      modifies this`slots
      ensures Valid()
      ensures slot < 0 ==> slots == old(slots) && (replyc == 0 || forall j :: 0 <= j < |slots| ==> slots[j].active)
      ensures slot >= 0 ==> slot < |slots| && replyc != 0 && !old(slots)[slot].active
      ensures slot >= 0 ==> forall j :: 0 <= j < slot ==> slots[j].active
      ensures var t := TidFor(rows, chan); var s := Slot(true, t > 0, if t > 0 then t else tid, replyc, chan);
              slot >= 0 ==> slots == old(slots)[slot := s] && (t > 0 ==> Judge(s, rows) == t)
    {
      if replyc == 0 { return -1; }
      var ctid := TidFor(rows, chan);
      for i := 0 to |slots|
        invariant slots == old(slots) && forall j :: 0 <= j < i ==> slots[j].active
      {
        if !slots[i].active {
          slots := slots[i := Slot(true, ctid > 0, if ctid > 0 then ctid else tid, replyc, chan)];
          return i;
        }
      }
      slot := -1;
    }

    /** o9_pending_take: the first call with that reply channel is cleared. */
    method Take(replyc: nat) returns (hit: Option<nat>)
      requires Valid()
      modifies this`slots
      ensures Valid()
      ensures hit.Some? ==> Cleared(old(slots), slots, hit.value) && old(slots)[hit.value].replyc == replyc != 0
      ensures hit == None ==> slots == old(slots)
      ensures hit == None && replyc != 0 ==>
                forall j :: 0 <= j < |slots| && slots[j].active ==> slots[j].replyc != replyc
      ensures Active(slots) == Active(old(slots)) - (if hit.Some? then 1 else 0)
    {
      hit := None;
      if replyc == 0 { return; }
      for i := 0 to |slots|
        invariant slots == old(slots) && forall j :: 0 <= j < i && slots[j].active ==> slots[j].replyc != replyc
      {
        if slots[i].active && slots[i].replyc == replyc {
          ActiveOne(slots, i);
          slots := slots[i := Slot(false, false, 0, 0, 0)];
          return Some(i);
        }
      }
    }

    /** The locked pass: clears the first call whose actor is judged dead, after noting the actor's thread in every
        other call to it. */
    method Pass(dead: int -> bool) returns (hit: Option<nat>, chan: nat, tid: int)
      requires Valid()
      modifies this`slots
      ensures Valid() && Judged(old(slots), slots, rows, chan, tid)
      ensures hit == None ==> chan == 0 && Noted(old(slots), slots)
      ensures hit == None ==> forall j :: 0 <= j < |slots| && slots[j].active ==> !IsDead(Judge(slots[j], rows), dead)
      ensures forall j :: 0 <= j < |slots| && slots[j].active && slots[j].chan != chan ==>
                TidFor(rows, slots[j].chan) > 0 || slots[j] == old(slots)[j]
      ensures hit.Some? ==> Cleared(old(slots), slots, hit.value) && chan == old(slots)[hit.value].chan
      ensures hit.Some? ==> tid == Judge(old(slots)[hit.value], rows) && IsDead(tid, dead)
      ensures hit.Some? && chan != 0 && tid > 0 ==>
                forall j :: 0 <= j < |slots| && slots[j].active && slots[j].chan == chan ==>
                  slots[j].started && slots[j].tid == tid
    {
      hit, chan, tid := None, 0, 0;
      for i := 0 to |slots|
        invariant |slots| == MAX_PENDING && Noted(old(slots), slots) && Judged(old(slots), slots, rows, 0, 0)
        invariant forall j :: 0 <= j < |slots| && TidFor(rows, slots[j].chan) <= 0 ==> slots[j] == old(slots)[j]
        invariant hit == None && chan == 0
        invariant forall j :: 0 <= j < i && slots[j].active ==> !IsDead(Judge(slots[j], rows), dead)
      {
        if slots[i].active {
          tid := TidFor(rows, slots[i].chan);
          if tid > 0 {
            slots := slots[i := slots[i].(tid := tid, started := true)];
          } else if slots[i].started || slots[i].tid < 0 {
            tid := slots[i].tid;
          } else {
            tid := 0;
          }
          if tid < 0 || (tid > 0 && dead(tid)) {
            chan, hit := slots[i].chan, Some(i);
            slots := slots[i := Slot(false, false, 0, 0, 0)];
            if chan != 0 && tid > 0 { NoteSiblings(chan, tid); }
            return;
          }
        }
      }
    }

    /** Every other call to the same channel notes the thread. */
    method NoteSiblings(chan: nat, tid: int)
      requires chan != 0 && tid > 0
      modifies this`slots
      ensures Noted(old(slots), slots)
      ensures forall j :: 0 <= j < |slots| ==> slots[j] == NotedFor(old(slots)[j], chan, tid)
    {
      for j := 0 to |slots|
        invariant |slots| == |old(slots)|
        invariant forall k :: 0 <= k < j ==> slots[k] == NotedFor(old(slots)[k], chan, tid)
        invariant forall k :: j <= k < |slots| ==> slots[k] == old(slots)[k]
      {
        if slots[j].active && slots[j].chan == chan {
          slots := slots[j := slots[j].(tid := tid, started := true)];
        }
      }
    }

    /** o9_actor_tid_remove */
    method RemoveRow(chan: nat)
      requires Valid()
      modifies this`rows
      ensures Valid() && TidFor(rows, chan) == 0
      ensures forall c :: c != chan ==> TidFor(rows, c) == TidFor(old(rows), c)
    {
      if chan == 0 { return; }
      for i := 0 to |rows|
        invariant rows == old(rows) && forall j :: 0 <= j < i ==> rows[j].chan != chan
      {
        if rows[i].chan == chan {
          rows := rows[i := Row(0, 0)];
          forall c ensures TidFor(rows, c) == if c == chan then 0 else TidFor(old(rows), c) {
            RowRemoved(old(rows), rows, i, c);
          }
          return;
        }
      }
      TidForMeans(rows, chan);
    }

    /** A locked pass, the failure reply (not shown) and o9_dag_actor_exit's row removal. The judgement of calls to
        the watched channel survives the removal of its row; if nobody knows its thread, none of them is failed. */
    method FailOne(dead: int -> bool, ghost watched: nat, ghost tid: int) returns (hit: Option<nat>)
      requires Valid() && watched != 0
      modifies this
      ensures Valid() && (hit.Some? ==> Cleared(old(slots), slots, hit.value))
      ensures hit.Some? ==> IsDead(Judge(old(slots)[hit.value], old(rows)), dead)
      ensures tid > 0 && old(Watched(slots, rows, watched, tid)) ==> Watched(slots, rows, watched, tid)
      ensures old(Unknown(slots, rows, watched)) ==>
                Unknown(slots, rows, watched) && (hit.Some? ==> old(slots)[hit.value].chan != watched)
      ensures hit == None ==> Noted(old(slots), slots)
      ensures hit == None ==> forall j :: 0 <= j < |slots| && slots[j].active ==> !IsDead(Judge(slots[j], rows), dead)
    {
      var chan, t;
      hit, chan, t := Pass(dead);
      if hit.Some? { RemoveRow(chan); }
    }

    /** What other processes do between two passes, without registering calls: they complete some, and the row of
        the channel we watch stays. */
    method Others(env: Env, k: nat, ghost chan: nat)
      requires Valid() && Polite(env, chan)
      modifies this
      ensures Valid() && Completed(old(slots), slots) && TidFor(rows, chan) == TidFor(old(rows), chan)
      ensures AllAlone(env) ==> slots == old(slots)
    {
      assert PoliteAt(env, chan, k, slots, rows) && (AllAlone(env) ==> Alone(env, k, slots, rows));
      var next := env(k, slots, rows);
      slots, rows := next.0, next.1;
    }

    /** A pass that fails a call, and what the others do before the next one; taken are the calls they complete. */
    method Round(dead: int -> bool, env: Env, k: nat, ghost watched: nat, ghost tid: int)
      returns (hit: Option<nat>, ghost taken: set<nat>)
      requires Valid() && watched != 0 && Polite(env, watched)
      modifies this
      ensures Valid()
      ensures hit.Some? ==> hit.value < MAX_PENDING && old(slots)[hit.value].active && !slots[hit.value].active
      ensures hit.Some? ==> IsDead(Judge(old(slots)[hit.value], old(rows)), dead)
      ensures forall i :: 0 <= i < MAX_PENDING && slots[i].active ==>
                old(slots)[i].active && slots[i].chan == old(slots)[i].chan
      ensures forall i :: 0 <= i < MAX_PENDING && old(slots)[i].active ==>
                slots[i].active || hit == Some(i) || i in taken
      ensures tid > 0 && old(Watched(slots, rows, watched, tid)) ==> Watched(slots, rows, watched, tid)
      ensures old(Unknown(slots, rows, watched)) ==>
                Unknown(slots, rows, watched) && (hit.Some? ==> old(slots)[hit.value].chan != watched)
      ensures hit == None ==> forall j :: 0 <= j < |slots| && slots[j].active ==> !IsDead(Judge(slots[j], rows), dead)
      ensures AllAlone(env) || hit == None ==> taken == {}
      ensures Active(slots) <= Active(old(slots)) - if hit.Some? then 1 else 0
    {
      taken := {};
      hit := FailOne(dead, watched, tid);
      ActiveFewer(old(slots), slots);
      if hit.Some? {
        ghost var s2 := slots;
        Others(env, k, watched);
        ActiveFewer(s2, slots);
        taken := set i | 0 <= i < MAX_PENDING && s2[i].active && !slots[i].active;
      }
    }

    /** One sweep of o9_reaper_proc, during which threads may die: dead(k, t) says whether thread t is dead in pass k.
        Every call that was pending on a dead actor, known by its row when the sweep began, is failed in it or was
        completed by someone else; none is failed unless that actor has died by then. A call to an actor whose thread
        nobody knows is not failed, dead or not. */
    method Sweep(dead: (nat, int) -> bool, env: Env, ghost watched: nat)
      returns (failed: seq<nat>, ghost others: set<nat>, last: nat)
      requires Valid() && watched != 0 && Polite(env, watched)
      modifies this
      ensures Valid()
      ensures forall i :: i in failed ==> 0 <= i < MAX_PENDING && old(slots)[i].active && !slots[i].active
      ensures var tid := TidFor(old(rows), watched);
              tid > 0 && (forall k :: dead(k, tid)) ==>
                forall i :: 0 <= i < MAX_PENDING && old(slots)[i].active && old(slots)[i].chan == watched ==>
                  i in failed || i in others
      ensures var tid := TidFor(old(rows), watched);
              tid > 0 ==> forall i :: i in failed && old(slots)[i].chan == watched ==> DiedBy(dead, tid, last)
      ensures Unknown(old(slots), old(rows), watched) ==> forall i :: i in failed ==> old(slots)[i].chan != watched
      ensures AllAlone(env) ==> others == {}
      ensures forall i :: 0 <= i < |slots| && slots[i].active ==>
                old(slots)[i].active && !IsDead(Judge(slots[i], rows), t => dead(last, t))
      ensures forall i :: 0 <= i < |slots| && old(slots)[i].active && !slots[i].active ==> i in failed || i in others
      ensures |failed| + Active(slots) <= Active(old(slots))
    {
      ghost var tid := TidFor(rows, watched);
      failed, others, last := [], {}, 0;
      while true
        invariant Valid()
        invariant forall i :: 0 <= i < MAX_PENDING && slots[i].active ==>
                    old(slots)[i].active && slots[i].chan == old(slots)[i].chan
        invariant forall i :: i in failed ==> 0 <= i < MAX_PENDING && old(slots)[i].active && !slots[i].active
        invariant forall i :: 0 <= i < MAX_PENDING && old(slots)[i].active ==>
                    slots[i].active || i in failed || i in others
        invariant tid > 0 ==> Watched(slots, rows, watched, tid)
        invariant tid > 0 ==> forall i :: i in failed && old(slots)[i].chan == watched ==> DiedBy(dead, tid, last)
        invariant Unknown(old(slots), old(rows), watched) ==>
                    Unknown(slots, rows, watched) && forall i :: i in failed ==> old(slots)[i].chan != watched
        invariant AllAlone(env) ==> others == {}
        invariant |failed| + Active(slots) <= Active(old(slots))
        decreases Active(slots)
      {
        var hit, taken := Round(t => dead(last, t), env, last, watched, tid);
        if hit == None { return; }
        failed := failed + [hit.value];
        others := others + taken;
        last := last + 1;
      }
    }
  }

  lemma {:induction false} RowRemoved(a: seq<Row>, b: seq<Row>, i: nat, c: nat)
    requires RowsOk(a) && i < |a| && b == a[i := Row(0, 0)] && a[i].chan != 0
    ensures RowsOk(b) && TidFor(b, c) == if c == a[i].chan then 0 else TidFor(a, c)
    decreases |a|
  {
    if c == a[i].chan {
      TidForMeans(b, c);
    } else if i > 0 {
      assert b[1..] == a[1..][i - 1 := Row(0, 0)];
      RowRemoved(a[1..], b[1..], i - 1, c);
    } else {
      assert b[1..] == a[1..];
    }
  }

  lemma {:induction false} RowReplaced(a: seq<Row>, b: seq<Row>, i: nat, c: nat)
    requires i < |a| == |b| && b == a[i := b[i]] && a[i].chan != c && b[i].chan != c
    ensures TidFor(b, c) == TidFor(a, c)
    decreases |a|
  {
    if i > 0 {
      assert b[1..] == a[1..][i - 1 := b[i]];
      RowReplaced(a[1..], b[1..], i - 1, c);
    } else {
      assert b[1..] == a[1..];
    }
  }

  /** Some calls may have been completed; the others are as they were. */
  ghost predicate Completed(a: seq<Slot>, b: seq<Slot>) {
    |a| == |b| && forall i :: 0 <= i < |a| ==> b[i] == a[i] || (a[i].active && !b[i].active)
  }

  ghost predicate PoliteAt(env: Env, chan: nat, k: nat, s: seq<Slot>, r: seq<Row>) {
    RowsOk(r) ==>
      var next := env(k, s, r);
      Completed(s, next.0) && RowsOk(next.1) && TidFor(next.1, chan) == TidFor(r, chan)
  }

  ghost predicate Polite(env: Env, chan: nat) {
    forall k, s, r {:trigger PoliteAt(env, chan, k, s, r)} :: PoliteAt(env, chan, k, s, r)
  }

  /** Nobody else touches the table. */
  ghost predicate Alone(env: Env, k: nat, s: seq<Slot>, r: seq<Row>) {
    env(k, s, r) == (s, r)
  }

  ghost predicate AllAlone(env: Env) {
    forall k, s, r {:trigger Alone(env, k, s, r)} :: Alone(env, k, s, r)
  }

  /** Thread tid was found dead in some pass up to the given one. */
  ghost predicate DiedBy(dead: (nat, int) -> bool, tid: int, last: nat) {
    exists k: nat :: k <= last && dead(k, tid)
  }

  /** Nobody knows the thread behind chan: it has no row, and no pending call has noted it. So it is after chan's row
      was taken by another actor and before any pass looked at the calls. */
  ghost predicate Unknown(slots: seq<Slot>, rows: seq<Row>, chan: nat) {
    TidFor(rows, chan) == 0
    && forall i :: 0 <= i < |slots| && slots[i].active && slots[i].chan == chan ==>
         !slots[i].started && slots[i].tid == 0
  }

  /** Every call to chan is judged by thread tid. */
  ghost predicate Watched(slots: seq<Slot>, rows: seq<Row>, chan: nat, tid: int) {
    forall i :: 0 <= i < |slots| && slots[i].active && slots[i].chan == chan ==> Judge(slots[i], rows) == tid
  }
}

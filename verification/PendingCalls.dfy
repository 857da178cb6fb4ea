/** Synchronous calls: caller, actor and reaper race to complete a reference-counted reply record. Every locked
    section, atomic count and channel operation is one step; steps of different processes interleave freely. */
module PendingCalls {
  import opened Guards
  import opened Options
  import Graphs

  const MAX_PENDING: nat := 512

  /** Where a caller is between creating its record and dropping it. */
  datatype Caller =
    | Fresh                      // the record exists, with the caller's reference
    | Retained                   // a second reference taken for the table
    | Full | FullDropped         // no slot: the table's reference, then the caller's, must go
    | Registered                 // in the table, message not sent
    | FailTaking | FailTaken(held: bool) | FailDropped   // the send failed
    | Waiting                    // message sent, blocked on the reply channel
    | Got | GotTaken(held: bool) | GotDropped            // reply received
    | Done

  /** Where the actor is with the message of a call. */
  datatype Message = Unsent | Queued | Held | Replying(held: bool) | Replied(held: bool) | Finished

  /** What the actor answers, or the reaper's "actor exited without reply". */
  datatype Reply = Answer(value: int) | Failure

  /** sent, got and frees count what ever happened to the call's channel and record; dropped says that the reaper took
      the call and had no memory for a reply; reply is what was sent, and result what the caller received. */
  datatype Call = Call(addr: nat, actor: nat, caller: Caller, msg: Message, sent: nat, got: nat, frees: nat,
                       dropped: bool, reply: Option<Reply>, result: Option<Reply>)

  /** The memory at an address: a reply record with its capacity-1 channel, and the call it was made for. */
  datatype Record = Record(ref: int, chan: seq<Reply>, call: nat)

  /** A table slot in use: the record's address and the actor called. */
  datatype Slot = Slot(addr: nat, actor: nat)

  /** The reaper, and the call it took a slot for. */
  datatype Reaper = Idle | Took(addr: nat, call: nat) | Told(addr: nat, call: nat)

  datatype State = State(calls: map<nat, Call>, heap: map<nat, Record>, table: map<nat, Slot>, reaper: Reaper,
                         dead: set<nat>)

  // ---------- Steps ----------

  datatype Step =
    | Begin(c: nat, addr: nat, actor: nat)
    | Retain(c: nat)
    | Insert(c: nat, slot: nat)
    | NoRoom(c: nat)
    | DropFull(c: nat)
    | SendOk(c: nat)
    | SendFail(c: nat)
    | Receive(c: nat)
    | CallerTake(c: nat, hit: Option<nat>)
    | CallerDrop(c: nat)
    | CallerLast(c: nat)
    | ActorReceive(c: nat)
    | ActorTake(c: nat, hit: Option<nat>)
    | ActorSend(c: nat, value: int)
    | ActorDrop(c: nat)
    | Die(actor: nat)
    | ReaperTake(slot: nat)
    | ReaperSend
    | ReaperNoMemory
    | ReaperDrop

  /** The slots that hold an address. */
  function Slots(s: State, addr: nat): set<nat> {
    set k | k in s.table && s.table[k].addr == addr
  }

  /** o9_pending_take: the first slot in use that holds the address, if any. */
  predicate Finds(s: State, addr: nat, slot: Option<nat>) {
    match slot
    case None => Slots(s, addr) == {}
    case Some(k) => k in Slots(s, addr) && forall j :: j in Slots(s, addr) ==> k <= j
  }

  /** The control state alone decides what can happen: no step asks whether the memory it uses is still there. */
  predicate Enabled(s: State, a: Step) {
    match a
    case Begin(c, addr, _) => c !in s.calls && addr !in s.heap
    case Retain(c) => c in s.calls && s.calls[c].caller == Fresh
    case Insert(c, slot) =>
      && c in s.calls && s.calls[c].caller == Retained && slot < MAX_PENDING && slot !in s.table
      && forall j :: 0 <= j < slot ==> j in s.table
    case NoRoom(c) => c in s.calls && s.calls[c].caller == Retained && forall j :: 0 <= j < MAX_PENDING ==> j in s.table
    case DropFull(c) => c in s.calls && s.calls[c].caller == Full
    case SendOk(c) => c in s.calls && s.calls[c].caller == Registered
    case SendFail(c) => c in s.calls && s.calls[c].caller == Registered
    case Receive(c) =>
      && c in s.calls && s.calls[c].caller == Waiting
      && (s.calls[c].addr in s.heap ==> s.heap[s.calls[c].addr].chan != [])
    case CallerTake(c, hit) =>
      c in s.calls && (s.calls[c].caller == FailTaking || s.calls[c].caller == Got) && Finds(s, s.calls[c].addr, hit)
    case CallerDrop(c) => c in s.calls && (s.calls[c].caller.FailTaken? || s.calls[c].caller.GotTaken?)
    case CallerLast(c) => c in s.calls && var p := s.calls[c].caller; p.FullDropped? || p.FailDropped? || p.GotDropped?
    case ActorReceive(c) => c in s.calls && s.calls[c].msg == Queued && s.calls[c].actor !in s.dead
    case ActorTake(c, hit) =>
      c in s.calls && s.calls[c].msg == Held && s.calls[c].actor !in s.dead && Finds(s, s.calls[c].addr, hit)
    case ActorSend(c, _) => c in s.calls && s.calls[c].msg.Replying?
    case ActorDrop(c) => c in s.calls && s.calls[c].msg.Replied?
    case Die(actor) =>
      forall c :: c in s.calls && s.calls[c].actor == actor ==> !s.calls[c].msg.Replying? && !s.calls[c].msg.Replied?
    case ReaperTake(slot) => s.reaper == Idle && slot in s.table && s.table[slot].actor in s.dead
    case ReaperSend => s.reaper.Took?
    case ReaperNoMemory => s.reaper.Took?
    case ReaperDrop => s.reaper.Told?
  }

  /** The record a step reads or writes. A step that holds no reference touches none. */
  function Touches(s: State, a: Step): Option<nat>
    requires Enabled(s, a)
  {
    match a
    case Retain(c) => Some(s.calls[c].addr)
    case DropFull(c) => Some(s.calls[c].addr)
    case SendOk(c) => Some(s.calls[c].addr)
    case Receive(c) => Some(s.calls[c].addr)
    case CallerTake(c, _) => Some(s.calls[c].addr)
    case CallerDrop(c) => if s.calls[c].caller.held then Some(s.calls[c].addr) else None
    case CallerLast(c) => Some(s.calls[c].addr)
    case ActorSend(c, _) => Some(s.calls[c].addr)
    case ActorDrop(c) => if s.calls[c].msg.held then Some(s.calls[c].addr) else None
    case ReaperSend => Some(s.reaper.addr)
    case ReaperDrop => Some(s.reaper.addr)
    case _ => None
  }

  function SetCaller(s: State, c: nat, p: Caller): State
    requires c in s.calls
  {
    s.(calls := s.calls[c := s.calls[c].(caller := p)])
  }

  function SetMsg(s: State, c: nat, p: Message): State
    requires c in s.calls
  {
    s.(calls := s.calls[c := s.calls[c].(msg := p)])
  }

  /** o9_sync_release: the last reference drains the channel and frees the record. */
  function Release(s: State, addr: nat): State {
    if addr !in s.heap then s
    else if s.heap[addr].ref - 1 != 0 then s.(heap := s.heap[addr := s.heap[addr].(ref := s.heap[addr].ref - 1)])
    else
      var c := s.heap[addr].call;
      s.(heap := s.heap - {addr},
         calls := if c in s.calls then s.calls[c := s.calls[c].(frees := s.calls[c].frees + 1)] else s.calls)
  }

  /** A reply goes onto the channel of the record at addr. */
  function Put(s: State, addr: nat, r: Reply): State {
    if addr !in s.heap then s
    else
      var c := s.heap[addr].call;
      s.(heap := s.heap[addr := s.heap[addr].(chan := s.heap[addr].chan + [r])],
         calls := if c in s.calls then s.calls[c := s.calls[c].(sent := s.calls[c].sent + 1, reply := Some(r))]
                  else s.calls)
  }

  function Remove(s: State, hit: Option<nat>): State {
    if hit.Some? then s.(table := s.table - {hit.value}) else s
  }

  function Do(s: State, a: Step): State
    requires Enabled(s, a)
  {
    match a
    case Begin(c, addr, actor) =>
      s.(calls := s.calls[c := Call(addr, actor, Fresh, Unsent, 0, 0, 0, false, None, None)],
         heap := s.heap[addr := Record(1, [], c)])
    case Retain(c) =>
      var addr := s.calls[c].addr;
      var s1 := if addr in s.heap then s.(heap := s.heap[addr := s.heap[addr].(ref := s.heap[addr].ref + 1)]) else s;
      SetCaller(s1, c, Retained)
    case Insert(c, slot) =>
      SetCaller(s.(table := s.table[slot := Slot(s.calls[c].addr, s.calls[c].actor)]), c, Registered)
    case NoRoom(c) => SetCaller(s, c, Full)
    case DropFull(c) => Release(SetCaller(s, c, FullDropped), s.calls[c].addr)
    case SendOk(c) => SetMsg(SetCaller(s, c, Waiting), c, Queued)
    case SendFail(c) => SetCaller(s, c, FailTaking)
    case Receive(c) =>
      var addr := s.calls[c].addr;
      var s1 := if addr in s.heap && s.heap[addr].chan != []
                then s.(heap := s.heap[addr := s.heap[addr].(chan := s.heap[addr].chan[1..])]) else s;
      var r := if addr in s.heap && s.heap[addr].chan != [] then Some(s.heap[addr].chan[0]) else None;
      s1.(calls := s.calls[c := s.calls[c].(caller := Got, got := s.calls[c].got + 1, result := r)])
    case CallerTake(c, hit) =>
      var p := if s.calls[c].caller == FailTaking then FailTaken(hit.Some?) else GotTaken(hit.Some?);
      Remove(SetCaller(s, c, p), hit)
    case CallerDrop(c) =>
      var s1 := SetCaller(s, c, if s.calls[c].caller.FailTaken? then FailDropped else GotDropped);
      if s.calls[c].caller.held then Release(s1, s.calls[c].addr) else s1
    case CallerLast(c) => Release(SetCaller(s, c, Done), s.calls[c].addr)
    case ActorReceive(c) => SetMsg(s, c, Held)
    case ActorTake(c, hit) => Remove(SetMsg(s, c, Replying(hit.Some?)), hit)
    case ActorSend(c, value) => Put(SetMsg(s, c, Replied(s.calls[c].msg.held)), s.calls[c].addr, Answer(value))
    case ActorDrop(c) =>
      var s1 := SetMsg(s, c, Finished);
      if s.calls[c].msg.held then Release(s1, s.calls[c].addr) else s1
    case Die(actor) => s.(dead := s.dead + {actor})
    case ReaperTake(slot) =>
      var addr := s.table[slot].addr;
      s.(reaper := Took(addr, if addr in s.heap then s.heap[addr].call else 0), table := s.table - {slot})
    case ReaperSend => Put(s.(reaper := Told(s.reaper.addr, s.reaper.call)), s.reaper.addr, Failure)
    case ReaperNoMemory =>
      var c := s.reaper.call;
      s.(reaper := Told(s.reaper.addr, c),
         calls := if c in s.calls then s.calls[c := s.calls[c].(dropped := true)] else s.calls)
    case ReaperDrop => Release(s.(reaper := Idle), s.reaper.addr)
  }

  // ---------- One call's view ----------

  /** Is the record of call c still allocated (and not another call's at the same address)? */
  predicate Live(s: State, c: nat)
    requires c in s.calls
  {
    s.calls[c].addr in s.heap && s.heap[s.calls[c].addr].call == c
  }

  /** What the reaper is doing to a call. */
  datatype Reaping = Not | Takes | Tells

  /** All that matters to a call. */
  datatype View = View(call: Call, live: bool, ref: int, chan: seq<Reply>, slotted: bool, reaping: Reaping, dead: bool)

  function ViewOf(s: State, c: nat): View
    requires c in s.calls
  {
    var call := s.calls[c];
    if Live(s, c) then
      View(call, true, s.heap[call.addr].ref, s.heap[call.addr].chan, Slots(s, call.addr) != {},
           if s.reaper == Took(call.addr, c) then Takes else if s.reaper == Told(call.addr, c) then Tells else Not,
           call.actor in s.dead)
    else View(call, false, 0, [], false, Not, call.actor in s.dead)
  }

  /** The references a caller holds. */
  function CallerShare(p: Caller): nat {
    match p
    case Retained => 2
    case Full => 2
    case FailTaken(h) => 1 + One(h)
    case GotTaken(h) => 1 + One(h)
    case Done => 0
    case _ => 1
  }

  function ActorShare(m: Message): nat {
    match m
    case Replying(h) => One(h)
    case Replied(h) => One(h)
    case _ => 0
  }

  /** Everyone who holds a reference: the caller, the actor, the table, the reaper. */
  function Holders(v: View): nat {
    CallerShare(v.call.caller) + ActorShare(v.call.msg) + One(v.slotted) + One(v.reaping != Not)
  }

  /** A caller that is not in the table yet, and will not be. */
  predicate Outside(p: Caller) {
    p.Fresh? || p.Retained? || p.Full? || p.FullDropped?
  }

  /** A caller that has not yet sent, or whose send failed. */
  predicate NotSent(p: Caller) {
    Outside(p) || p.Registered? || p.FailTaking? || p.FailTaken? || p.FailDropped?
  }

  predicate HasReply(p: Caller) {
    p.Got? || p.GotDropped? || p.GotTaken?
  }

  /** The actor has not begun to reply. */
  predicate Owed(m: Message) {
    m.Unsent? || m.Queued? || m.Held?
  }

  predicate Good(v: View) {
    var p, m := v.call.caller, v.call.msg;
    // the count is the number of holders, and the record is freed exactly when it reaches zero
    && (v.live ==> v.ref == Holders(v) && v.ref > 0 && v.call.frees == 0)
    && (!v.live ==> p == Done && ActorShare(m) == 0 && v.call.frees == 1)
    // one reply at most, in the channel or received
    && (v.live ==> |v.chan| + v.call.got == v.call.sent)
    && v.call.got <= v.call.sent <= 1
    && v.call.got == One(HasReply(p) || (p == Done && m != Unsent))
    // it is the one that was sent, and the actor's exactly if the actor has replied
    && (v.call.reply.Some? <==> v.call.sent == 1) && (v.live && v.chan != [] ==> v.call.reply == Some(v.chan[0]))
    && v.call.result == (if v.call.got == 1 then v.call.reply else None)
    && (m.Replied? || m.Finished? <==> v.call.reply.Some? && v.call.reply.value.Answer?)
    && (NotSent(p) ==> m == Unsent) && (m == Unsent ==> NotSent(p) || p == Done)
    // a registered call is held by one of the table, an actor about to reply, or the reaper, until it is replied to
    && (v.slotted ==> v.call.sent == 0 && (p.Registered? || p.FailTaking? || p.Waiting?) && Owed(m) && v.reaping == Not)
    && (Outside(p) ==> v.call.sent == 0 && v.reaping == Not)
    && (v.call.sent == 1 && Owed(m) ==> v.dead)
    && (p == Registered ==> v.slotted || v.reaping != Not || v.call.sent == 1 || v.call.dropped)
    && ((m.Queued? || m.Held?) && !v.dead ==> v.slotted)
    && (m.Replying? ==> m.held && v.call.sent == 0 && p == Waiting && v.reaping == Not && !v.slotted && !v.dead)
    && (m.Replied? ==> m.held && v.call.sent == 1 && v.reaping == Not && !v.slotted && !v.dead)
    && (m == Finished ==> v.call.sent == 1 && v.reaping == Not)
    && (v.reaping == Takes ==> v.call.sent == 0 && v.dead && !HasReply(p) && !m.Replying? && !v.call.dropped)
    && (v.reaping == Tells ==> v.dead && v.call.sent == One(!v.call.dropped))
    && (v.call.dropped ==> v.dead && v.call.sent == 0 && Owed(m) && !v.slotted && !Outside(p))
    && (p == Waiting ==> v.slotted || m.Replying? || v.reaping == Takes || v.chan != [] || v.call.dropped)
    && (p.FailTaken? && p.held ==> v.reaping == Not && v.call.sent == 0)
    && (p.GotTaken? ==> !p.held)
  }

  // ---------- The invariant ----------

  ghost predicate CallOk(s: State, c: nat) {
    c in s.calls ==> Good(ViewOf(s, c))
  }

  /** Allocated memory belongs to a call that knows its address. */
  ghost predicate HeapOk(s: State, a: nat) {
    a in s.heap ==> s.heap[a].call in s.calls && s.calls[s.heap[a].call].addr == a
  }

  /** No slot dangles, each names the actor its call was made to, and no call has two. */
  ghost predicate SlotOk(s: State, k: nat) {
    k in s.table ==>
      && k < MAX_PENDING && s.table[k].addr in s.heap && s.heap[s.table[k].addr].call in s.calls
      && s.calls[s.heap[s.table[k].addr].call].actor == s.table[k].actor
      && Slots(s, s.table[k].addr) == {k}
  }

  ghost predicate ReaperOk(s: State) {
    s.reaper == Idle || (s.reaper.addr in s.heap && s.heap[s.reaper.addr].call == s.reaper.call)
  }

  ghost predicate Inv(s: State) {
    && (forall c {:trigger CallOk(s, c)} :: CallOk(s, c))
    && (forall a {:trigger HeapOk(s, a)} :: HeapOk(s, a))
    && (forall k {:trigger SlotOk(s, k)} :: SlotOk(s, k))
    && ReaperOk(s)
  }

  // ---------- Locality ----------

  predicate ReapsOnly(r: Reaper, c: nat) {
    r == Idle || r.call == c
  }

  /** The step concerned call c, whose record is at its address, and nothing else. */
  ghost predicate Local(s: State, t: State, c: nat) {
    && c in s.calls && Live(s, c) && t.calls.Keys == s.calls.Keys
    && t.calls[c].addr == s.calls[c].addr && t.calls[c].actor == s.calls[c].actor
    && (forall d: nat :: d in s.calls && d != c ==> t.calls[d] == s.calls[d])
    && var a := s.calls[c].addr;
       && (forall b: nat :: b != a ==> (b in t.heap <==> b in s.heap) && (b in s.heap ==> t.heap[b] == s.heap[b]))
       && (a in t.heap ==> t.heap[a].call == c)
       && (forall k: nat :: k in t.table && t.table[k].addr != a ==> k in s.table && s.table[k] == t.table[k])
       && (forall k: nat :: k in s.table && s.table[k].addr != a ==> k in t.table && t.table[k] == s.table[k])
       && (t.reaper == s.reaper || (ReapsOnly(s.reaper, c) && ReapsOnly(t.reaper, c)))
       && t.dead == s.dead
  }

  /** Every other call sees what it saw. */
  lemma OthersSame(s: State, t: State, c: nat, d: nat)
    requires Local(s, t, c) && d in s.calls && d != c
    ensures d in t.calls && ViewOf(t, d) == ViewOf(s, d)
  {
    if Live(s, d) {
      assert Slots(t, s.calls[d].addr) == Slots(s, s.calls[d].addr);
    }
  }

  /** After a local step it is enough to look at its own call. */
  lemma LocalKeepsInv(s: State, t: State, c: nat)
    requires Inv(s) && Local(s, t, c) && Good(ViewOf(t, c))
    requires forall k :: k in t.table && t.table[k].addr == s.calls[c].addr ==>
               k < MAX_PENDING && t.table[k].actor == s.calls[c].actor && Live(t, c) && Slots(t, s.calls[c].addr) == {k}
    requires t.reaper != Idle && t.reaper.call == c ==> t.reaper.addr == s.calls[c].addr && Live(t, c)
    ensures Inv(t)
  {
    forall d ensures CallOk(t, d) {
      assert CallOk(s, d);
      if d in s.calls && d != c { OthersSame(s, t, c, d); }
    }
    forall a ensures HeapOk(t, a) { assert HeapOk(s, a); }
    forall k ensures SlotOk(t, k) {
      assert SlotOk(s, k);
      if k in t.table && t.table[k].addr != s.calls[c].addr {
        assert Slots(t, t.table[k].addr) == Slots(s, t.table[k].addr);
      }
    }
    if s.reaper != Idle { assert HeapOk(s, s.reaper.addr); }
  }

  /** The call a step is made for: the reaper's is the one it took the slot for. */
  ghost predicate Concerns(s: State, a: Step, c: nat) {
    match a
    case Begin(_, _, _) => false
    case Die(_) => false
    case ReaperTake(slot) => slot in s.table && s.table[slot].addr in s.heap && s.heap[s.table[slot].addr].call == c
    case ReaperSend => s.reaper != Idle && s.reaper.call == c
    case ReaperNoMemory => s.reaper != Idle && s.reaper.call == c
    case ReaperDrop => s.reaper != Idle && s.reaper.call == c
    case _ => c == a.c
  }

  /** A live call has at most one slot, which names its actor, and the reaper knows its address. */
  lemma SlotsKnown(s: State, c: nat)
    requires Inv(s) && c in s.calls && Live(s, c)
    ensures forall k :: k in s.table && s.table[k].addr == s.calls[c].addr ==>
              k < MAX_PENDING && s.table[k].actor == s.calls[c].actor && Slots(s, s.calls[c].addr) == {k}
    ensures s.reaper != Idle && s.reaper.call == c ==> s.reaper.addr == s.calls[c].addr
  {
    forall k | k in s.table && s.table[k].addr == s.calls[c].addr
      ensures k < MAX_PENDING && s.table[k].actor == s.calls[c].actor && Slots(s, s.calls[c].addr) == {k}
    {
      assert SlotOk(s, k);
    }
    if s.reaper != Idle { assert HeapOk(s, s.reaper.addr); }
  }

  /** A step that changes a call and what is in its record, seen from the call alone. */
  lemma OwnKeepsInv(s: State, t: State, c: nat, v: View)
    requires Inv(s) && c in s.calls && Live(s, c) && c in t.calls && s.calls[c].addr in t.heap
    requires v.call.addr == s.calls[c].addr && v.call.actor == s.calls[c].actor
    requires t.calls == s.calls[c := v.call] && t.heap == s.heap[v.call.addr := Record(v.ref, v.chan, c)]
    requires t == s.(calls := t.calls, heap := t.heap)
    requires v == ViewOf(s, c).(call := v.call, ref := v.ref, chan := v.chan) && Good(v)
    ensures Inv(t)
  {
    assert Slots(t, v.call.addr) == Slots(s, v.call.addr);
    SlotsKnown(s, c);
    LocalKeepsInv(s, t, c);
  }

  /** What a step of the call's own makes of its view. */
  function OwnView(v: View, a: Step): View {
    match a
    case NoRoom(_) => v.(call := v.call.(caller := Full))
    case SendOk(_) => v.(call := v.call.(caller := Waiting, msg := Queued))
    case SendFail(_) => v.(call := v.call.(caller := FailTaking))
    case ActorReceive(_) => v.(call := v.call.(msg := Held))
    case Retain(_) => v.(call := v.call.(caller := Retained), ref := v.ref + 1)
    case Receive(_) =>
      if v.chan == [] then v.(call := v.call.(caller := Got, got := v.call.got + 1, result := None))
      else v.(call := v.call.(caller := Got, got := v.call.got + 1, result := Some(v.chan[0])), chan := v.chan[1..])
    case ActorSend(_, value) =>
      var m := Replied(v.call.msg.Replying? && v.call.msg.held);
      v.(call := v.call.(msg := m, sent := v.call.sent + 1, reply := Some(Answer(value))),
         chan := v.chan + [Answer(value)])
    case _ => v
  }

  predicate Own(a: Step) {
    a.NoRoom? || a.SendOk? || a.SendFail? || a.ActorReceive? || a.Retain? || a.Receive? || a.ActorSend?
  }

  lemma MoveGood(v: View, a: Step)
    requires Good(v)
    requires || (a.NoRoom? && v.call.caller == Retained) || (a.SendOk? && v.call.caller == Registered)
             || (a.SendFail? && v.call.caller == Registered) || (a.ActorReceive? && v.call.msg == Queued && !v.dead)
    ensures v.live && Good(OwnView(v, a))
  {
  }

  lemma UseGood(s: State, a: Step)
    requires Enabled(s, a) && (a.Retain? || a.Receive? || a.ActorSend?) && Good(ViewOf(s, a.c))
    ensures Live(s, a.c) && Good(OwnView(ViewOf(s, a.c), a))
  {
  }

  lemma OwnDo(s: State, a: Step)
    requires Enabled(s, a) && Own(a) && Live(s, a.c)
    ensures var v, t := OwnView(ViewOf(s, a.c), a), Do(s, a);
            && t.calls == s.calls[a.c := v.call] && t.heap == s.heap[v.call.addr := Record(v.ref, v.chan, a.c)]
            && t == s.(calls := t.calls, heap := t.heap)
  {
    var addr := s.calls[a.c].addr;
    assert s.heap[addr := s.heap[addr]] == s.heap;
  }

  lemma OwnStepKeepsInv(s: State, a: Step)
    requires Inv(s) && Enabled(s, a) && Own(a)
    ensures Inv(Do(s, a))
  {
    assert CallOk(s, a.c);
    if a.Retain? || a.Receive? || a.ActorSend? { UseGood(s, a); } else { MoveGood(ViewOf(s, a.c), a); }
    OwnDo(s, a);
    OwnKeepsInv(s, Do(s, a), a.c, OwnView(ViewOf(s, a.c), a));
  }

  lemma InsertKeepsInv(s: State, c: nat, slot: nat)
    requires Inv(s) && Enabled(s, Insert(c, slot))
    ensures Inv(Do(s, Insert(c, slot)))
  {
    assert CallOk(s, c);
    var t := Do(s, Insert(c, slot));
    assert Slots(s, s.calls[c].addr) == {};
    assert Slots(t, s.calls[c].addr) == {slot};
    SlotsKnown(s, c);
    LocalKeepsInv(s, t, c);
  }

  /** The caller has taken its call out of the table, if it was still there. */
  lemma TakeGood(v: View, p: Caller)
    requires Good(v)
    requires (v.call.caller == FailTaking && p == FailTaken(v.slotted))
             || (v.call.caller == Got && p == GotTaken(v.slotted))
    ensures v.live && Good(v.(call := v.call.(caller := p), slotted := false))
  {
  }

  lemma CallerTakeKeepsInv(s: State, c: nat, hit: Option<nat>)
    requires Inv(s) && Enabled(s, CallerTake(c, hit))
    ensures Inv(Do(s, CallerTake(c, hit)))
  {
    assert CallOk(s, c);
    var t, v := Do(s, CallerTake(c, hit)), ViewOf(s, c);
    assert v.slotted <==> hit.Some?;
    TakeGood(v, t.calls[c].caller);
    SlotsKnown(s, c);
    assert Slots(t, s.calls[c].addr) == {};
    assert ViewOf(t, c) == v.(call := t.calls[c], slotted := false);
    LocalKeepsInv(s, t, c);
  }

  lemma ActorTakeKeepsInv(s: State, c: nat, hit: Option<nat>)
    requires Inv(s) && Enabled(s, ActorTake(c, hit))
    ensures Inv(Do(s, ActorTake(c, hit)))
  {
    assert CallOk(s, c);
    var t := Do(s, ActorTake(c, hit));
    SlotsKnown(s, c);
    assert Slots(t, s.calls[c].addr) == {};
    LocalKeepsInv(s, t, c);
  }

  lemma ReaperTakeKeepsInv(s: State, slot: nat)
    requires Inv(s) && Enabled(s, ReaperTake(slot))
    ensures Inv(Do(s, ReaperTake(slot)))
  {
    assert SlotOk(s, slot);
    var c := s.heap[s.table[slot].addr].call;
    assert CallOk(s, c) && HeapOk(s, s.table[slot].addr);
    var t := Do(s, ReaperTake(slot));
    SlotsKnown(s, c);
    assert Slots(t, s.calls[c].addr) == {};
    LocalKeepsInv(s, t, c);
  }

  /** The view of a call after a holder has moved on, the caller or actor to call or the reaper to r. */
  function Moved(s: State, c: nat, call: Call, r: Reaper): View
    requires c in s.calls
  {
    ViewOf(s, c).(call := call, reaping := if r == s.reaper then ViewOf(s, c).reaping else Not)
  }

  /** Nobody holds the record any more. */
  predicate GoodFreed(v: View) {
    && v.call.caller == Done && ActorShare(v.call.msg) == 0 && !v.slotted && v.reaping == Not && v.call.frees == 0
    && Good(v.(live := false, ref := 0, chan := [], call := v.call.(frees := 1)))
  }

  /** The holder that has moved on gives up its reference, and it was the last. */
  lemma FreeKeepsInv(s: State, c: nat, call: Call, r: Reaper)
    requires Inv(s) && c in s.calls && Live(s, c) && call.addr == s.calls[c].addr && call.actor == s.calls[c].actor
    requires r == s.reaper || (r == Idle && s.reaper.call == c)
    requires Moved(s, c, call, r).ref == 1 && GoodFreed(Moved(s, c, call, r))
    ensures Inv(Release(s.(calls := s.calls[c := call], reaper := r), call.addr))
  {
    var a := call.addr;
    var t := Release(s.(calls := s.calls[c := call], reaper := r), a);
    assert Slots(t, a) == Slots(s, a);
    SlotsKnown(s, c);
    assert forall k :: k in t.table && t.table[k].addr == a ==> k in Slots(t, a);
    assert a !in t.heap;
    LocalKeepsInv(s, t, c);
  }

  /** Or someone else still holds one. */
  lemma ReleaseKeepsInv(s: State, c: nat, call: Call, r: Reaper)
    requires Inv(s) && c in s.calls && Live(s, c) && call.addr == s.calls[c].addr && call.actor == s.calls[c].actor
    requires r == s.reaper || (r == Idle && s.reaper.call == c)
    requires var v := Moved(s, c, call, r); if v.ref == 1 then GoodFreed(v) else Good(v.(ref := v.ref - 1))
    ensures Inv(Release(s.(calls := s.calls[c := call], reaper := r), call.addr))
  {
    var a := call.addr;
    if s.heap[a].ref == 1 {
      FreeKeepsInv(s, c, call, r);
    } else {
      var t := Release(s.(calls := s.calls[c := call], reaper := r), a);
      assert Slots(t, a) == Slots(s, a);
      SlotsKnown(s, c);
      assert ViewOf(t, c) == Moved(s, c, call, r).(ref := s.heap[a].ref - 1);
      LocalKeepsInv(s, t, c);
    }
  }

  /** Where the caller is after giving up a reference. */
  function Dropped(p: Caller): Caller {
    if p.Full? then FullDropped else if p.FailTaken? then FailDropped else if p.GotTaken? then GotDropped else Done
  }

  predicate Drop(s: State, a: Step) {
    Enabled(s, a) && (a.DropFull? || a.CallerLast? || (a.CallerDrop? && s.calls[a.c].caller.held))
  }

  lemma DropGood(v: View)
    requires Good(v)
    requires var p := v.call.caller; p.Full? || p.FullDropped? || p.FailDropped? || p.GotDropped?
                                     || ((p.FailTaken? || p.GotTaken?) && p.held)
    ensures v.live
    ensures var w := v.(call := v.call.(caller := Dropped(v.call.caller)));
            if w.ref == 1 then GoodFreed(w) else Good(w.(ref := w.ref - 1))
  {
  }

  /** The caller moves on and gives up a reference. */
  lemma CallerDropKeepsInv(s: State, a: Step)
    requires Inv(s) && Drop(s, a)
    ensures Inv(Do(s, a))
  {
    assert CallOk(s, a.c);
    DropGood(ViewOf(s, a.c));
    var call := s.calls[a.c].(caller := Dropped(s.calls[a.c].caller));
    ReleaseKeepsInv(s, a.c, call, s.reaper);
    assert Do(s, a) == Release(s.(calls := s.calls[a.c := call]), call.addr);
  }

  lemma CallerSkipKeepsInv(s: State, c: nat)
    requires Inv(s) && Enabled(s, CallerDrop(c)) && !s.calls[c].caller.held
    ensures Inv(Do(s, CallerDrop(c)))
  {
    assert CallOk(s, c) && Live(s, c);
    var call := s.calls[c];
    assert s.heap[call.addr := s.heap[call.addr]] == s.heap;
    var next := call.(caller := if call.caller.FailTaken? then FailDropped else GotDropped);
    OwnKeepsInv(s, Do(s, CallerDrop(c)), c, ViewOf(s, c).(call := next));
  }

  lemma ActorDropKeepsInv(s: State, c: nat)
    requires Inv(s) && Enabled(s, ActorDrop(c))
    ensures Inv(Do(s, ActorDrop(c)))
  {
    assert CallOk(s, c) && Live(s, c);
    ReleaseKeepsInv(s, c, s.calls[c].(msg := Finished), s.reaper);
  }

  lemma ReaperDropKeepsInv(s: State)
    requires Inv(s) && Enabled(s, ReaperDrop)
    ensures Inv(Do(s, ReaperDrop))
  {
    var c := s.reaper.call;
    assert HeapOk(s, s.reaper.addr) && CallOk(s, c) && Live(s, c);
    assert s.calls[c := s.calls[c]] == s.calls;
    ReleaseKeepsInv(s, c, s.calls[c], Idle);
  }

  /** The failure reply, or none for want of memory. */
  lemma ReaperTellsKeepsInv(s: State, a: Step)
    requires Inv(s) && s.reaper.Took? && (a == ReaperSend || a == ReaperNoMemory)
    ensures Inv(Do(s, a))
  {
    assert HeapOk(s, s.reaper.addr);
    var c := s.reaper.call;
    assert CallOk(s, c);
    var t := Do(s, a);
    assert Slots(t, s.calls[c].addr) == Slots(s, s.calls[c].addr);
    SlotsKnown(s, c);
    LocalKeepsInv(s, t, c);
  }

  lemma BeginKeepsInv(s: State, c: nat, addr: nat, actor: nat)
    requires Inv(s) && Enabled(s, Begin(c, addr, actor))
    ensures Inv(Do(s, Begin(c, addr, actor)))
  {
    var t := Do(s, Begin(c, addr, actor));
    forall k ensures SlotOk(t, k) { assert SlotOk(s, k); if k in s.table { assert HeapOk(s, s.table[k].addr); } }
    forall b ensures HeapOk(t, b) { assert HeapOk(s, b); }
    forall d ensures CallOk(t, d) { BeginCall(s, c, addr, actor, d); }
  }

  lemma BeginCall(s: State, c: nat, addr: nat, actor: nat, d: nat)
    requires Inv(s) && Enabled(s, Begin(c, addr, actor))
    ensures CallOk(Do(s, Begin(c, addr, actor)), d)
  {
    var t := Do(s, Begin(c, addr, actor));
    assert CallOk(s, d);
    if d == c {
      forall k | k in s.table ensures s.table[k].addr != addr { assert SlotOk(s, k); }
      assert Slots(t, addr) == {};
    } else if d in s.calls {
      assert Live(t, d) <==> Live(s, d);
      assert Slots(t, s.calls[d].addr) == Slots(s, s.calls[d].addr);
    }
  }

  lemma DieKeepsInv(s: State, actor: nat)
    requires Inv(s) && Enabled(s, Die(actor))
    ensures Inv(Do(s, Die(actor)))
  {
    var t := Do(s, Die(actor));
    forall k ensures SlotOk(t, k) { assert SlotOk(s, k); }
    forall b ensures HeapOk(t, b) { assert HeapOk(s, b); }
    forall d ensures CallOk(t, d) {
      assert CallOk(s, d);
      if d in s.calls {
        assert Slots(t, s.calls[d].addr) == Slots(s, s.calls[d].addr);
      }
    }
  }

  // ---------- Every run ----------

  lemma StepKeepsInv(s: State, a: Step)
    requires Inv(s) && Enabled(s, a)
    ensures Inv(Do(s, a))
  {
    match a
    case Begin(c, addr, actor) => BeginKeepsInv(s, c, addr, actor);
    case Insert(c, slot) => InsertKeepsInv(s, c, slot);
    case CallerTake(c, hit) => CallerTakeKeepsInv(s, c, hit);
    case ActorTake(c, hit) => ActorTakeKeepsInv(s, c, hit);
    case CallerDrop(c) => if s.calls[c].caller.held { CallerDropKeepsInv(s, a); } else { CallerSkipKeepsInv(s, c); }
    case DropFull(_) => CallerDropKeepsInv(s, a);
    case CallerLast(_) => CallerDropKeepsInv(s, a);
    case ActorDrop(c) => ActorDropKeepsInv(s, c);
    case Die(actor) => DieKeepsInv(s, actor);
    case ReaperTake(slot) => ReaperTakeKeepsInv(s, slot);
    case ReaperSend => ReaperTellsKeepsInv(s, a);
    case ReaperNoMemory => ReaperTellsKeepsInv(s, a);
    case ReaperDrop => ReaperDropKeepsInv(s);
    case _ => OwnStepKeepsInv(s, a);
  }

  /** Any interleaving of steps, from no calls at all. */
  ghost predicate IsRun(run: seq<State>, steps: seq<Step>) {
    && |run| == |steps| + 1 && run[0] == State(map[], map[], map[], Idle, run[0].dead)
    && forall i :: 0 <= i < |steps| ==> Enabled(run[i], steps[i]) && run[i + 1] == Do(run[i], steps[i])
  }

  lemma {:induction false} RunsKeepInv(run: seq<State>, steps: seq<Step>, i: nat)
    requires IsRun(run, steps) && i < |run|
    ensures Inv(run[i])
  {
    if i > 0 {
      RunsKeepInv(run, steps, i - 1);
      StepKeepsInv(run[i - 1], steps[i - 1]);
      assert run[i - 1 + 1] == run[i];
    }
  }

  /** No step uses a record that has been freed or that belongs to another call than the one it is made for; and whoever
      sends a reply finds the channel empty. */
  lemma StepsAreSafe(run: seq<State>, steps: seq<Step>, i: nat)
    requires IsRun(run, steps) && i < |steps|
    ensures var s, a := run[i], steps[i];
            Touches(s, a).Some? ==> Touches(s, a).value in s.heap && Concerns(s, a, s.heap[Touches(s, a).value].call)
    ensures steps[i].ActorSend? || steps[i].ReaperSend? ==>
              Touches(run[i], steps[i]).Some? && run[i].heap[Touches(run[i], steps[i]).value].chan == []
  {
    RunsKeepInv(run, steps, i);
    SafeStep(run[i], steps[i]);
  }

  lemma SafeStep(s: State, a: Step)
    requires Inv(s) && Enabled(s, a)
    ensures Touches(s, a).Some? ==> Touches(s, a).value in s.heap && Concerns(s, a, s.heap[Touches(s, a).value].call)
    ensures a.ActorSend? || a.ReaperSend? ==> Touches(s, a).Some? && s.heap[Touches(s, a).value].chan == []
  {
    if a.ReaperSend? || a.ReaperDrop? {
      assert HeapOk(s, s.reaper.addr);
      assert CallOk(s, s.reaper.call);
    } else if Touches(s, a).Some? {
      SafeOwn(s, a);
    }
  }

  lemma SafeOwn(s: State, a: Step)
    requires Inv(s) && Enabled(s, a) && Touches(s, a).Some? && !a.ReaperSend? && !a.ReaperDrop?
    ensures Touches(s, a) == Some(s.calls[a.c].addr) && Live(s, a.c)
    ensures a.ActorSend? ==> s.heap[s.calls[a.c].addr].chan == []
  {
    assert CallOk(s, a.c);
  }

  /** What a step changes in the heap it touches, or has just allocated. */
  lemma TouchesChanges(s: State, a: Step, b: nat)
    requires Enabled(s, a) && Touches(s, a) != Some(b) && !(a.Begin? && a.addr == b)
    ensures (b in Do(s, a).heap <==> b in s.heap) && (b in s.heap ==> Do(s, a).heap[b] == s.heap[b])
  {
    if OnRecord(a) { RecordChanges(s, a, b); }
  }

  lemma RecordChanges(s: State, a: Step, b: nat)
    requires Enabled(s, a) && OnRecord(a) && Touches(s, a) != Some(b)
    ensures (b in Do(s, a).heap <==> b in s.heap) && (b in s.heap ==> Do(s, a).heap[b] == s.heap[b])
  {
  }

  /** From taking a slot to dropping its reference, the reaper's record stays allocated, to the same call. */
  lemma ReaperKeepsItsCall(run: seq<State>, steps: seq<Step>, i: nat)
    requires IsRun(run, steps) && i < |steps| && run[i].reaper != Idle && steps[i] != ReaperDrop
    ensures var r := run[i + 1].reaper;
            r != Idle && r.addr == run[i].reaper.addr && r.call == run[i].reaper.call
            && r.addr in run[i + 1].heap && run[i + 1].heap[r.addr].call == r.call
  {
    RunsKeepInv(run, steps, i + 1);
  }

  /** The count of an allocated record is the number of its holders. A call gets at most one reply, exactly one if its
      message was sent and it is done, and none is in its channel twice. Its record is freed at most once, and is freed
      once nobody holds it. */
  lemma CallsComplete(run: seq<State>, steps: seq<Step>, i: nat, c: nat)
    requires IsRun(run, steps) && i < |run| && c in run[i].calls
    ensures var s := run[i]; var v := ViewOf(s, c);
            && (Live(s, c) ==> s.heap[v.call.addr].ref == Holders(v) && |s.heap[v.call.addr].chan| <= 1)
            && v.call.sent <= 1 && v.call.got <= v.call.sent && v.call.frees <= 1
            && (v.call.caller == Done && v.call.msg != Unsent ==> v.call.got == 1 && v.call.result.Some?)
            && (v.call.msg == Unsent ==> v.call.got == 0)
            && (Holders(v) == 0 <==> v.call.frees == 1)
            && (v.call.frees == 1 <==> !Live(s, c))
  {
    RunsKeepInv(run, steps, i);
    assert CallOk(run[i], c);
  }

  // ---------- Progress ----------

  /** There is always one answer to the search for a slot. */
  lemma FindsOne(s: State, addr: nat) returns (hit: Option<nat>)
    ensures Finds(s, addr, hit)
  {
    if Slots(s, addr) == {} {
      hit := None;
    } else {
      var k := Least(Slots(s, addr));
      hit := Some(k);
    }
  }

  lemma {:induction false} Least(ks: set<nat>) returns (k: nat)
    requires ks != {}
    ensures k in ks && forall j :: j in ks ==> k <= j
    decreases |ks|
  {
    var first :| first in ks;
    var rest := ks - {first};
    assert forall j :: j in ks ==> j == first || j in rest;
    k := first;
    if rest != {} {
      var l := Least(rest);
      if l < first { k := l; }
    }
  }

  /** A call is turned away exactly if 512 others are in the table. */
  lemma NoRoomIff(s: State, c: nat)
    requires Inv(s)
    ensures Enabled(s, NoRoom(c)) <==> c in s.calls && s.calls[c].caller == Retained && |s.table| == 512
  {
    Graphs.Indices(512);
    var all := Graphs.UpTo(512);
    forall k | k in s.table ensures k in all { assert SlotOk(s, k); }
    assert |s.table| == |s.table.Keys|;
    if forall j :: 0 <= j < 512 ==> j in s.table {
      assert s.table.Keys == all;
    } else {
      var j :| 0 <= j < 512 && j !in s.table;
      Graphs.SubsetSize(s.table.Keys, all - {j});
    }
  }

  /** A step the caller of c makes. */
  predicate OfCaller(a: Step, c: nat) {
    && (a.Retain? || a.Insert? || a.NoRoom? || a.DropFull? || a.SendOk? || a.SendFail? || a.Receive? || a.CallerTake?
        || a.CallerDrop? || a.CallerLast?)
    && a.c == c
  }

  /** How many steps a caller has to go at most. */
  function Ahead(p: Caller): nat {
    match p
    case Fresh => 7
    case Retained => 6
    case Registered => 5
    case Waiting => 4
    case FailTaking => 3
    case Got => 3
    case Full => 2
    case FailTaken(_) => 2
    case GotTaken(_) => 2
    case Done => 0
    case _ => 1
  }

  /** The first slot that is free. */
  lemma FreeSlot(s: State) returns (slot: nat)
    ensures slot <= MAX_PENDING && forall j :: 0 <= j < slot ==> j in s.table
    ensures slot < MAX_PENDING ==> slot !in s.table
  {
    slot := 0;
    while slot < MAX_PENDING && slot in s.table
      invariant slot <= MAX_PENDING && forall j :: 0 <= j < slot ==> j in s.table
    {
      slot := slot + 1;
    }
  }

  /** A caller that is not done, and does not wait for a reply, can make its next step. */
  lemma CallerCanGo(s: State, c: nat) returns (a: Step)
    requires Inv(s) && c in s.calls && s.calls[c].caller != Done
    requires s.calls[c].caller == Waiting && Live(s, c) ==> s.heap[s.calls[c].addr].chan != []
    ensures Enabled(s, a) && OfCaller(a, c)
  {
    assert CallOk(s, c) && Live(s, c);
    match s.calls[c].caller
    case Fresh => a := Retain(c);
    case Retained =>
      var slot := FreeSlot(s);
      a := if slot == MAX_PENDING then NoRoom(c) else Insert(c, slot);
    case Registered => a := SendOk(c);
    case Waiting => a := Receive(c);
    case Full => a := DropFull(c);
    case FailTaking => a := TakeStep(s, c);
    case Got => a := TakeStep(s, c);
    case FailTaken(_) => a := CallerDrop(c);
    case GotTaken(_) => a := CallerDrop(c);
    case _ => a := CallerLast(c);
  }

  lemma TakeStep(s: State, c: nat) returns (a: Step)
    requires c in s.calls && (s.calls[c].caller == FailTaking || s.calls[c].caller == Got)
    ensures Enabled(s, a) && OfCaller(a, c)
  {
    var hit := FindsOne(s, s.calls[c].addr);
    a := CallerTake(c, hit);
  }

  /** And every step takes it nearer to its return: at most seven lead there. */
  lemma CallerAdvances(s: State, a: Step, c: nat)
    requires Enabled(s, a) && c in s.calls && OfCaller(a, c)
    ensures c in Do(s, a).calls && Ahead(Do(s, a).calls[c].caller) < Ahead(s.calls[c].caller)
  {
    if a.DropFull? || a.CallerDrop? || a.CallerLast? {
      var next := SetCaller(s, c, Dropped(s.calls[c].caller));
      assert Do(s, a) == next || Do(s, a) == Release(next, s.calls[c].addr);
      ReleaseKeepsCaller(next, s.calls[c].addr, c);
    }
  }

  lemma ReleaseKeepsCaller(s: State, addr: nat, c: nat)
    requires c in s.calls
    ensures c in Release(s, addr).calls && Release(s, addr).calls[c].caller == s.calls[c].caller
  {
  }

  /** An actor that is alive can take the next step of a call it was sent, until it has replied. */
  lemma ActorCanGo(s: State, c: nat) returns (a: Step)
    requires Inv(s) && c in s.calls && s.calls[c].actor !in s.dead
    requires s.calls[c].msg != Unsent && s.calls[c].msg != Finished
    ensures Enabled(s, a) && (a.ActorReceive? || a.ActorTake? || a.ActorSend? || a.ActorDrop?) && a.c == c
  {
    match s.calls[c].msg
    case Queued => a := ActorReceive(c);
    case Held =>
      var hit := FindsOne(s, s.calls[c].addr);
      a := ActorTake(c, hit);
    case Replying(_) => a := ActorSend(c, 0);
    case _ => a := ActorDrop(c);
  }

  // ---------- Which reply ----------

  /** The step sends r to call c: its actor's answer, or the reaper's failure after it took the call's slot. */
  ghost predicate Sends(s: State, a: Step, c: nat, r: Reply) {
    || (a.ActorSend? && a.c == c && r == Answer(a.value))
    || (a.ReaperSend? && s.reaper.Took? && s.reaper.call == c && r == Failure)
  }

  /** One of the first i steps of the run sends r to c. */
  ghost predicate WasSent(run: seq<State>, steps: seq<Step>, i: nat, c: nat, r: Reply)
    requires i <= |run| && i <= |steps|
  {
    exists j :: 0 <= j < i && Sends(run[j], steps[j], c, r)
  }

  ghost predicate IsReply(s: State, c: nat, r: Reply) {
    c in s.calls && s.calls[c].reply == Some(r)
  }

  lemma SendNow(s: State, a: Step, c: nat, r: Reply)
    requires Inv(s) && Enabled(s, a) && (a.ActorSend? || a.ReaperSend?)
    ensures IsReply(Do(s, a), c, r) <==> IsReply(s, c, r) || Sends(s, a, c, r)
  {
    if a.ReaperSend? { assert HeapOk(s, s.reaper.addr); }
    var d := if a.ActorSend? then a.c else s.reaper.call;
    assert CallOk(s, d) && Live(s, d);
  }

  lemma ReplyNow(s: State, a: Step, c: nat, r: Reply)
    requires Inv(s) && Enabled(s, a)
    ensures IsReply(Do(s, a), c, r) <==> IsReply(s, c, r) || Sends(s, a, c, r)
  {
    if a.ActorSend? || a.ReaperSend? { SendNow(s, a, c, r); } else if OnRecord(a) { ReleaseSendsNone(s, a, c, r); }
  }

  lemma ReleaseSendsNone(s: State, a: Step, c: nat, r: Reply)
    requires Enabled(s, a) && OnRecord(a) && !a.ActorSend? && !a.ReaperSend?
    ensures IsReply(Do(s, a), c, r) <==> IsReply(s, c, r)
  {
  }

  lemma {:induction false} ReplyIff(run: seq<State>, steps: seq<Step>, i: nat, c: nat, r: Reply)
    requires IsRun(run, steps) && i < |run|
    ensures IsReply(run[i], c, r) <==> WasSent(run, steps, i, c, r)
  {
    if i > 0 {
      ReplyIff(run, steps, i - 1, c, r);
      RunsKeepInv(run, steps, i - 1);
      ReplyNow(run[i - 1], steps[i - 1], c, r);
      assert run[i - 1 + 1] == Do(run[i - 1], steps[i - 1]);
    }
  }

  /** What a caller has received, or finds in its channel, is what its actor or the reaper sent to that very call; it is
      an answer exactly if the actor has replied. */
  lemma ResultIff(run: seq<State>, steps: seq<Step>, i: nat, c: nat, r: Reply)
    requires IsRun(run, steps) && i < |run| && c in run[i].calls
    ensures var s, call := run[i], run[i].calls[c];
            && (call.result == Some(r) <==> call.got == 1 && WasSent(run, steps, i, c, r))
            && (Live(s, c) && r in s.heap[call.addr].chan ==> WasSent(run, steps, i, c, r))
            && (r.Answer? && WasSent(run, steps, i, c, r) ==> call.msg.Replied? || call.msg.Finished?)
            && (r.Failure? && WasSent(run, steps, i, c, r) ==> !call.msg.Replied? && !call.msg.Finished?)
  {
    ReplyIff(run, steps, i, c, r);
    RunsKeepInv(run, steps, i);
    assert CallOk(run[i], c);
  }

  /** An actor that has replied has sent its answer. */
  lemma RepliedAnswers(run: seq<State>, steps: seq<Step>, i: nat, c: nat) returns (r: Reply)
    requires IsRun(run, steps) && i < |run| && c in run[i].calls
    requires run[i].calls[c].msg.Replied? || run[i].calls[c].msg.Finished?
    ensures r.Answer? && WasSent(run, steps, i, c, r)
  {
    RunsKeepInv(run, steps, i);
    assert CallOk(run[i], c);
    r := run[i].calls[c].reply.value;
    ReplyIff(run, steps, i, c, r);
  }

  /** The failure reply comes only after the actor's death: a call to an actor that lives never gets it. */
  lemma FailureNeedsDeath(run: seq<State>, steps: seq<Step>, i: nat, c: nat)
    requires IsRun(run, steps) && i < |run| && c in run[i].calls && WasSent(run, steps, i, c, Failure)
    ensures run[i].calls[c].actor in run[i].dead
  {
    ResultIff(run, steps, i, c, Failure);
    ReplyIff(run, steps, i, c, Failure);
    RunsKeepInv(run, steps, i);
    assert CallOk(run[i], c);
  }

  // ---------- Waiting ----------

  /** The reply is in the channel, or someone is about to send it, or the actor is alive, or the reaper can take the
      call's slot once it is idle. */
  ghost predicate Served(s: State, c: nat)
    requires c in s.calls
  {
    || Enabled(s, Receive(c))
    || Enabled(s, ActorSend(c, 0))
    || (s.reaper == Took(s.calls[c].addr, c) && Enabled(s, ReaperSend))
    || s.calls[c].actor !in s.dead
    || exists k :: k in s.table && s.table[k] == Slot(s.calls[c].addr, s.calls[c].actor)
                   && (s.reaper == Idle ==> Enabled(s, ReaperTake(k)))
  }

  /** The reaper has the call and no memory for its reply. */
  ghost predicate Drops(s: State, a: Step, c: nat) {
    a == ReaperNoMemory && s.reaper != Idle && s.reaper.call == c
  }

  ghost predicate IsDropped(s: State, c: nat) {
    c in s.calls && s.calls[c].dropped
  }

  lemma DropsNow(s: State, a: Step, c: nat)
    requires Inv(s) && Enabled(s, a)
    ensures IsDropped(Do(s, a), c) <==> IsDropped(s, c) || Drops(s, a, c)
  {
    if a == ReaperNoMemory {
      assert HeapOk(s, s.reaper.addr);
    } else if OnRecord(a) {
      OnRecordDropsNone(s, a, c);
    }
  }

  /** Steps that release a record or put a reply. */
  predicate OnRecord(a: Step) {
    a.DropFull? || a.CallerDrop? || a.CallerLast? || a.ActorDrop? || a.ReaperDrop? || a.ActorSend? || a.ReaperSend?
  }

  lemma OnRecordDropsNone(s: State, a: Step, c: nat)
    requires Enabled(s, a) && OnRecord(a)
    ensures IsDropped(Do(s, a), c) <==> IsDropped(s, c)
  {
  }

  /** One of the first i steps of the run drops c. */
  ghost predicate WasDropped(run: seq<State>, steps: seq<Step>, i: nat, c: nat)
    requires i <= |run| && i <= |steps|
  {
    i > 0 && (WasDropped(run, steps, i - 1, c) || Drops(run[i - 1], steps[i - 1], c))
  }

  lemma {:induction false} DroppedIff(run: seq<State>, steps: seq<Step>, i: nat, c: nat)
    requires IsRun(run, steps) && i < |run|
    ensures IsDropped(run[i], c) <==> WasDropped(run, steps, i, c)
  {
    if i > 0 {
      DroppedIff(run, steps, i - 1, c);
      RunsKeepInv(run, steps, i - 1);
      DropsNow(run[i - 1], steps[i - 1], c);
      assert run[i - 1 + 1] == Do(run[i - 1], steps[i - 1]);
    }
  }

  /** The slots of a call, as its view and the reaper see them. */
  lemma SlottedIff(s: State, c: nat)
    requires Inv(s) && c in s.calls && Live(s, c)
    ensures ViewOf(s, c).slotted <==> exists k :: k in s.table && s.table[k] == Slot(s.calls[c].addr, s.calls[c].actor)
  {
    SlotsKnown(s, c);
    assert forall k :: k in s.table && s.table[k].addr == s.calls[c].addr ==> k in Slots(s, s.calls[c].addr);
    if Slots(s, s.calls[c].addr) != {} {
      var k :| k in Slots(s, s.calls[c].addr);
      assert s.table[k] == Slot(s.calls[c].addr, s.calls[c].actor);
    }
  }

  lemma ServedIff(s: State, c: nat)
    requires Inv(s) && c in s.calls && s.calls[c].caller == Waiting
    ensures Served(s, c) <==> !s.calls[c].dropped
  {
    assert CallOk(s, c) && Live(s, c);
    SlottedIff(s, c);
  }

  /** A waiting caller is served, if and only if the reaper did not run out of memory when it failed the call. */
  lemma WaitingIsServed(run: seq<State>, steps: seq<Step>, i: nat, c: nat)
    requires IsRun(run, steps) && i < |run| && c in run[i].calls && run[i].calls[c].caller == Waiting
    ensures Served(run[i], c) <==> !WasDropped(run, steps, i, c)
  {
    RunsKeepInv(run, steps, i);
    DroppedIff(run, steps, i, c);
    ServedIff(run[i], c);
  }

  /** Only its reply ends a caller's wait. */
  lemma StaysWaiting(s: State, a: Step, c: nat)
    requires Enabled(s, a) && c in s.calls && s.calls[c].caller == Waiting && a != Receive(c)
    ensures c in Do(s, a).calls && Do(s, a).calls[c].caller == Waiting
  {
    if OnRecord(a) { OnRecordStays(s, a, c); }
  }

  lemma OnRecordStays(s: State, a: Step, c: nat)
    requires Enabled(s, a) && OnRecord(a) && c in s.calls && s.calls[c].caller == Waiting
    ensures c in Do(s, a).calls && Do(s, a).calls[c].caller == Waiting
  {
  }

  /** A caller that is not served waits for ever: no step of anyone changes that. */
  lemma DroppedWaits(s: State, a: Step, c: nat)
    requires Inv(s) && Enabled(s, a) && c in s.calls && s.calls[c].caller == Waiting && !Served(s, c)
    ensures c in Do(s, a).calls && Do(s, a).calls[c].caller == Waiting && !Served(Do(s, a), c)
  {
    ServedIff(s, c);
    assert !Enabled(s, Receive(c));
    StaysWaiting(s, a, c);
    DropsNow(s, a, c);
    StepKeepsInv(s, a);
    ServedIff(Do(s, a), c);
  }

  // ---------- A run that does happen ----------

  ghost predicate Reachable(s: State) {
    forall z {:trigger Look(z)} :: Look(z) ==> exists run, steps :: IsRun(run, steps) && run[|steps|] == s
  }

  lemma ReachNext(s: State, a: Step, t: State)
    requires Reachable(s) && Enabled(s, a) && t == Do(s, a)
    ensures Reachable(t)
  {
    assert Look(0);
    var run, steps :| IsRun(run, steps) && run[|steps|] == s;
    RunNext(run, steps, a);
    assert (run + [t])[|steps + [a]|] == t;
  }

  lemma RunNext(run: seq<State>, steps: seq<Step>, a: Step)
    requires IsRun(run, steps) && Enabled(run[|steps|], a)
    ensures IsRun(run + [Do(run[|steps|], a)], steps + [a])
  {
    var t := Do(run[|steps|], a);
    forall i | 0 <= i < |steps + [a]|
      ensures Enabled((run + [t])[i], (steps + [a])[i]) && (run + [t])[i + 1] == Do((run + [t])[i], (steps + [a])[i])
    {
      if i < |steps| {
        assert run[i + 1] == Do(run[i], steps[i]);
      }
    }
  }

  /** A call to actor 5, with its record at address 7, that has got no reply. */
  function Fifth(caller: Caller, msg: Message, dropped: bool): Call {
    Call(7, 5, caller, msg, 0, 0, 0, dropped, None, None)
  }

  /** Call 1, with its record at address 7, has sent its message to actor 5. */
  lemma CallSent(s: State)
    requires s == State(map[1 := Fifth(Waiting, Queued, false)], map[7 := Record(2, [], 1)],
                        map[0 := Slot(7, 5)], Idle, {})
    ensures Reachable(s)
  {
    var s0 := State(map[], map[], map[], Idle, {});
    assert Reachable(s0) by { assert IsRun([s0], []); }
    var s1 := s0.(calls := map[1 := Fifth(Fresh, Unsent, false)], heap := map[7 := Record(1, [], 1)]);
    assert Reachable(s1) by { ReachNext(s0, Begin(1, 7, 5), s1); }
    var s2 := SetCaller(s1.(heap := s1.heap[7 := Record(2, [], 1)]), 1, Retained);
    assert Reachable(s2) by { ReachNext(s1, Retain(1), s2); }
    var s3 := SetCaller(s2.(table := s2.table[0 := Slot(7, 5)]), 1, Registered);
    assert Reachable(s3) by { ReachNext(s2, Insert(1, 0), s3); }
    var s4 := SetMsg(SetCaller(s3, 1, Waiting), 1, Queued);
    assert Reachable(s4) by { ReachNext(s3, SendOk(1), s4); }
    assert s4 == s;
  }

  /** The actor has died, and the reaper has taken the call. */
  lemma CallTaken(s: State)
    requires s == State(map[1 := Fifth(Waiting, Queued, false)], map[7 := Record(2, [], 1)], map[],
                        Took(7, 1), {5})
    ensures Reachable(s)
  {
    var s4 := State(map[1 := Fifth(Waiting, Queued, false)], map[7 := Record(2, [], 1)],
                    map[0 := Slot(7, 5)], Idle, {});
    CallSent(s4);
    var s5 := s4.(dead := {5});
    assert Reachable(s5) by { ReachNext(s4, Die(5), s5); }
    var s6 := s5.(reaper := Took(7, 1), table := map[]);
    assert Reachable(s6) by { ReachNext(s5, ReaperTake(0), s6); }
    assert s6 == s;
  }

  /** The actor dies, the reaper takes the call and has no memory for the reply: its caller is not served any more. */
  lemma ACallerCanWaitForEver(s: State)
    requires s == State(map[1 := Fifth(Waiting, Queued, true)], map[7 := Record(2, [], 1)], map[],
                        Told(7, 1), {5})
    ensures Reachable(s) && !Served(s, 1)
  {
    var s6 := State(map[1 := Fifth(Waiting, Queued, false)], map[7 := Record(2, [], 1)], map[],
                    Took(7, 1), {5});
    CallTaken(s6);
    assert s == s6.(reaper := Told(7, 1), calls := s6.calls[1 := s6.calls[1].(dropped := true)]);
    assert Reachable(s) by { ReachNext(s6, ReaperNoMemory, s); }
  }
}

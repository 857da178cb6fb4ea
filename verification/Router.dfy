/** A mailbox of the request router: submitters, an unregistering actor, and workers that start and stop on demand.
    The router lock is part of the state. Workers take requests without it, so a section that holds it is split wherever
    a worker could get in between: each ring operation and each read or write of the closed flag is a step. */
module Router {
  import opened Guards
  import opened Options

  const RING_SIZE: nat := 64
  const IDLE_TURNS: nat := 50

  /** Where a worker is. */
  datatype Worker =
    | Top                            // about to read closed at the loop head
    | Trying                         // about to take a request
    | IdleCheck(turn: nat)           // idle loop, about to read closed
    | IdleTry(turn: nat)             // idle loop, about to take a request
    | Woke(slot: Option<nat>)        // out of the idle loop, about to read closed again
    | Locking                        // about to look at the ring under the lock
    | Working(req: nat)              // has a request to complete
    | Sending(req: nat)              // in_flight is set, about to send the message to the actor
    | Awaiting(req: nat)             // about to receive from the mailbox's reply channel
    | Answering(req: nat, reply: Reply)   // about to clear in_flight and run the callback
    | Final                          // about to take the lock for the last time
    | Exited

  /** A reply: the actor's to a request, or "actor terminated". */
  datatype Reply = For(r: nat) | Terminated

  /** The messages the actor has not answered, the reply channel of capacity 1, and the in_flight flag. All workers of
      the mailbox share them. sent, dropped and posted log the messages sent, those an exiting actor left unanswered,
      and the number of replies that unregistering put into the channel. */
  datatype Mail = Mail(inbox: seq<nat>, chan: seq<Reply>, flight: bool, sent: set<nat>, dropped: seq<nat>, posted: nat)

  /** Who has the router lock, and how far that section is. */
  datatype Lock =
    | Free
    | Submitting(r: nat)             // the mailbox is open, r is about to be queued
    | Starting(r: nat)               // r is queued, running is set, a worker is about to be created
    | TakingBack(r: nat)             // no worker could be created and running is cleared again
    | Draining                       // the mailbox is closed, its requests are being called back

  /** calls counts how often a request's callback has run; lost holds the requests a worker took and dropped; missed
      those whose submitter gave up, but no longer found anything to take back. */
  datatype State = State(ring: seq<nat>, running: bool, closed: bool, lock: Lock, workers: map<nat, Worker>,
                         calls: map<nat, nat>, lost: set<nat>, missed: set<nat>, mail: Mail)

  datatype Step =
    | Refuse(r: nat)                 // no live channel, no table entry, or no memory: the callback runs at once
    | Submit(r: nat)
    | Queue
    | Start(w: nat)
    | StartFails
    | TakeBack
    | Unregister
    | Drain
    | Go(w: nat)                     // a worker's next unlocked step
    | Check(w: nat)                  // a worker's look at the ring under the lock
    | NoActor(w: nat)                // the table has no live entry for the request: its callback runs at once
    | Launch(w: nat)
    | Send(w: nat)
    | SendFails(w: nat)
    | Receive(w: nat)
    | Complete(w: nat)
    | Answer                         // the actor replies to its oldest message
    | ActorExits
    | Exit(w: nat, next: nat)        // the final locked section; next is the id of the worker it may create
    | ExitFails(w: nat)              // the final locked section, when the next worker cannot be created

  predicate Enabled(s: State, a: Step) {
    match a
    case Refuse(r) => r !in s.calls
    case Submit(r) => r !in s.calls && s.lock == Free
    case Queue => s.lock.Submitting?
    case Start(w) => s.lock.Starting? && w !in s.workers
    case StartFails => s.lock.Starting?
    case TakeBack => s.lock.TakingBack?
    case Unregister => s.lock == Free
    case Drain => s.lock == Draining
    case Go(w) =>
      w in s.workers && var p := s.workers[w]; p.Top? || p.Trying? || p.IdleCheck? || p.IdleTry? || p.Woke?
    case Check(w) => w in s.workers && s.workers[w] == Locking && s.lock == Free
    case NoActor(w) => w in s.workers && s.workers[w].Working?
    case Launch(w) => w in s.workers && s.workers[w].Working?
    case Send(w) => w in s.workers && s.workers[w].Sending?
    case SendFails(w) => w in s.workers && s.workers[w].Sending?
    case Receive(w) => w in s.workers && s.workers[w].Awaiting? && s.mail.chan != []
    case Complete(w) => w in s.workers && s.workers[w].Answering?
    case Answer => s.mail.inbox != [] && s.mail.chan == []
    case ActorExits => true
    case Exit(w, next) => w in s.workers && s.workers[w] == Final && s.lock == Free && next !in s.workers
    case ExitFails(w) => w in s.workers && s.workers[w] == Final && s.lock == Free && !s.closed && s.ring != []
  }

  function At(s: State, w: nat, p: Worker): State {
    s.(workers := s.workers[w := p])
  }

  function Called(s: State, r: nat): State {
    s.(calls := s.calls[r := (if r in s.calls then s.calls[r] else 0) + 1])
  }

  function Do(s: State, a: Step): State
    requires Enabled(s, a)
  {
    match a
    case Refuse(r) => Called(s, r)
    case Submit(r) => s.(closed := false, lock := Submitting(r), calls := s.calls[r := 0])
    case Queue =>
      var r := s.lock.r;
      if |s.ring| >= RING_SIZE then Called(s.(lock := Free), r)
      else if s.running then s.(ring := s.ring + [r], lock := Free)
      else s.(ring := s.ring + [r], lock := Starting(r), running := true)
    case Start(w) => At(s.(lock := Free), w, Top)
    case StartFails => s.(running := false, lock := TakingBack(s.lock.r))
    case TakeBack =>
      // the oldest request is taken from the ring, if there is one, and r's callback runs
      var r := s.lock.r;
      if s.ring == [] then Called(s.(lock := Free, missed := s.missed + {r}), r)
      else Called(s.(lock := Free, ring := s.ring[1..]), r)
    case Unregister => s.(closed := true, lock := Draining, mail := Posted(s.mail))
    case Drain => if s.ring == [] then s.(lock := Free) else Called(s.(ring := s.ring[1..]), s.ring[0])
    case Go(w) => Gone(s, w)
    case Check(w) => if s.ring == [] then At(s.(running := false), w, Final) else At(s, w, Top)
    case NoActor(w) => At(Called(s, s.workers[w].req), w, Top)
    case Complete(w) => At(Called(s.(mail := s.mail.(flight := false)), s.workers[w].req), w, Top)
    case Exit(w, next) =>
      if !s.closed && s.ring != [] then At(At(s.(running := true), w, Exited), next, Top)
      else At(s.(running := false), w, Exited)
    case ExitFails(w) => At(s.(running := true), w, Exited)
    case _ => Mailed(s, a)
  }

  /** Unregistering puts "actor terminated" into the reply channel if a request is in flight and there is room. */
  function Posted(m: Mail): Mail {
    if m.flight && m.chan == [] then m.(chan := [Terminated], posted := m.posted + 1) else m
  }

  /** The steps of the exchange with the actor. */
  function Mailed(s: State, a: Step): State
    requires Enabled(s, a)
  {
    var m := s.mail;
    match a
    case Launch(w) => At(s.(mail := m.(flight := true)), w, Sending(s.workers[w].req))
    case Send(w) =>
      var r := s.workers[w].req;
      At(s.(mail := m.(inbox := m.inbox + [r], sent := m.sent + {r})), w, Awaiting(r))
    case SendFails(w) => At(s, w, Answering(s.workers[w].req, Terminated))
    case Receive(w) => At(s.(mail := m.(chan := m.chan[1..])), w, Answering(s.workers[w].req, m.chan[0]))
    case Answer => s.(mail := m.(inbox := m.inbox[1..], chan := [For(m.inbox[0])]))
    case ActorExits => s.(mail := m.(inbox := [], dropped := m.dropped + m.inbox))
    case _ => s
  }

  function Gone(s: State, w: nat): State
    requires Enabled(s, Go(w))
  {
    match s.workers[w]
    case Top => At(s, w, if s.closed then Final else Trying)
    case Trying =>
      if s.ring == [] then At(s, w, IdleCheck(0)) else At(s.(ring := s.ring[1..]), w, Working(s.ring[0]))
    case IdleCheck(k) => At(s, w, if s.closed || k >= IDLE_TURNS then Woke(None) else IdleTry(k))
    case IdleTry(k) =>
      if s.ring == [] then At(s, w, IdleCheck(k + 1)) else At(s.(ring := s.ring[1..]), w, Woke(Some(s.ring[0])))
    case Woke(slot) =>
      if s.closed then At(s.(lost := s.lost + if slot.Some? then {slot.value} else {}), w, Final)
      else At(s, w, if slot.Some? then Working(slot.value) else Locking)
    case _ => s
  }

  // ---------- The invariant ----------

  /** The request a worker has in hand. */
  function Holds(p: Worker): Option<nat> {
    match p
    case Working(r) => Some(r)
    case Sending(r) => Some(r)
    case Awaiting(r) => Some(r)
    case Answering(r, _) => Some(r)
    case Woke(slot) => slot
    case _ => None
  }

  ghost predicate Held(s: State, w: nat, r: nat) {
    w in s.workers && Holds(s.workers[w]) == Some(r)
  }

  ghost predicate InHand(s: State, r: nat) {
    exists w :: Held(s, w, r)
  }

  /** Someone still owes r a callback, or has lost it. */
  ghost predicate Open(s: State, r: nat) {
    s.lock == Submitting(r) || r in s.ring || InHand(s, r) || r in s.lost
  }

  predicate Pledged(l: Lock, r: nat) {
    l == Submitting(r) || l == Starting(r) || l == TakingBack(r)
  }

  /** A request is in one place at a time and in one worker's hands; its callback has run once when it is in none, and
      once when its submitter missed it. */
  ghost predicate ReqOk(s: State, r: nat) {
    && (forall v, w :: Held(s, v, r) && Held(s, w, r) ==> v == w)
    && (InHand(s, r) ==> s.lock != Submitting(r) && r !in s.ring && r !in s.lost)
    && (r in s.ring ==> s.lock != Submitting(r) && r !in s.lost)
    && (r in s.lost ==> s.lock != Submitting(r))
    && (r in s.missed ==> r !in s.ring && !Pledged(s.lock, r))
    && (r in s.calls ==> s.calls[r] == One(r in s.missed) + One(!Open(s, r)))
    && (r !in s.calls ==> !Open(s, r) && !Pledged(s.lock, r) && r !in s.missed)
  }

  ghost predicate RingOk(s: State) {
    && |s.ring| <= RING_SIZE
    && (forall i, j :: 0 <= i < j < |s.ring| ==> s.ring[i] != s.ring[j])
  }

  /** What the lock protects. A submitter that starts a worker queued its request in an empty ring. */
  ghost predicate LockOk(s: State) {
    && (s.lock.Starting? || s.lock.TakingBack? ==> s.ring == [s.lock.r] || s.ring == [])
    && (s.lock.Starting? ==> s.running) && (s.lock.TakingBack? ==> !s.running)
    && (s.ring != [] && !s.lock.TakingBack? ==> s.running)
    && (s.closed && s.ring != [] ==> s.lock == Draining)
    && (s.closed ==> s.lock.Free? || s.lock.Draining?)
  }

  ghost predicate Inv(s: State) {
    && (forall r {:trigger ReqOk(s, r)} :: ReqOk(s, r))
    && RingOk(s) && LockOk(s)
  }

  // ---------- Every step keeps it ----------

  /** r is where it was. */
  ghost predicate Same(s: State, t: State, r: nat) {
    && (r in s.calls <==> r in t.calls) && (r in s.calls ==> s.calls[r] == t.calls[r])
    && (r in s.ring <==> r in t.ring) && (r in s.lost <==> r in t.lost) && (r in s.missed <==> r in t.missed)
    && (s.lock == Submitting(r) <==> t.lock == Submitting(r)) && (Pledged(t.lock, r) ==> Pledged(s.lock, r))
    && (forall w {:trigger Held(s, w, r)} {:trigger Held(t, w, r)} :: Held(s, w, r) <==> Held(t, w, r))
  }

  lemma SameKeeps(s: State, t: State, r: nat)
    requires ReqOk(s, r) && Same(s, t, r)
    ensures ReqOk(t, r)
  {
    assert InHand(s, r) <==> InHand(t, r);
  }

  /** Taking the oldest request out of the ring. */
  lemma TailOf(ring: seq<nat>)
    requires ring != [] && forall i, j :: 0 <= i < j < |ring| ==> ring[i] != ring[j]
    ensures forall q :: q in ring[1..] <==> q in ring && q != ring[0]
    ensures forall i, j :: 0 <= i < j < |ring| - 1 ==> ring[1..][i] != ring[1..][j]
  {
    assert ring == [ring[0]] + ring[1..];
  }

  /** A worker takes the oldest request. */
  lemma TakeKeeps(s: State, w: nat, p: Worker)
    requires Inv(s) && w in s.workers && Holds(s.workers[w]) == None && s.ring != [] && Holds(p) == Some(s.ring[0])
    ensures Inv(At(s.(ring := s.ring[1..]), w, p))
  {
    var t := At(s.(ring := s.ring[1..]), w, p);
    var r0 := s.ring[0];
    TailOf(s.ring);
    assert ReqOk(s, r0) && Held(t, w, r0);
    forall v | Held(t, v, r0) ensures v == w { assert v != w ==> Held(s, v, r0); }
    forall r: nat ensures ReqOk(t, r) {
      assert ReqOk(s, r);
      if r != r0 { SameKeeps(s, t, r); }
    }
  }

  /** A worker that holds r lets go of it, because it was called back or lost. */
  lemma LetGoKeeps(s: State, t: State, w: nat, r: nat)
    requires Inv(s) && Held(s, w, r) && w in t.workers && Holds(t.workers[w]) == None && r in s.calls
    requires t == s.(workers := s.workers[w := t.workers[w]], calls := t.calls, lost := t.lost, mail := t.mail)
    requires || (t.calls == s.calls[r := s.calls[r] + 1] && t.lost == s.lost)
             || (t.calls == s.calls && t.lost == s.lost + {r})
    ensures Inv(t)
  {
    assert ReqOk(s, r);
    forall v ensures !Held(t, v, r) { assert v != w ==> !Held(s, v, r); }
    forall q: nat ensures ReqOk(t, q) {
      assert ReqOk(s, q);
      if q != r { SameKeeps(s, t, q); }
    }
  }

  /** A step that leaves every request where it is. */
  lemma MoveKeeps(s: State, t: State)
    requires Inv(s)
    requires t == s.(workers := t.workers, running := t.running, closed := t.closed, lock := t.lock, mail := t.mail)
    requires forall w, r {:trigger Held(t, w, r)} :: Held(s, w, r) <==> Held(t, w, r)
    requires forall r :: t.lock == Submitting(r) <==> s.lock == Submitting(r)
    requires forall r :: Pledged(t.lock, r) ==> Pledged(s.lock, r)
    requires LockOk(t)
    ensures Inv(t)
  {
    forall r: nat ensures ReqOk(t, r) {
      assert ReqOk(s, r);
      SameKeeps(s, t, r);
    }
  }

  lemma GoKeepsInv(s: State, w: nat)
    requires Inv(s) && Enabled(s, Go(w))
    ensures Inv(Do(s, Go(w)))
  {
    var t := Do(s, Go(w));
    match s.workers[w]
    case Top => MoveKeeps(s, t);
    case Trying => if s.ring == [] { MoveKeeps(s, t); } else { TakeKeeps(s, w, Working(s.ring[0])); }
    case IdleCheck(_) => MoveKeeps(s, t);
    case IdleTry(_) => if s.ring == [] { MoveKeeps(s, t); } else { TakeKeeps(s, w, Woke(Some(s.ring[0]))); }
    case Woke(slot) =>
      if s.closed && slot.Some? {
        assert ReqOk(s, slot.value) && Held(s, w, slot.value);
        LetGoKeeps(s, t, w, slot.value);
      } else {
        assert t.lost == s.lost;
        MoveKeeps(s, t);
      }
  }

  lemma CompleteKeepsInv(s: State, a: Step)
    requires Inv(s) && Enabled(s, a) && (a.Complete? || a.NoActor?)
    ensures Inv(Do(s, a))
  {
    var r := s.workers[a.w].req;
    assert Held(s, a.w, r) && ReqOk(s, r);
    LetGoKeeps(s, Do(s, a), a.w, r);
  }

  /** The exchange with the actor moves no request. */
  lemma MailedKeepsInv(s: State, a: Step)
    requires Inv(s) && Enabled(s, a) && Mailing(a)
    ensures Inv(Do(s, a))
  {
    MoveKeeps(s, Do(s, a));
  }

  predicate Mailing(a: Step) {
    a.Launch? || a.Send? || a.SendFails? || a.Receive? || a.Answer? || a.ActorExits?
  }

  /** The locked steps that leave the ring alone. */
  lemma LockedKeepsInv(s: State, a: Step)
    requires Inv(s) && Enabled(s, a)
    requires a.Check? || a.Exit? || a.ExitFails? || a.Start? || a.StartFails? || a.Unregister?
    ensures Inv(Do(s, a))
  {
    MoveKeeps(s, Do(s, a));
  }

  lemma SubmitKeepsInv(s: State, a: Step)
    requires Inv(s) && Enabled(s, a) && (a.Refuse? || a.Submit?)
    ensures Inv(Do(s, a))
  {
    var t := Do(s, a);
    forall r: nat ensures ReqOk(t, r) {
      assert ReqOk(s, r);
      if r != a.r { SameKeeps(s, t, r); }
      assert forall w :: Held(s, w, r) <==> Held(t, w, r);
    }
  }

  /** The submitted request gets a place in the ring. */
  lemma RoomKeeps(s: State, t: State, r0: nat)
    requires Inv(s) && s.lock == Submitting(r0) && |s.ring| < RING_SIZE && t.lock != Submitting(r0)
    requires t == s.(ring := s.ring + [r0], running := t.running, lock := t.lock)
    requires LockOk(t) && (t.lock == Free || t.lock == Starting(r0))
    ensures Inv(t)
  {
    assert ReqOk(s, r0) && t.ring[|s.ring|] == r0;
    assert forall q {:trigger q in t.ring} :: q in t.ring <==> q in s.ring || q == r0;
    forall r: nat ensures ReqOk(t, r) {
      assert ReqOk(s, r);
      assert forall w :: Held(s, w, r) <==> Held(t, w, r);
      if r != r0 { SameKeeps(s, t, r); }
    }
  }

  lemma QueueKeepsInv(s: State)
    requires Inv(s) && Enabled(s, Queue)
    ensures Inv(Do(s, Queue))
  {
    var t := Do(s, Queue);
    assert ReqOk(s, s.lock.r);
    if |s.ring| < RING_SIZE {
      RoomKeeps(s, t, s.lock.r);
    } else {
      forall r: nat ensures ReqOk(t, r) {
        assert ReqOk(s, r);
        assert forall w :: Held(s, w, r) <==> Held(t, w, r);
        if r != s.lock.r { SameKeeps(s, t, r); }
      }
    }
  }

  /** Taking back what was queued, or missing it. */
  lemma TakeBackKeepsInv(s: State)
    requires Inv(s) && Enabled(s, TakeBack)
    ensures Inv(Do(s, TakeBack))
  {
    var t := Do(s, TakeBack);
    assert ReqOk(s, s.lock.r);
    forall r: nat ensures ReqOk(t, r) {
      assert ReqOk(s, r);
      assert forall w :: Held(s, w, r) <==> Held(t, w, r);
      if r != s.lock.r { SameKeeps(s, t, r); }
    }
  }

  lemma DrainKeepsInv(s: State)
    requires Inv(s) && Enabled(s, Drain)
    ensures Inv(Do(s, Drain))
  {
    var t := Do(s, Drain);
    if s.ring == [] {
      MoveKeeps(s, t);
    } else {
      TailOf(s.ring);
      forall r: nat ensures ReqOk(t, r) {
        assert ReqOk(s, r);
        assert forall w :: Held(s, w, r) <==> Held(t, w, r);
        if r != s.ring[0] { SameKeeps(s, t, r); }
      }
    }
  }

  lemma StepKeepsInv(s: State, a: Step)
    requires Inv(s) && Enabled(s, a)
    ensures Inv(Do(s, a))
  {
    match a
    case Refuse(_) => SubmitKeepsInv(s, a);
    case Submit(_) => SubmitKeepsInv(s, a);
    case Queue => QueueKeepsInv(s);
    case TakeBack => TakeBackKeepsInv(s);
    case Drain => DrainKeepsInv(s);
    case Go(w) => GoKeepsInv(s, w);
    case NoActor(_) => CompleteKeepsInv(s, a);
    case Complete(_) => CompleteKeepsInv(s, a);
    case Launch(_) => MailedKeepsInv(s, a);
    case Send(_) => MailedKeepsInv(s, a);
    case SendFails(_) => MailedKeepsInv(s, a);
    case Receive(_) => MailedKeepsInv(s, a);
    case Answer => MailedKeepsInv(s, a);
    case ActorExits => MailedKeepsInv(s, a);
    case _ => LockedKeepsInv(s, a);
  }

  // ---------- Every run ----------

  const NO_MAIL: Mail := Mail([], [], false, {}, [], 0)

  const START: State := State([], false, false, Free, map[], map[], {}, {}, NO_MAIL)

  ghost predicate IsRun(run: seq<State>, steps: seq<Step>) {
    && |run| == |steps| + 1 && run[0] == START
    && forall i :: 0 <= i < |steps| ==> Enabled(run[i], steps[i]) && run[i + 1] == Do(run[i], steps[i])
  }

  lemma {:induction false} RunsKeepInv(run: seq<State>, steps: seq<Step>, i: nat)
    requires IsRun(run, steps) && i < |run|
    ensures Inv(run[i])
  {
    if i > 0 {
      RunsKeepInv(run, steps, i - 1);
      StepKeepsInv(run[i - 1], steps[i - 1]);
      assert run[i - 1 + 1] == run[i];
    }
  }

  // ---------- How often a callback runs ----------

  /** The submitter of r gives up and finds the ring empty: a worker has taken r in the meantime. */
  ghost predicate Misses(s: State, a: Step, r: nat) {
    a == TakeBack && s.lock == TakingBack(r) && s.ring == []
  }

  /** A worker took r in its idle loop and finds the mailbox closed. */
  ghost predicate Loses(s: State, a: Step, r: nat) {
    a.Go? && s.closed && a.w in s.workers && s.workers[a.w] == Woke(Some(r))
  }

  ghost predicate Missed(run: seq<State>, steps: seq<Step>, i: nat, r: nat)
    requires i <= |run| && i <= |steps|
  {
    exists j :: 0 <= j < i && Misses(run[j], steps[j], r)
  }

  ghost predicate Lost(run: seq<State>, steps: seq<Step>, i: nat, r: nat)
    requires i <= |run| && i <= |steps|
  {
    exists j :: 0 <= j < i && Loses(run[j], steps[j], r)
  }

  lemma LogsNow(s: State, a: Step, r: nat)
    requires Enabled(s, a)
    ensures r in Do(s, a).missed <==> r in s.missed || Misses(s, a, r)
    ensures r in Do(s, a).lost <==> r in s.lost || Loses(s, a, r)
  {
    if a.Go? { GoLogs(s, a.w, r); } else if Mailing(a) { MailedLogs(s, a); } else { OtherLogs(s, a); }
  }

  lemma GoLogs(s: State, w: nat, r: nat)
    requires Enabled(s, Go(w))
    ensures Gone(s, w).missed == s.missed && (r in Gone(s, w).lost <==> r in s.lost || Loses(s, Go(w), r))
  {
  }

  lemma MailedLogs(s: State, a: Step)
    requires Enabled(s, a)
    ensures Mailed(s, a).missed == s.missed && Mailed(s, a).lost == s.lost
  {
  }

  lemma OtherLogs(s: State, a: Step)
    requires Enabled(s, a) && !a.Go? && !Mailing(a)
    ensures Do(s, a).lost == s.lost
    ensures Do(s, a).missed == s.missed + if a.TakeBack? && s.ring == [] then {s.lock.r} else {}
  {
  }

  lemma {:induction false} MissedIff(run: seq<State>, steps: seq<Step>, i: nat, r: nat)
    requires IsRun(run, steps) && i < |run|
    ensures r in run[i].missed <==> Missed(run, steps, i, r)
  {
    if i > 0 {
      MissedIff(run, steps, i - 1, r);
      LogsNow(run[i - 1], steps[i - 1], r);
      assert run[i - 1 + 1] == Do(run[i - 1], steps[i - 1]);
    }
  }

  lemma {:induction false} LostLog(run: seq<State>, steps: seq<Step>, i: nat, r: nat)
    requires IsRun(run, steps) && i < |run|
    ensures r in run[i].lost <==> Lost(run, steps, i, r)
  {
    if i > 0 {
      LostLog(run, steps, i - 1, r);
      LogsNow(run[i - 1], steps[i - 1], r);
      assert run[i - 1 + 1] == Do(run[i - 1], steps[i - 1]);
    }
  }

  /** The callback of r has run once if nobody owes it any more, and once more if its submitter gave up too late. It
      runs twice in exactly that case, and never three times. */
  lemma CallbackCount(run: seq<State>, steps: seq<Step>, i: nat, r: nat)
    requires IsRun(run, steps) && i < |run| && r in run[i].calls
    ensures run[i].calls[r] == One(Missed(run, steps, i, r)) + One(!Open(run[i], r))
  {
    RunsKeepInv(run, steps, i);
    MissedIff(run, steps, i, r);
    assert ReqOk(run[i], r);
  }

  // ---------- The order of the ring ----------

  /** The request a step puts into the ring, if any. */
  ghost function Queues(s: State, a: Step): seq<nat> {
    if a == Queue && s.lock.Submitting? && |s.ring| < 64 then [s.lock.r] else []
  }

  /** The requests the first i steps put into the ring, in order. */
  ghost function Queued(run: seq<State>, steps: seq<Step>, i: nat): seq<nat>
    requires i <= |run| && i <= |steps|
  {
    if i == 0 then [] else Queued(run, steps, i - 1) + Queues(run[i - 1], steps[i - 1])
  }

  lemma RingNow(s: State, a: Step) returns (k: nat)
    requires Enabled(s, a) && |s.ring| <= 64
    ensures k <= |s.ring| && k <= 1 && Do(s, a).ring == s.ring[k..] + Queues(s, a) && |Do(s, a).ring| <= 64
  {
    k := if |Do(s, a).ring| < |s.ring| then 1 else 0;
    if a.Go? { RingGone(s, a.w); } else if Mailing(a) { RingMailed(s, a); } else { RingOther(s, a); }
  }

  lemma RingGone(s: State, w: nat)
    requires Enabled(s, Go(w))
    ensures Gone(s, w).ring == s.ring || (s.ring != [] && Gone(s, w).ring == s.ring[1..])
  {
  }

  lemma RingMailed(s: State, a: Step)
    requires Enabled(s, a)
    ensures Mailed(s, a).ring == s.ring
  {
  }

  lemma RingOther(s: State, a: Step)
    requires Enabled(s, a) && !a.Go? && !Mailing(a)
    ensures || Do(s, a).ring == s.ring + Queues(s, a)
            || (s.ring != [] && Do(s, a).ring == s.ring[1..] && Queues(s, a) == [])
  {
  }

  /** Over every run the ring holds the requests that were queued last, in order: none leaves before an older one. It
      never holds more than 64. */
  lemma {:induction false} RingIsFifo(run: seq<State>, steps: seq<Step>, i: nat) returns (k: nat)
    requires IsRun(run, steps) && i < |run|
    ensures k <= |Queued(run, steps, i)| && run[i].ring == Queued(run, steps, i)[k..] && |run[i].ring| <= 64
  {
    k := 0;
    if i > 0 {
      k := RingIsFifo(run, steps, i - 1);
      var s, a, log := run[i - 1], steps[i - 1], Queued(run, steps, i - 1);
      var j := RingNow(s, a);
      assert run[i - 1 + 1] == Do(s, a);
      assert log[k..][j..] + Queues(s, a) == (log + Queues(s, a))[k + j..];
      k := k + j;
    }
  }

  // ---------- Progress ----------

  predicate OfWorker(a: Step, w: nat) {
    && (a.Go? || a.Check? || a.NoActor? || a.Launch? || a.Send? || a.Receive? || a.Complete? || a.Exit?)
    && a.w == w
  }

  /** A worker that has not exited can make its next step, unless it waits for the lock or for a reply. */
  lemma WorkerCanGo(s: State, w: nat, next: nat) returns (a: Step)
    requires w in s.workers && s.workers[w] != Exited && next !in s.workers
    requires s.workers[w] == Locking || s.workers[w] == Final ==> s.lock == Free
    requires s.workers[w].Awaiting? ==> s.mail.chan != []
    ensures Enabled(s, a) && OfWorker(a, w)
  {
    match s.workers[w]
    case Locking => a := Check(w);
    case Working(_) => a := Launch(w);
    case Sending(_) => a := Send(w);
    case Awaiting(_) => a := Receive(w);
    case Answering(_, _) => a := Complete(w);
    case Final => a := Exit(w, next);
    case _ => a := Go(w);
  }

  /** Whoever holds the lock can go on, and gives it back after finitely many steps: the mailbox is drained one by one. */
  lemma HolderCanGo(s: State) returns (a: Step)
    requires s.lock != Free
    ensures Enabled(s, a) && HoldsFor(Do(s, a)) < HoldsFor(s)
  {
    match s.lock
    case Submitting(_) => a := Queue;
    case Starting(_) => a := StartFails;
    case TakingBack(_) => a := TakeBack;
    case Draining => a := Drain;
  }

  /** How many more steps the lock may be held. */
  function HoldsFor(s: State): nat {
    match s.lock
    case Free => 0
    case Submitting(_) => 3
    case Starting(_) => 2
    case TakingBack(_) => 1
    case Draining => 1 + |s.ring|
  }

  // ---------- Forgotten requests ----------

  /** A request is forgotten: no queue, worker or submitter has it, and no worker has run its callback. */
  ghost predicate Forgotten(run: seq<State>, steps: seq<Step>, i: nat, r: nat)
    requires i < |run| && i <= |steps| && r in run[i].calls
  {
    && run[i].calls[r] == One(Missed(run, steps, i, r))
    && run[i].lock != Submitting(r) && r !in run[i].ring && !InHand(run[i], r)
  }

  /** That happens in exactly one way: an idle worker took the request and then found the mailbox closed. */
  lemma ForgottenIff(run: seq<State>, steps: seq<Step>, i: nat, r: nat)
    requires IsRun(run, steps) && i < |run| && r in run[i].calls
    ensures Forgotten(run, steps, i, r) <==> Lost(run, steps, i, r)
  {
    RunsKeepInv(run, steps, i);
    CallbackCount(run, steps, i, r);
    LostLog(run, steps, i, r);
    assert ReqOk(run[i], r);
  }

  /** Only a worker that could not be created makes a submitter take its request back. */
  lemma {:induction false} NoTakeBack(run: seq<State>, steps: seq<Step>, i: nat)
    requires IsRun(run, steps) && i < |run| && forall j :: 0 <= j < i ==> !steps[j].StartFails?
    ensures !run[i].lock.TakingBack?
  {
    if i > 0 {
      NoTakeBack(run, steps, i - 1);
      LockNow(run[i - 1], steps[i - 1]);
      assert run[i - 1 + 1] == Do(run[i - 1], steps[i - 1]);
    }
  }

  lemma LockNow(s: State, a: Step)
    requires Enabled(s, a) && !s.lock.TakingBack?
    ensures Do(s, a).lock.TakingBack? <==> a.StartFails?
  {
  }

  /** While every submitter that needs a worker gets one, no callback runs twice. */
  lemma OnceWhileStarted(run: seq<State>, steps: seq<Step>, i: nat, r: nat)
    requires IsRun(run, steps) && i < |run| && r in run[i].calls
    requires forall j :: 0 <= j < i ==> !steps[j].StartFails?
    ensures run[i].calls[r] <= 1
  {
    CallbackCount(run, steps, i, r);
    forall j | 0 <= j < i ensures !Misses(run[j], steps[j], r) { NoTakeBack(run, steps, j); }
  }

  /** No callback has run twice if and only if every request whose submitter gave up too late is still owed or lost. */
  lemma AtMostOnce(run: seq<State>, steps: seq<Step>, i: nat)
    requires IsRun(run, steps) && i < |run|
    ensures (forall r :: r in run[i].calls ==> run[i].calls[r] <= 1)
            <==> forall r :: Missed(run, steps, i, r) ==> Open(run[i], r)
  {
    RunsKeepInv(run, steps, i);
    forall r: nat
      ensures r in run[i].calls ==> (run[i].calls[r] <= 1 <==> Missed(run, steps, i, r) ==> Open(run[i], r))
      ensures Missed(run, steps, i, r) ==> r in run[i].calls
    {
      MissedIff(run, steps, i, r);
      assert ReqOk(run[i], r);
    }
  }

  ghost predicate NoneAlive(s: State) {
    forall w :: w in s.workers ==> s.workers[w] == Exited
  }

  /** A submitter that tries to start a worker, while no other worker is alive and its request is in the ring. */
  ghost predicate Alone(s: State) {
    (s.lock.Starting? || s.lock.TakingBack?) && NoneAlive(s) && s.ring == [s.lock.r]
  }

  /** It is alone from the moment it queues its request, if no worker is alive then. Until a worker is started nothing
      but its own take-back touches the ring, so that a failure undoes the submission and runs the callback once. */
  lemma AloneUndoes(s: State, a: Step)
    requires Inv(s) && Enabled(s, a)
    ensures a == Queue && NoneAlive(s) && !s.running ==> Alone(Do(s, a))
    ensures Alone(s) && !a.Start? && a != TakeBack ==> Alone(Do(s, a))
    ensures Alone(s) && a == TakeBack ==> Do(s, a) == s.(lock := Free, ring := [], calls := s.calls[s.lock.r := 1])
  {
    if Alone(s) { assert ReqOk(s, s.lock.r); }
  }

  // ---------- Wakeups ----------

  /** The flag says that a worker is running, and there is none. */
  ghost predicate Stuck(s: State) {
    s.running && !s.lock.Starting? && NoneAlive(s)
  }

  /** The last worker leaves, sees requests, and cannot create the next worker. */
  ghost predicate Strands(s: State, a: Step) {
    a.ExitFails? && forall v :: v in s.workers && v != a.w ==> s.workers[v] == Exited
  }

  lemma StuckBy(s: State, a: Step)
    requires Enabled(s, a) && !Stuck(s)
    requires s.running ==> s.lock.Starting? || !NoneAlive(s)
    ensures Stuck(Do(s, a)) <==> Strands(s, a)
  {
    var t := Do(s, a);
    if a.ExitFails? {
      assert forall v :: v in t.workers <==> v in s.workers;
      if !Strands(s, a) {
        var v :| v in s.workers && v != a.w && s.workers[v] != Exited;
        assert t.workers[v] != Exited;
      }
    } else if a.Go? || a.Complete? || a.NoActor? || a.Check? {
      assert t.workers[a.w] != Exited;
    } else if Mailing(a) && !a.Answer? && !a.ActorExits? {
      assert t.workers[a.w] != Exited;
    } else if a.Start? {
      assert t.workers[a.w] != Exited;
    } else if a.Exit? {
      if !s.closed && s.ring != [] { assert t.workers[a.next] != Exited; }
    }
  }

  /** Nothing ever gets a mailbox out of that state: no worker is started, and a queued request stays queued until the
      actor unregisters. */
  lemma StuckStays(s: State, a: Step)
    requires LockOk(s) && Enabled(s, a) && Stuck(s)
    ensures Stuck(Do(s, a)) && Do(s, a).workers == s.workers
    ensures a != Drain ==> s.ring <= Do(s, a).ring
  {
  }

  lemma {:induction false} StuckIff(run: seq<State>, steps: seq<Step>, i: nat)
    requires IsRun(run, steps) && i < |run|
    ensures Stuck(run[i]) <==> exists j :: 0 <= j < i && Strands(run[j], steps[j])
  {
    if i > 0 {
      StuckIff(run, steps, i - 1);
      RunsKeepInv(run, steps, i - 1);
      assert run[i - 1 + 1] == Do(run[i - 1], steps[i - 1]);
      if Stuck(run[i - 1]) {
        StuckStays(run[i - 1], steps[i - 1]);
      } else {
        StuckBy(run[i - 1], steps[i - 1]);
      }
    }
  }

  /** Whenever the lock is free, the requests in the ring have a worker that has not been through its last locked
      section, if and only if no worker was ever the last to leave and unable to create the next. The ring of a closed
      mailbox is empty. */
  lemma NoLostWakeup(run: seq<State>, steps: seq<Step>, i: nat)
    requires IsRun(run, steps) && i < |run| && run[i].lock == Free
    ensures run[i].ring != [] ==>
              (NoneAlive(run[i]) <==> exists j :: 0 <= j < i && Strands(run[j], steps[j]))
    ensures run[i].closed ==> run[i].ring == []
  {
    RunsKeepInv(run, steps, i);
    StuckIff(run, steps, i);
  }

  // ---------- Runs that do happen ----------

  ghost predicate Reachable(s: State) {
    forall z {:trigger Look(z)} :: Look(z) ==> exists run, steps :: IsRun(run, steps) && run[|steps|] == s
  }

  lemma ReachNext(s: State, a: Step, t: State)
    requires Reachable(s) && Enabled(s, a) && t == Do(s, a)
    ensures Reachable(t)
  {
    assert Look(0);
    var run, steps :| IsRun(run, steps) && run[|steps|] == s;
    RunNext(run, steps, a);
    assert (run + [t])[|steps + [a]|] == t;
  }

  lemma RunNext(run: seq<State>, steps: seq<Step>, a: Step)
    requires IsRun(run, steps) && Enabled(run[|steps|], a)
    ensures IsRun(run + [Do(run[|steps|], a)], steps + [a])
  {
    var t := Do(run[|steps|], a);
    forall i | 0 <= i < |steps + [a]|
      ensures Enabled((run + [t])[i], (steps + [a])[i]) && (run + [t])[i + 1] == Do((run + [t])[i], (steps + [a])[i])
    {
      if i < |steps| {
        assert run[i + 1] == Do(run[i], steps[i]);
      }
    }
  }

  /** An open mailbox with an empty ring and the lock free. */
  function Quiet(running: bool, workers: map<nat, Worker>, calls: map<nat, nat>): State {
    State([], running, false, Free, workers, calls, {}, {}, NO_MAIL)
  }

  /** A first request is queued, worker 10 is started for it and takes it. */
  lemma FirstTaken(s: State)
    requires s == Quiet(true, map[10 := Working(1)], map[1 := 0])
    ensures Reachable(s)
  {
    assert Reachable(START) by { assert IsRun([START], []); }
    var s1 := START.(lock := Submitting(1), calls := map[1 := 0]);
    assert Reachable(s1) by { ReachNext(START, Submit(1), s1); }
    var s2 := s1.(ring := [1], lock := Starting(1), running := true);
    assert Reachable(s2) by { ReachNext(s1, Queue, s2); }
    var s3 := At(s2.(lock := Free), 10, Top);
    assert Reachable(s3) by { ReachNext(s2, Start(10), s3); }
    var s4 := At(s3, 10, Trying);
    assert Reachable(s4) by { ReachNext(s3, Go(10), s4); }
    var s5 := At(s4.(ring := []), 10, Working(1));
    assert Reachable(s5) by { ReachNext(s4, Go(10), s5); }
    assert s5 == s;
  }

  /** It is done, and the worker enters its idle loop. */
  lemma FirstDone(s: State)
    requires s == Quiet(true, map[10 := IdleCheck(0)], map[1 := 1])
    ensures Reachable(s)
  {
    var s5 := Quiet(true, map[10 := Working(1)], map[1 := 0]);
    FirstTaken(s5);
    var s6 := At(Called(s5, 1), 10, Top);
    assert Reachable(s6) by { ReachNext(s5, NoActor(10), s6); }
    var s7 := At(s6, 10, Trying);
    assert Reachable(s7) by { ReachNext(s6, Go(10), s7); }
    var s8 := At(s7, 10, IdleCheck(0));
    assert Reachable(s8) by { ReachNext(s7, Go(10), s8); }
    assert s8 == s;
  }

  /** The worker may idle for any number of turns up to the limit. */
  lemma {:induction false} Idles(s: State, k: nat)
    requires s == Quiet(true, map[10 := IdleCheck(k)], map[1 := 1]) && k <= IDLE_TURNS
    ensures Reachable(s)
    decreases k
  {
    if k == 0 {
      FirstDone(s);
    } else {
      var s0 := Quiet(true, map[10 := IdleCheck(k - 1)], map[1 := 1]);
      Idles(s0, k - 1);
      var s1 := At(s0, 10, IdleTry(k - 1));
      assert Reachable(s1) by { ReachNext(s0, Go(10), s1); }
      assert s == At(s1, 10, IdleCheck(k));
      assert Reachable(s) by { ReachNext(s1, Go(10), s); }
    }
  }

  /** Request 2 is queued while the worker idles, and the worker takes it. */
  lemma IdleTakes(s: State)
    requires s == Quiet(true, map[10 := Woke(Some(2))], map[1 := 1, 2 := 0])
    ensures Reachable(s)
  {
    var s0 := Quiet(true, map[10 := IdleCheck(0)], map[1 := 1]);
    FirstDone(s0);
    var s1 := At(s0, 10, IdleTry(0));
    assert Reachable(s1) by { ReachNext(s0, Go(10), s1); }
    var s2 := s1.(lock := Submitting(2), calls := s1.calls[2 := 0]);
    assert Reachable(s2) by { ReachNext(s1, Submit(2), s2); }
    var s3 := s2.(lock := Free, ring := [2]);
    assert Reachable(s3) by { ReachNext(s2, Queue, s3); }
    var s4 := At(s3.(ring := []), 10, Woke(Some(2)));
    assert Reachable(s4) by { ReachNext(s3, Go(10), s4); }
    assert s4 == s;
  }

  /** A request is lost: the actor unregisters after an idle worker took it, and before that worker looks again. */
  lemma ARequestCanBeLost(s: State)
    requires s == Quiet(true, map[10 := Final], map[1 := 1, 2 := 0]).(closed := true, lost := {2})
    ensures Reachable(s)
  {
    var s4 := Quiet(true, map[10 := Woke(Some(2))], map[1 := 1, 2 := 0]);
    IdleTakes(s4);
    var s5 := s4.(closed := true, lock := Draining);
    assert Reachable(s5) by { ReachNext(s4, Unregister, s5); }
    var s6 := s5.(lock := Free);
    assert Reachable(s6) by { ReachNext(s5, Drain, s6); }
    var s7 := At(s6.(lost := {2}), 10, Final);
    assert Reachable(s7) by { ReachNext(s6, Go(10), s7); }
    assert s7 == s;
  }

  /** Worker 10 gives up waiting and clears the flag. */
  lemma GivesUp(s: State)
    requires s == Quiet(false, map[10 := Final], map[1 := 1])
    ensures Reachable(s)
  {
    var s0 := Quiet(true, map[10 := IdleCheck(IDLE_TURNS)], map[1 := 1]);
    Idles(s0, IDLE_TURNS);
    var s1 := At(s0, 10, Woke(None));
    assert Reachable(s1) by { ReachNext(s0, Go(10), s1); }
    var s2 := At(s1, 10, Locking);
    assert Reachable(s2) by { ReachNext(s1, Go(10), s2); }
    var s3 := At(s2.(running := false), 10, Final);
    assert Reachable(s3) by { ReachNext(s2, Check(10), s3); }
    assert s3 == s;
  }

  /** Before its last locked section a second request starts worker 11, which takes it. */
  lemma TwoWorkers(s: State)
    requires s == Quiet(true, map[10 := Final, 11 := Working(2)], map[1 := 1, 2 := 0])
    ensures Reachable(s)
  {
    var s3 := Quiet(false, map[10 := Final], map[1 := 1]);
    GivesUp(s3);
    var s4 := s3.(lock := Submitting(2), calls := s3.calls[2 := 0]);
    assert Reachable(s4) by { ReachNext(s3, Submit(2), s4); }
    var s5 := s4.(ring := [2], lock := Starting(2), running := true);
    assert Reachable(s5) by { ReachNext(s4, Queue, s5); }
    var s6 := At(s5.(lock := Free), 11, Top);
    assert Reachable(s6) by { ReachNext(s5, Start(11), s6); }
    var s7 := At(s6, 11, Trying);
    assert Reachable(s7) by { ReachNext(s6, Go(11), s7); }
    var s8 := At(s7.(ring := []), 11, Working(2));
    assert Reachable(s8) by { ReachNext(s7, Go(11), s8); }
    assert s8 == s;
  }

  /** Worker 10's last section clears the flag although worker 11 is alive. */
  lemma FlagCleared(s: State)
    requires s == Quiet(false, map[10 := Exited, 11 := Working(2)], map[1 := 1, 2 := 0])
    ensures Reachable(s)
  {
    var s0 := Quiet(true, map[10 := Final, 11 := Working(2)], map[1 := 1, 2 := 0]);
    TwoWorkers(s0);
    var s1 := At(s0.(running := false), 10, Exited);
    assert Reachable(s1) by { ReachNext(s0, Exit(10, 12), s1); }
    assert s1 == s;
  }

  /** Worker 11 goes on to its next request. */
  lemma UnflaggedWorker(s: State)
    requires s == Quiet(false, map[10 := Exited, 11 := Trying], map[1 := 1, 2 := 1])
    ensures Reachable(s)
  {
    var s1 := Quiet(false, map[10 := Exited, 11 := Working(2)], map[1 := 1, 2 := 0]);
    FlagCleared(s1);
    var s2 := At(Called(s1, 2), 11, Top);
    assert Reachable(s2) by { ReachNext(s1, NoActor(11), s2); }
    var s3 := At(s2, 11, Trying);
    assert Reachable(s3) by { ReachNext(s2, Go(11), s3); }
    assert s3 == s;
  }

  /** The submitter of request 3 finds no worker flagged; worker 11 takes the request, and no worker can be created. */
  lemma TakenFirst(s: State)
    requires s == Quiet(false, map[10 := Exited, 11 := Working(3)], map[1 := 1, 2 := 1, 3 := 0]).(lock := TakingBack(3))
    ensures Reachable(s)
  {
    var s0 := Quiet(false, map[10 := Exited, 11 := Trying], map[1 := 1, 2 := 1]);
    UnflaggedWorker(s0);
    var s1 := s0.(lock := Submitting(3), calls := s0.calls[3 := 0]);
    assert Reachable(s1) by { ReachNext(s0, Submit(3), s1); }
    var s2 := s1.(ring := [3], lock := Starting(3), running := true);
    assert Reachable(s2) by { ReachNext(s1, Queue, s2); }
    var s3 := At(s2.(ring := []), 11, Working(3));
    assert Reachable(s3) by { ReachNext(s2, Go(11), s3); }
    var s4 := s3.(running := false, lock := TakingBack(3));
    assert Reachable(s4) by { ReachNext(s3, StartFails, s4); }
    assert s4 == s;
  }

  /** A callback does run twice: the submitter, which has nothing to take back, and worker 11 both answer request 3. */
  lemma ACallbackCanRunTwice(s: State)
    requires s == Quiet(false, map[10 := Exited, 11 := Top], map[1 := 1, 2 := 1, 3 := 2]).(missed := {3})
    ensures Reachable(s)
  {
    var s4 := Quiet(false, map[10 := Exited, 11 := Working(3)], map[1 := 1, 2 := 1, 3 := 0]).(lock := TakingBack(3));
    TakenFirst(s4);
    var s5 := Called(s4.(lock := Free, missed := {3}), 3);
    assert Reachable(s5) by { ReachNext(s4, TakeBack, s5); }
    var s6 := At(Called(s5, 3), 11, Top);
    assert Reachable(s6) by { ReachNext(s5, NoActor(11), s6); }
    assert s6 == s;
  }

  /** The actor unregisters, and worker 10 leaves its loop with the flag still set. */
  lemma LeavesFlagSet(s: State)
    requires s == Quiet(true, map[10 := Final], map[1 := 1]).(closed := true)
    ensures Reachable(s)
  {
    var s0 := Quiet(true, map[10 := IdleCheck(0)], map[1 := 1]);
    FirstDone(s0);
    var s1 := s0.(closed := true, lock := Draining);
    assert Reachable(s1) by { ReachNext(s0, Unregister, s1); }
    var s2 := s1.(lock := Free);
    assert Reachable(s2) by { ReachNext(s1, Drain, s2); }
    var s3 := At(s2, 10, Woke(None));
    assert Reachable(s3) by { ReachNext(s2, Go(10), s3); }
    var s4 := At(s3, 10, Final);
    assert s3.lost + {} == s3.lost;
    assert Reachable(s4) by { ReachNext(s3, Go(10), s4); }
    assert s4 == s;
  }

  /** A mailbox does get stuck: a new request reopens it before worker 10's last section, and worker 10 cannot create
      its successor. */
  lemma AMailboxCanGetStuck(s: State)
    requires s == Quiet(true, map[10 := Exited], map[1 := 1, 2 := 0]).(ring := [2])
    ensures Reachable(s) && Stuck(s)
  {
    var s4 := Quiet(true, map[10 := Final], map[1 := 1]).(closed := true);
    LeavesFlagSet(s4);
    var s5 := s4.(closed := false, lock := Submitting(2), calls := s4.calls[2 := 0]);
    assert Reachable(s5) by { ReachNext(s4, Submit(2), s5); }
    var s6 := s5.(lock := Free, ring := [2]);
    assert Reachable(s6) by { ReachNext(s5, Queue, s6); }
    var s7 := At(s6, 10, Exited);
    assert Reachable(s7) by { ReachNext(s6, ExitFails(10), s7); }
    assert s7 == s;
  }
}

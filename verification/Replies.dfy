/** Which reply a router callback gets. The workers of a mailbox share one reply channel of capacity 1, and
    unregistering the actor may put a reply of its own into it. */
module Replies {
  import opened Options
  import opened Router

  // ---------- Counting ----------

  /** The workers that wait for a reply. */
  function Waiting(s: State): set<nat> {
    set w | w in s.workers && s.workers[w].Awaiting?
  }

  /** The replies on their way, oldest first: those in the channel and those the actor still owes. */
  function Line(m: Mail): seq<Reply> {
    m.chan + Owed(m.inbox)
  }

  function Owed(inbox: seq<nat>): seq<Reply> {
    seq(|inbox|, i requires 0 <= i < |inbox| => For(inbox[i]))
  }

  /** Every waiting worker has a reply on its way, but for the messages an exiting actor dropped; and every reply that
      unregistering posted is one too many, for good. */
  ghost predicate Balanced(s: State) {
    && |s.mail.chan| <= 1
    && |Line(s.mail)| + |s.mail.dropped| == |Waiting(s)| + s.mail.posted
  }

  lemma WaitingMoves(s: State, t: State, w: nat)
    requires w in s.workers && w in t.workers && t.workers == s.workers[w := t.workers[w]]
    ensures |Waiting(t)| == |Waiting(s)| + One(t.workers[w].Awaiting?) - One(s.workers[w].Awaiting?)
  {
    assert w in Waiting(s) <==> s.workers[w].Awaiting?;
    if t.workers[w].Awaiting? {
      assert Waiting(t) == Waiting(s) + {w};
    } else {
      assert Waiting(t) == Waiting(s) - {w};
    }
  }

  lemma WaitingSame(s: State, t: State)
    requires forall w :: (w in s.workers && s.workers[w].Awaiting?) <==> (w in t.workers && t.workers[w].Awaiting?)
    ensures Waiting(t) == Waiting(s)
  {
  }

  /** Steps that leave channel, inbox and waiting workers alone. */
  predicate Plain(a: Step) {
    !a.Send? && !a.Receive? && !a.Answer? && !a.ActorExits? && !a.Unregister?
  }

  lemma PlainStep(s: State, a: Step)
    requires Enabled(s, a) && Plain(a)
    ensures Do(s, a).mail == s.mail.(flight := Do(s, a).mail.flight)
  {
    if a.Go? {
      GoMail(s, a.w);
    } else if a.Launch? || a.Complete? {
      assert Do(s, a).mail.flight == a.Launch?;
    } else {
      assert Do(s, a).mail == s.mail;
    }
  }

  lemma GoMail(s: State, w: nat)
    requires Enabled(s, Go(w))
    ensures Do(s, Go(w)).mail == s.mail
  {
  }

  lemma SameWaits(s: State, a: Step, w: nat)
    requires Enabled(s, a) && !a.Send? && !a.Receive?
    ensures w in s.workers && s.workers[w].Awaiting? ==> w in Do(s, a).workers && Do(s, a).workers[w] == s.workers[w]
    ensures w in Do(s, a).workers && Do(s, a).workers[w].Awaiting? ==> w in s.workers && s.workers[w].Awaiting?
  {
    if a.Go? {
      GoWaits(s, a.w, w);
    } else if Mailing(a) {
      MailWaits(s, a, w);
    }
  }

  lemma MailWaits(s: State, a: Step, w: nat)
    requires Enabled(s, a) && Mailing(a) && !a.Send? && !a.Receive?
    ensures w in Do(s, a).workers <==> w in s.workers
    ensures w in s.workers && s.workers[w].Awaiting? ==> Do(s, a).workers[w] == s.workers[w]
    ensures w in s.workers && Do(s, a).workers[w].Awaiting? ==> s.workers[w].Awaiting?
  {
  }

  lemma GoWaits(s: State, v: nat, w: nat)
    requires Enabled(s, Go(v))
    ensures w in Do(s, Go(v)).workers <==> w in s.workers
    ensures w in s.workers && s.workers[w].Awaiting? ==> Do(s, Go(v)).workers[w] == s.workers[w]
    ensures w in s.workers && Do(s, Go(v)).workers[w].Awaiting? ==> s.workers[w].Awaiting?
  {
  }

  lemma StepBalances(s: State, a: Step)
    requires Balanced(s) && Enabled(s, a)
    ensures Balanced(Do(s, a))
  {
    var t := Do(s, a);
    if a.Send? || a.Receive? {
      WaitingMoves(s, t, a.w);
    } else {
      forall w
        ensures (w in s.workers && s.workers[w].Awaiting?) <==> (w in t.workers && t.workers[w].Awaiting?)
      {
        SameWaits(s, a, w);
      }
      WaitingSame(s, t);
      if Plain(a) { PlainStep(s, a); }
    }
  }

  /** Over every run: replies on their way and dropped messages are as many as waiting workers and posted replies. */
  lemma {:induction false} RunsBalance(run: seq<State>, steps: seq<Step>, i: nat)
    requires IsRun(run, steps) && i < |run|
    ensures Balanced(run[i])
  {
    if i == 0 {
      assert Waiting(START) == {};
    } else {
      RunsBalance(run, steps, i - 1);
      StepBalances(run[i - 1], steps[i - 1]);
      assert run[i - 1 + 1] == run[i];
    }
  }

  // ---------- Each message once ----------

  /** The requests whose message or reply is somewhere. */
  ghost predicate OnLine(m: Mail, r: nat) {
    For(r) in m.chan || r in m.inbox || r in m.dropped
  }

  /** A sent request is with a worker that waits for or has a reply, or with nobody. */
  ghost predicate SentOk(s: State, r: nat) {
    && (r in s.mail.sent ==>
          && r in s.calls && r !in s.ring && s.lock != Submitting(r)
          && forall w :: Held(s, w, r) ==> s.workers[w].Awaiting? || s.workers[w].Answering?)
    && (forall w :: w in s.workers && s.workers[w] == Awaiting(r) ==> r in s.mail.sent)
    && (OnLine(s.mail, r) ==> r in s.mail.sent)
  }

  ghost predicate Once(m: Mail) {
    && (forall i, j :: 0 <= i < j < |m.inbox| ==> m.inbox[i] != m.inbox[j])
    && (forall r :: For(r) in m.chan ==> r !in m.inbox && r !in m.dropped)
    && (forall r :: r in m.inbox ==> r !in m.dropped)
  }

  ghost predicate MailOk(s: State) {
    (forall r {:trigger SentOk(s, r)} :: SentOk(s, r)) && Once(s.mail) && |s.mail.chan| <= 1
  }

  /** Steps that leave the mail alone, but for the flag. */
  lemma OtherKeepsMail(s: State, a: Step)
    requires Inv(s) && MailOk(s) && Enabled(s, a) && Plain(a)
    ensures MailOk(Do(s, a))
  {
    var t := Do(s, a);
    PlainStep(s, a);
    forall r: nat ensures SentOk(t, r) {
      assert SentOk(s, r) && ReqOk(s, r);
      forall w | w in t.workers && t.workers[w] == Awaiting(r) ensures w in s.workers && s.workers[w] == Awaiting(r) {
        SameWaits(s, a, w);
      }
      if r in s.mail.sent {
        PlaceKept(s, a, r);
        forall w | Held(t, w, r) ensures t.workers[w].Awaiting? || t.workers[w].Answering? { HolderKept(s, a, r, w); }
      }
    }
  }

  /** A request that is in no queue does not get into one. */
  lemma PlaceKept(s: State, a: Step, r: nat)
    requires Enabled(s, a) && Plain(a) && r in s.calls && r !in s.ring && s.lock != Submitting(r)
    ensures var t := Do(s, a); r in t.calls && r !in t.ring && t.lock != Submitting(r)
  {
    if a.Go? { GoPlace(s, a.w, r); }
  }

  lemma GoPlace(s: State, w: nat, r: nat)
    requires Enabled(s, Go(w)) && r !in s.ring
    ensures var t := Do(s, Go(w)); t.calls == s.calls && r !in t.ring && t.lock == s.lock
  {
  }

  /** A worker does not get hold of one either, except from the ring. */
  lemma HolderKept(s: State, a: Step, r: nat, w: nat)
    requires Enabled(s, a) && Plain(a) && r !in s.ring && Held(Do(s, a), w, r)
    requires forall v :: Held(s, v, r) ==> s.workers[v].Awaiting? || s.workers[v].Answering?
    ensures Do(s, a).workers[w].Awaiting? || Do(s, a).workers[w].Answering?
  {
    if a.Go? { GoHolder(s, a.w, r, w); }
    assert Held(s, w, r);
  }

  lemma GoHolder(s: State, v: nat, r: nat, w: nat)
    requires Enabled(s, Go(v)) && r !in s.ring && Held(Do(s, Go(v)), w, r)
    ensures Held(s, w, r) && (s.workers[w].Awaiting? || s.workers[w].Answering? ==> v != w)
  {
  }

  lemma SendKeepsMail(s: State, w: nat)
    requires Inv(s) && MailOk(s) && Enabled(s, Send(w))
    ensures MailOk(Do(s, Send(w)))
  {
    var t, r0 := Do(s, Send(w)), s.workers[w].req;
    assert Held(s, w, r0) && ReqOk(s, r0) && SentOk(s, r0);
    assert r0 !in s.mail.sent;
    forall v | Held(t, v, r0) ensures v == w { assert v != w ==> Held(s, v, r0); }
    forall r: nat ensures SentOk(t, r) {
      assert SentOk(s, r);
      assert forall v :: v != w ==> (Held(t, v, r) <==> Held(s, v, r));
    }
  }

  lemma MailKeepsMail(s: State, a: Step)
    requires MailOk(s) && Enabled(s, a) && (a.Receive? || a.Answer? || a.ActorExits? || a.Unregister?)
    ensures MailOk(Do(s, a))
  {
    var t := Do(s, a);
    if a.Answer? { assert s.mail.inbox == [s.mail.inbox[0]] + t.mail.inbox; }
    forall r: nat ensures SentOk(t, r) { assert SentOk(s, r); }
  }

  lemma {:induction false} RunsKeepMail(run: seq<State>, steps: seq<Step>, i: nat)
    requires IsRun(run, steps) && i < |run|
    ensures MailOk(run[i])
  {
    if i > 0 {
      RunsKeepMail(run, steps, i - 1);
      RunsKeepInv(run, steps, i - 1);
      var s, a := run[i - 1], steps[i - 1];
      if a.Send? {
        SendKeepsMail(s, a.w);
      } else if a.Receive? || a.Answer? || a.ActorExits? || a.Unregister? {
        MailKeepsMail(s, a);
      } else {
        OtherKeepsMail(s, a);
      }
      assert run[i - 1 + 1] == run[i];
    }
  }

  // ---------- One request at a time ----------

  /** At no time do two workers wait. */
  ghost predicate OneAtATime(run: seq<State>, i: nat)
    requires i < |run|
  {
    forall j :: 0 <= j <= i ==> |Waiting(run[j])| <= 1
  }

  /** The reply to the request waited for is the last on its way, unless its message was dropped. */
  ghost predicate LastInLine(s: State) {
    forall w :: w in s.workers && s.workers[w].Awaiting? ==>
      var r := s.workers[w].req;
      r in s.mail.dropped || (Line(s.mail) != [] && Line(s.mail)[|Line(s.mail)| - 1] == For(r))
  }

  lemma TwoWait(s: State, v: nat, w: nat)
    requires |Waiting(s)| <= 1 && v in Waiting(s) && w in Waiting(s)
    ensures v == w
  {
    assert {v, w} <= Waiting(s);
    if v != w { SubsetSize({v, w}, Waiting(s)); }
  }

  lemma {:induction false} SubsetSize(a: set<nat>, b: set<nat>)
    requires a <= b
    ensures |a| <= |b|
  {
    if a != {} {
      var x :| x in a;
      SubsetSize(a - {x}, b - {x});
    }
  }

  lemma StepKeepsLast(s: State, a: Step)
    requires LastInLine(s) && Enabled(s, a) && |s.mail.chan| <= 1
    requires |Waiting(s)| <= 1 && |Waiting(Do(s, a))| <= 1
    ensures LastInLine(Do(s, a))
  {
    var t := Do(s, a);
    forall w | w in t.workers && t.workers[w].Awaiting?
      ensures var r := t.workers[w].req;
              r in t.mail.dropped || (Line(t.mail) != [] && Line(t.mail)[|Line(t.mail)| - 1] == For(r))
    {
      if a.Send? {
        TwoWait(t, w, a.w);
      } else if a.Receive? {
        TwoWait(s, w, a.w);
      } else {
        SameWaits(s, a, w);
        StaysLast(s, a, t.workers[w].req);
      }
    }
  }

  lemma StaysLast(s: State, a: Step, r: nat)
    requires Enabled(s, a) && !a.Send? && !a.Receive? && |s.mail.chan| <= 1
    requires r in s.mail.dropped || (Line(s.mail) != [] && Line(s.mail)[|Line(s.mail)| - 1] == For(r))
    ensures var m := Do(s, a).mail; r in m.dropped || (Line(m) != [] && Line(m)[|Line(m)| - 1] == For(r))
  {
    var t := Do(s, a);
    if Plain(a) { PlainStep(s, a); }
    if a.Answer? { assert Line(t.mail) == Line(s.mail); }
    if a.ActorExits? && s.mail.inbox != [] { assert r in s.mail.dropped + s.mail.inbox; }
  }

  lemma {:induction false} RunsKeepLast(run: seq<State>, steps: seq<Step>, i: nat)
    requires IsRun(run, steps) && i < |run| && OneAtATime(run, i)
    ensures LastInLine(run[i])
  {
    if i > 0 {
      RunsKeepLast(run, steps, i - 1);
      RunsKeepMail(run, steps, i - 1);
      assert run[i - 1 + 1] == run[i];
      assert |Waiting(run[i - 1])| <= 1 && |Waiting(run[i])| <= 1;
      StepKeepsLast(run[i - 1], steps[i - 1]);
    }
  }

  /** While requests are in flight one at a time, the callback of r gets the actor's reply to r, if and only if its
      message was not dropped and as many messages have been dropped as replies were posted. */
  lemma OwnReply(run: seq<State>, steps: seq<Step>, i: nat, w: nat)
    requires IsRun(run, steps) && i < |steps| && OneAtATime(run, i) && steps[i] == Receive(w)
    ensures var m, r := run[i].mail, run[i].workers[w].req;
            run[i + 1].workers[w] == Answering(r, For(r)) <==> r !in m.dropped && |m.dropped| == m.posted
  {
    RunsBalance(run, steps, i);
    RunsKeepMail(run, steps, i);
    RunsKeepLast(run, steps, i);
    OwnReplyNow(run[i], w);
  }

  lemma AtLeastOne(ws: set<nat>, w: nat)
    requires w in ws
    ensures |ws| >= 1
  {
  }

  lemma OwnReplyNow(s: State, w: nat)
    requires Balanced(s) && MailOk(s) && LastInLine(s) && |Waiting(s)| <= 1 && Enabled(s, Receive(w))
    ensures s.mail.chan[0] == For(s.workers[w].req) <==>
            s.workers[w].req !in s.mail.dropped && |s.mail.dropped| == s.mail.posted
  {
    var r, line := s.workers[w].req, Line(s.mail);
    assert w in Waiting(s);
    assert {w} <= Waiting(s);
    AtLeastOne(Waiting(s), w);
    assert line[0] == s.mail.chan[0];
    assert |line| > 1 ==> line[|line| - 1] == For(s.mail.inbox[|s.mail.inbox| - 1]);
  }

  // ---------- Runs that do happen ----------

  /** Worker w has sent the message of request r. */
  function Sent(s: State, w: nat, r: nat): State {
    At(s.(mail := s.mail.(inbox := s.mail.inbox + [r], sent := s.mail.sent + {r})), w, Awaiting(r))
  }

  /** Request 3 starts worker 12 while worker 11, unflagged, works for request 2. */
  lemma ThirdStarted(s: State)
    requires s == Quiet(true, map[10 := Exited, 11 := Working(2), 12 := Top], map[1 := 1, 2 := 0, 3 := 0]).(ring := [3])
    ensures Reachable(s)
  {
    var s0 := Quiet(false, map[10 := Exited, 11 := Working(2)], map[1 := 1, 2 := 0]);
    FlagCleared(s0);
    var s1 := s0.(lock := Submitting(3), calls := s0.calls[3 := 0]);
    assert Reachable(s1) by { ReachNext(s0, Submit(3), s1); }
    var s2 := s1.(ring := [3], lock := Starting(3), running := true);
    assert Reachable(s2) by { ReachNext(s1, Queue, s2); }
    var s3 := At(s2.(lock := Free), 12, Top);
    assert Reachable(s3) by { ReachNext(s2, Start(12), s3); }
    assert s3 == s;
  }

  /** Workers 11 and 12 have a request each. */
  lemma TwoAtWork(s: State)
    requires s == Quiet(true, map[10 := Exited, 11 := Working(2), 12 := Working(3)], map[1 := 1, 2 := 0, 3 := 0])
    ensures Reachable(s)
  {
    var s3 := Quiet(true, map[10 := Exited, 11 := Working(2), 12 := Top], map[1 := 1, 2 := 0, 3 := 0]).(ring := [3]);
    ThirdStarted(s3);
    var s4 := At(s3, 12, Trying);
    assert Reachable(s4) by { ReachNext(s3, Go(12), s4); }
    var s5 := At(s4.(ring := []), 12, Working(3));
    assert Reachable(s5) by { ReachNext(s4, Go(12), s5); }
    assert s5 == s;
  }

  /** The first of them has sent its message. */
  lemma OneWaits(s: State)
    requires s == Quiet(true, map[10 := Exited, 11 := Awaiting(2), 12 := Working(3)], map[1 := 1, 2 := 0, 3 := 0]).(
                    mail := Mail([2], [], true, {2}, [], 0))
    ensures Reachable(s)
  {
    var s0 := Quiet(true, map[10 := Exited, 11 := Working(2), 12 := Working(3)], map[1 := 1, 2 := 0, 3 := 0]);
    TwoAtWork(s0);
    var s1 := At(s0.(mail := s0.mail.(flight := true)), 11, Sending(2));
    assert Reachable(s1) by { ReachNext(s0, Launch(11), s1); }
    var s2 := Sent(s1, 11, 2);
    assert Reachable(s2) by { ReachNext(s1, Send(11), s2); }
    assert s2 == s;
  }

  /** The actor exits without answering: the worker waits, and no reply is on its way. */
  lemma AMessageCanBeDropped(s: State)
    requires s == Quiet(true, map[10 := Exited, 11 := Awaiting(2), 12 := Working(3)], map[1 := 1, 2 := 0, 3 := 0]).(
                    mail := Mail([], [], true, {2}, [2], 0))
    ensures Reachable(s) && Line(s.mail) == []
  {
    var s0 := Quiet(true, map[10 := Exited, 11 := Awaiting(2), 12 := Working(3)], map[1 := 1, 2 := 0, 3 := 0]).(
                    mail := Mail([2], [], true, {2}, [], 0));
    OneWaits(s0);
    assert s == s0.(mail := s0.mail.(inbox := [], dropped := [2]));
    assert Reachable(s) by { ReachNext(s0, ActorExits, s); }
  }

  /** Both have sent their message. */
  lemma BothWait(s: State)
    requires s == Quiet(true, map[10 := Exited, 11 := Awaiting(2), 12 := Awaiting(3)], map[1 := 1, 2 := 0, 3 := 0]).(
                    mail := Mail([2, 3], [], true, {2, 3}, [], 0))
    ensures Reachable(s)
  {
    var s2 := Quiet(true, map[10 := Exited, 11 := Awaiting(2), 12 := Working(3)], map[1 := 1, 2 := 0, 3 := 0]).(
                    mail := Mail([2], [], true, {2}, [], 0));
    OneWaits(s2);
    var s3 := At(s2, 12, Sending(3));
    assert Reachable(s3) by { ReachNext(s2, Launch(12), s3); }
    var s4 := Sent(s3, 12, 3);
    assert Reachable(s4) by { ReachNext(s3, Send(12), s4); }
    assert s4 == s;
  }

  /** A callback does get another request's reply: the actor answers request 2, and the worker of request 3 receives. */
  lemma RepliesCanBeSwapped(s: State)
    requires s == Quiet(true, map[10 := Exited, 11 := Awaiting(2), 12 := Answering(3, For(2))],
                        map[1 := 1, 2 := 0, 3 := 0]).(mail := Mail([3], [], true, {2, 3}, [], 0))
    ensures Reachable(s)
  {
    var s0 := Quiet(true, map[10 := Exited, 11 := Awaiting(2), 12 := Awaiting(3)], map[1 := 1, 2 := 0, 3 := 0]).(
                    mail := Mail([2, 3], [], true, {2, 3}, [], 0));
    BothWait(s0);
    var s1 := s0.(mail := s0.mail.(inbox := [3], chan := [For(2)]));
    assert Reachable(s1) by { ReachNext(s0, Answer, s1); }
    var s2 := At(s1.(mail := s1.mail.(chan := [])), 12, Answering(3, For(2)));
    assert Reachable(s2) by { ReachNext(s1, Receive(12), s2); }
    assert s2 == s;
  }

  /** Request 1 is in flight, and the actor is unregistered. */
  lemma UnregisteredInFlight(s: State)
    requires s == Quiet(true, map[10 := Awaiting(1)], map[1 := 0]).(
                    closed := true, lock := Draining, mail := Mail([1], [Terminated], true, {1}, [], 1))
    ensures Reachable(s)
  {
    var s0 := Quiet(true, map[10 := Working(1)], map[1 := 0]);
    FirstTaken(s0);
    var s1 := At(s0.(mail := s0.mail.(flight := true)), 10, Sending(1));
    assert Reachable(s1) by { ReachNext(s0, Launch(10), s1); }
    var s2 := Sent(s1, 10, 1);
    assert Reachable(s2) by { ReachNext(s1, Send(10), s2); }
    var s3 := s2.(closed := true, lock := Draining, mail := Posted(s2.mail));
    assert Reachable(s3) by { ReachNext(s2, Unregister, s3); }
    assert s3 == s;
  }

  /** Its worker gets the posted reply, and the actor answers all the same. */
  lemma ReplyLeftBehind(s: State)
    requires s == Quiet(true, map[10 := Answering(1, Terminated)], map[1 := 0]).(
                    closed := true, mail := Mail([], [For(1)], true, {1}, [], 1))
    ensures Reachable(s)
  {
    var s3 := Quiet(true, map[10 := Awaiting(1)], map[1 := 0]).(
                    closed := true, lock := Draining, mail := Mail([1], [Terminated], true, {1}, [], 1));
    UnregisteredInFlight(s3);
    var s4 := s3.(lock := Free);
    assert Reachable(s4) by { ReachNext(s3, Drain, s4); }
    var s5 := At(s4.(mail := s4.mail.(chan := [])), 10, Answering(1, Terminated));
    assert Reachable(s5) by { ReachNext(s4, Receive(10), s5); }
    var s6 := s5.(mail := s5.mail.(inbox := [], chan := [For(1)]));
    assert Reachable(s6) by { ReachNext(s5, Answer, s6); }
    assert s6 == s;
  }

  /** Request 2 reopens the mailbox. */
  lemma NextQueued(s: State)
    requires s == Quiet(true, map[10 := Top], map[1 := 1, 2 := 0]).(
                    ring := [2], mail := Mail([], [For(1)], false, {1}, [], 1))
    ensures Reachable(s)
  {
    var s0 := Quiet(true, map[10 := Answering(1, Terminated)], map[1 := 0]).(
                    closed := true, mail := Mail([], [For(1)], true, {1}, [], 1));
    ReplyLeftBehind(s0);
    var s1 := At(Called(s0.(mail := s0.mail.(flight := false)), 1), 10, Top);
    assert Reachable(s1) by { ReachNext(s0, Complete(10), s1); }
    var s2 := s1.(closed := false, lock := Submitting(2), calls := s1.calls[2 := 0]);
    assert Reachable(s2) by { ReachNext(s1, Submit(2), s2); }
    var s3 := s2.(lock := Free, ring := [2]);
    assert Reachable(s3) by { ReachNext(s2, Queue, s3); }
    assert s3 == s;
  }

  /** The same worker takes it. */
  lemma NextTaken(s: State)
    requires s == Quiet(true, map[10 := Sending(2)], map[1 := 1, 2 := 0]).(mail := Mail([], [For(1)], true, {1}, [], 1))
    ensures Reachable(s)
  {
    var s3 := Quiet(true, map[10 := Top], map[1 := 1, 2 := 0]).(
                    ring := [2], mail := Mail([], [For(1)], false, {1}, [], 1));
    NextQueued(s3);
    var s4 := At(s3, 10, Trying);
    assert Reachable(s4) by { ReachNext(s3, Go(10), s4); }
    var s5 := At(s4.(ring := []), 10, Working(2));
    assert Reachable(s5) by { ReachNext(s4, Go(10), s5); }
    var s6 := At(s5.(mail := s5.mail.(flight := true)), 10, Sending(2));
    assert Reachable(s6) by { ReachNext(s5, Launch(10), s6); }
    assert s6 == s;
  }

  /** With one worker alone, the callback of request 2 gets the reply that was left behind. */
  lemma AReplyCanBeStale(s: State)
    requires s == Quiet(true, map[10 := Answering(2, For(1))], map[1 := 1, 2 := 0]).(
                    mail := Mail([2], [], true, {1, 2}, [], 1))
    ensures Reachable(s)
  {
    var s1 := Quiet(true, map[10 := Sending(2)], map[1 := 1, 2 := 0]).(mail := Mail([], [For(1)], true, {1}, [], 1));
    NextTaken(s1);
    var s2 := Sent(s1, 10, 2);
    assert Reachable(s2) by { ReachNext(s1, Send(10), s2); }
    var s3 := At(s2.(mail := s2.mail.(chan := [])), 10, Answering(2, For(1)));
    assert Reachable(s3) by { ReachNext(s2, Receive(10), s3); }
    assert s3 == s;
  }
}

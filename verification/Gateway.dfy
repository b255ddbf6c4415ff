/** NodeGateway: requests to nodes that wait in a table for their replies, and the table of live
    node sessions. Every access to a concurrent table or to a task is one step, so a run is any
    interleaving of senders, read loops, timeouts and connections. */
module Gateway {
  import opened Text

  // ---- requests ----

  type Reply = string

  datatype Response = Answered(reply: Reply) | TimedOut | SendFailed(message: string)

  // The TaskCompletionSource, the caller that owns the request, and the read loop that took it
  // out of the pending table.
  datatype Completion = Open | Done(reply: Reply) | Canceled
  datatype Caller = Sending | Awaiting | Leaving(response: Response) | Returned(response: Response)
  datatype Reader = Nobody | Holding(reply: Reply) | Finished(reply: Reply)

  datatype Request = Request(task: Completion, caller: Caller, reader: Reader)

  // Request ids are fresh: a Guid is modelled as the next number.
  datatype Exchange = Exchange(pending: set<nat>, requests: map<nat, Request>, next: nat)

  datatype Event =
    | Begin
    | Sent(id: nat)                             // the command is on the wire, the timer runs
    | SendError(id: nat, message: string)
    | SendCanceled(id: nat)
    | Arrive(id: nat, reply: Reply)             // TryRemove from the pending table
    | Deliver(id: nat)                          // TrySetResult
    | Discard(id: nat)                          // the reply turns out malformed after it was taken
    | Expire(id: nat)                           // TrySetCanceled
    | Resume(id: nat)                           // the awaiting caller sees the outcome
    | Finish(id: nat)                           // finally: TryRemove, then return

  const EMPTY := Exchange({}, map[], 0)

  function Set(x: Exchange, id: nat, r: Request): Exchange { x.(requests := x.requests[id := r]) }

  // A step that is not enabled changes nothing.
  function Step(x: Exchange, ev: Event): Exchange {
    if ev.Begin? then
      Exchange(x.pending + {x.next}, x.requests[x.next := Request(Open, Sending, Nobody)], x.next + 1)
    else if ev.id !in x.requests then x
    else
      var r := x.requests[ev.id];
      match ev
      case Sent(id) => if r.caller.Sending? then Set(x, id, r.(caller := Awaiting)) else x
      case SendError(id, message) => if r.caller.Sending? then Set(x, id, r.(caller := Leaving(SendFailed(message)))) else x
      case SendCanceled(id) => if r.caller.Sending? then Set(x, id, r.(caller := Leaving(TimedOut))) else x
      case Arrive(id, reply) =>
        if id in x.pending then Set(x, id, r.(reader := Holding(reply))).(pending := x.pending - {id}) else x
      case Deliver(id) =>
        if !r.reader.Holding? then x
        else Set(x, id, r.(reader := Finished(r.reader.reply), task := if r.task.Open? then Done(r.reader.reply) else r.task))
      case Discard(id) => if r.reader.Holding? then Set(x, id, r.(reader := Finished(r.reader.reply))) else x
      case Expire(id) => if r.caller.Awaiting? && r.task.Open? then Set(x, id, r.(task := Canceled)) else x
      case Resume(id) =>
        if !r.caller.Awaiting? || r.task.Open? then x
        else Set(x, id, r.(caller := Leaving(if r.task.Done? then Answered(r.task.reply) else TimedOut)))
      case Finish(id) =>
        if !r.caller.Leaving? then x
        else Set(x, id, r.(caller := Returned(r.caller.response))).(pending := x.pending - {id})
  }

  function Run(x: Exchange, events: seq<Event>): Exchange {
    if events == [] then x else Step(Run(x, events[..|events| - 1]), events[|events| - 1])
  }

  // ---- what every step keeps ----

  function Outcome(c: Caller): Option<Response> {
    match c
    case Leaving(response) => Some(response)
    case Returned(response) => Some(response)
    case _ => None
  }

  predicate Consistent(r: Request, waiting: bool) {
    (waiting ==> r.reader.Nobody? && !r.caller.Returned?)
    && (r.task.Done? ==> r.reader == Finished(r.task.reply))
    && (match Outcome(r.caller) case Some(Answered(reply)) => r.task == Done(reply) case _ => true)
    && (r.task.Canceled? ==> !r.caller.Sending?)
  }

  ghost predicate Good(x: Exchange) {
    (forall id: nat :: id in x.requests <==> id < x.next)
    && (forall id :: id in x.pending ==> id in x.requests)
    && (forall id :: id in x.requests ==> Consistent(x.requests[id], id in x.pending))
  }

  // A request moves forward only: its task is set once, its caller returns once.
  predicate Later(before: Request, after: Request) {
    (!before.task.Open? ==> after.task == before.task)
    && (Outcome(before.caller).Some? ==> Outcome(after.caller) == Outcome(before.caller))
    && (before.caller.Returned? ==> after.caller == before.caller)
    && (!before.reader.Nobody? ==> !after.reader.Nobody? && after.reader.reply == before.reader.reply)
  }

  lemma StepKeeps(x: Exchange, ev: Event)
    requires Good(x)
    ensures Good(Step(x, ev))
    ensures forall id :: id in x.requests ==> id in Step(x, ev).requests && Later(x.requests[id], Step(x, ev).requests[id])
  {
    var y := Step(x, ev);
    if !ev.Begin? && ev.id in x.requests {
      StepKeepsRequest(x, ev);
    }
  }

  lemma StepKeepsRequest(x: Exchange, ev: Event)
    requires Good(x) && !ev.Begin? && ev.id in x.requests
    ensures Step(x, ev).next == x.next && Step(x, ev).requests.Keys == x.requests.Keys
    ensures Consistent(Step(x, ev).requests[ev.id], ev.id in Step(x, ev).pending)
    ensures Later(x.requests[ev.id], Step(x, ev).requests[ev.id])
    ensures forall id :: id in x.requests && id != ev.id ==>
              Step(x, ev).requests[id] == x.requests[id] && (id in Step(x, ev).pending <==> id in x.pending)
    ensures Step(x, ev).pending <= x.pending
  {
    assert Consistent(x.requests[ev.id], ev.id in x.pending);
  }

  lemma {:induction false} RunKeeps(events: seq<Event>)
    ensures Good(Run(EMPTY, events))
  {
    if events != [] {
      RunKeeps(events[..|events| - 1]);
      StepKeeps(Run(EMPTY, events[..|events| - 1]), events[|events| - 1]);
    }
  }

  // In every run a returned request is out of the pending table, and when all requests have
  // returned the table is empty.
  lemma NothingFinishedIsPending(events: seq<Event>)
    ensures var x := Run(EMPTY, events);
            (forall id :: id in x.requests && x.requests[id].caller.Returned? ==> id !in x.pending)
            && ((forall id :: id in x.requests ==> x.requests[id].caller.Returned?) ==> x.pending == {})
  {
    RunKeeps(events);
    var x := Run(EMPTY, events);
    forall id | id in x.requests && x.requests[id].caller.Returned? ensures id !in x.pending {
      assert Consistent(x.requests[id], id in x.pending);
    }
  }

  lemma {:induction false} LaterInRuns(before: seq<Event>, more: seq<Event>, id: nat)
    requires id in Run(EMPTY, before).requests
    ensures id in Run(EMPTY, before + more).requests
    ensures Later(Run(EMPTY, before).requests[id], Run(EMPTY, before + more).requests[id])
  {
    if more == [] {
      assert before + more == before;
    } else {
      var init := more[..|more| - 1];
      LaterInRuns(before, init, id);
      assert before + more == (before + init) + [more[|more| - 1]];
      Extend(before + init, more[|more| - 1]);
      RunKeeps(before + init);
      LaterStep(Run(EMPTY, before + init), more[|more| - 1], id, Run(EMPTY, before).requests[id]);
    }
  }

  lemma LaterStep(x: Exchange, ev: Event, id: nat, r: Request)
    requires Good(x) && id in x.requests && Later(r, x.requests[id])
    ensures id in Step(x, ev).requests && Later(r, Step(x, ev).requests[id])
  {
  }

  // A request completes at most once: whatever happens afterwards, its response stays.
  lemma ResponseIsFinal(before: seq<Event>, more: seq<Event>, id: nat)
    requires id in Run(EMPTY, before).requests && Run(EMPTY, before).requests[id].caller.Returned?
    ensures id in Run(EMPTY, before + more).requests
    ensures Run(EMPTY, before + more).requests[id].caller == Run(EMPTY, before).requests[id].caller
  {
    LaterInRuns(before, more, id);
  }

  // A reply to a request that has returned, or was answered before, changes nothing at all.
  lemma {:induction false} LateRepliesChangeNothing(events: seq<Event>, id: nat, reply: Reply)
    requires var x := Run(EMPTY, events);
             id !in x.requests || x.requests[id].caller.Returned? || !x.requests[id].reader.Nobody?
    ensures Run(EMPTY, events + [Arrive(id, reply)]) == Run(EMPTY, events)
  {
    var x := Run(EMPTY, events);
    RunKeeps(events);
    assert (events + [Arrive(id, reply)])[..|events|] == events;
    if id in x.requests { assert Consistent(x.requests[id], id in x.pending); }
  }

  // Whatever the read loops hold has arrived under the same id.
  lemma {:induction false} HeldRepliesArrived(events: seq<Event>, id: nat)
    requires id in Run(EMPTY, events).requests && !Run(EMPTY, events).requests[id].reader.Nobody?
    ensures Arrive(id, Run(EMPTY, events).requests[id].reader.reply) in events
  {
    if events != [] {
      var init, last := events[..|events| - 1], events[|events| - 1];
      var x := Run(EMPTY, init);
      RunKeeps(init);
      if id in x.requests && !x.requests[id].reader.Nobody? {
        HeldRepliesArrived(init, id);
        StepKeeps(x, last);
        assert Arrive(id, x.requests[id].reader.reply) in init;
      } else {
        assert last.Arrive? && last.id == id;
        assert last in events;
      }
    }
  }

  // A request is answered only with a reply that bears its own id.
  lemma AnswersBearTheirId(events: seq<Event>, id: nat, reply: Reply)
    requires id in Run(EMPTY, events).requests
    requires Run(EMPTY, events).requests[id].caller == Returned(Answered(reply))
    ensures Arrive(id, reply) in events
  {
    var x := Run(EMPTY, events);
    RunKeeps(events);
    assert Consistent(x.requests[id], id in x.pending);
    assert Outcome(x.requests[id].caller) == Some(Answered(reply));
    HeldRepliesArrived(events, id);
  }

  lemma Extend(events: seq<Event>, ev: Event)
    ensures Run(EMPTY, events + [ev]) == Step(Run(EMPTY, events), ev)
  {
  }

  // A reply that arrives while its caller waits reaches it: in every run that has come to a
  // pending request with an open task, taking the reply, setting the task and waking the caller
  // return that very reply.
  lemma RepliesReachTheirCaller(events: seq<Event>, id: nat, reply: Reply)
    requires var x := Run(EMPTY, events);
             id in x.requests && id in x.pending && x.requests[id].caller.Awaiting? && x.requests[id].task.Open?
    ensures var y := Run(EMPTY, events + [Arrive(id, reply), Deliver(id), Resume(id), Finish(id)]);
            id in y.requests && y.requests[id].caller == Returned(Answered(reply)) && id !in y.pending
  {
    var e1, e2, e3 := events + [Arrive(id, reply)], events + [Arrive(id, reply)] + [Deliver(id)], events + [Arrive(id, reply)] + [Deliver(id)] + [Resume(id)];
    Extend(events, Arrive(id, reply));
    Extend(e1, Deliver(id));
    Extend(e2, Resume(id));
    Extend(e3, Finish(id));
    assert events + [Arrive(id, reply), Deliver(id), Resume(id), Finish(id)] == e3 + [Finish(id)];
  }

  // So does one that arrives while the command is still being sent.
  lemma EarlyRepliesReachTheirCaller(events: seq<Event>, id: nat, reply: Reply)
    requires var x := Run(EMPTY, events);
             id in x.requests && id in x.pending && x.requests[id].caller.Sending? && x.requests[id].task.Open?
    ensures var y := Run(EMPTY, events + [Arrive(id, reply), Deliver(id), Sent(id), Resume(id), Finish(id)]);
            id in y.requests && y.requests[id].caller == Returned(Answered(reply)) && id !in y.pending
  {
    var e1, e2 := events + [Arrive(id, reply)], events + [Arrive(id, reply)] + [Deliver(id)];
    var e3, e4 := e2 + [Sent(id)], e2 + [Sent(id)] + [Resume(id)];
    Extend(events, Arrive(id, reply));
    Extend(e1, Deliver(id));
    Extend(e2, Sent(id));
    Extend(e3, Resume(id));
    Extend(e4, Finish(id));
    assert events + [Arrive(id, reply), Deliver(id), Sent(id), Resume(id), Finish(id)] == e4 + [Finish(id)];
  }

  // Why a request ended as it did: a delivery, its timer, its caller's cancellation, or the error
  // of its own sending.
  ghost predicate Caused(r: Request, id: nat, events: seq<Event>) {
    && (r.task.Canceled? ==> Expire(id) in events) && (r.task.Done? ==> Deliver(id) in events)
    && match Outcome(r.caller)
       case Some(Answered(_)) => Deliver(id) in events
       case Some(TimedOut) => Expire(id) in events || SendCanceled(id) in events
       case Some(SendFailed(message)) => SendError(id, message) in events
       case None => true
  }

  lemma CausedStep(x: Exchange, ev: Event, id: nat, events: seq<Event>)
    requires Good(x) && id in Step(x, ev).requests && (id in x.requests ==> Caused(x.requests[id], id, events))
    ensures Caused(Step(x, ev).requests[id], id, events + [ev])
  {
    assert ev in events + [ev];
    if id in x.requests { assert Consistent(x.requests[id], id in x.pending); }
  }

  // In every run an answered request had a reply delivered, one that timed out was expired or its
  // sending was canceled, and one that failed with a message had this error when it was sent.
  lemma {:induction false} OutcomesHaveTheirCause(events: seq<Event>, id: nat)
    requires id in Run(EMPTY, events).requests
    ensures Caused(Run(EMPTY, events).requests[id], id, events)
  {
    if events != [] {
      var init, last := events[..|events| - 1], events[|events| - 1];
      if id in Run(EMPTY, init).requests { OutcomesHaveTheirCause(init, id); }
      RunKeeps(init);
      CausedStep(Run(EMPTY, init), last, id, init);
      assert events == init + [last];
    }
  }

  // No request can get stuck: even if no reply ever comes, its own timer brings it home.
  lemma EveryRequestCanReturn(events: seq<Event>, id: nat) returns (more: seq<Event>)
    requires id in Run(EMPTY, events).requests
    ensures |more| <= 4 && (forall ev :: ev in more ==> ev in [Sent(id), Expire(id), Resume(id), Finish(id)])
    ensures id in Run(EMPTY, events + more).requests && Run(EMPTY, events + more).requests[id].caller.Returned?
  {
    more := [Sent(id), Expire(id), Resume(id), Finish(id)];
    var e1, e2, e3 := events + [Sent(id)], events + [Sent(id)] + [Expire(id)], events + [Sent(id)] + [Expire(id)] + [Resume(id)];
    Extend(events, Sent(id));
    Extend(e1, Expire(id));
    Extend(e2, Resume(id));
    Extend(e3, Finish(id));
    assert events + more == e3 + [Finish(id)];
    RunKeeps(events);
    assert !Run(EMPTY, e1).requests[id].caller.Sending?;
    assert Run(EMPTY, e2).requests[id].caller.Awaiting? ==> !Run(EMPTY, e2).requests[id].task.Open?;
    assert Outcome(Run(EMPTY, e3).requests[id].caller).Some?;
  }

  // ---- sessions ----

  // The live session of each node; every connection is a new session number. A teardown checks
  // that it is still the live one and then removes whatever the table holds: `condemned` are the
  // sessions between their check and their removal.
  datatype Sessions = Sessions(live: map<nat, nat>, newest: map<nat, nat>, next: nat, condemned: map<nat, nat>, ended: set<nat>)

  datatype Change = Connect(node: nat) | Teardown(node: nat, session: nat) | Check(node: nat, session: nat) | Remove(session: nat)

  const OFFLINE := Sessions(map[], map[], 0, map[], {})

  predicate IsLive(s: Sessions, node: nat, session: nat) { node in s.live && s.live[node] == session }

  function Apply(s: Sessions, c: Change): Sessions {
    match c
    case Connect(node) => Sessions(s.live[node := s.next], s.newest[node := s.next], s.next + 1, s.condemned, s.ended)
    // check and removal as one step
    case Teardown(node, session) =>
      if session >= s.next || session in s.ended then s
      else s.(live := if IsLive(s, node, session) then s.live - {node} else s.live, ended := s.ended + {session})
    // the same lines as two steps
    case Check(node, session) =>
      if session >= s.next || session in s.ended then s
      else if IsLive(s, node, session) then s.(condemned := s.condemned[session := node], ended := s.ended + {session})
      else s.(ended := s.ended + {session})
    case Remove(session) =>
      if session !in s.condemned then s
      else s.(live := s.live - {s.condemned[session]}, condemned := s.condemned - {session})
  }

  function Changes(s: Sessions, cs: seq<Change>): Sessions {
    if cs == [] then s else Apply(Changes(s, cs[..|cs| - 1]), cs[|cs| - 1])
  }

  // The newest session of every node is live until its own teardown.
  ghost predicate NewestIsLive(s: Sessions) {
    forall node :: node in s.newest && s.newest[node] !in s.ended ==> IsLive(s, node, s.newest[node])
  }

  ghost predicate Numbered(s: Sessions) {
    (forall node :: node in s.newest ==> s.newest[node] < s.next)
    && (forall node :: node in s.live ==> node in s.newest && s.live[node] == s.newest[node])
    && (forall session :: session in s.ended ==> session < s.next)
    && (forall session :: session in s.condemned ==> session in s.ended && s.condemned[session] in s.newest)
  }

  lemma ApplyKeepsNumbers(s: Sessions, c: Change)
    requires Numbered(s)
    ensures Numbered(Apply(s, c))
  {
  }

  lemma {:induction false} RunsAreNumbered(cs: seq<Change>)
    ensures Numbered(Changes(OFFLINE, cs))
  {
    if cs != [] {
      RunsAreNumbered(cs[..|cs| - 1]);
      ApplyKeepsNumbers(Changes(OFFLINE, cs[..|cs| - 1]), cs[|cs| - 1]);
    }
  }

  // With the check and the removal in one step, an older session's teardown never takes the
  // newest session away, in any run of connections and teardowns.
  lemma {:induction false} AtomicTeardownSparesNewest(cs: seq<Change>)
    requires forall i :: 0 <= i < |cs| ==> cs[i].Connect? || cs[i].Teardown?
    ensures NewestIsLive(Changes(OFFLINE, cs))
  {
    if cs != [] {
      AtomicTeardownSparesNewest(cs[..|cs| - 1]);
      RunsAreNumbered(cs[..|cs| - 1]);
    }
  }

  // The node of a checked session has not connected again, or only in sessions that are over.
  predicate Undisturbed(s: Sessions, session: nat) {
    session in s.condemned && s.condemned[session] in s.newest ==>
      var latest := s.newest[s.condemned[session]]; latest == session || latest in s.ended
  }

  // In two steps, a removal takes the newest session away exactly when the node has connected
  // again since the check.
  lemma SplitRemovalSparesNewestExactly(cs: seq<Change>, session: nat)
    requires NewestIsLive(Changes(OFFLINE, cs))
    ensures NewestIsLive(Apply(Changes(OFFLINE, cs), Remove(session))) <==> Undisturbed(Changes(OFFLINE, cs), session)
  {
    var s := Changes(OFFLINE, cs);
    RunsAreNumbered(cs);
    if session in s.condemned {
      assert !IsLive(Apply(s, Remove(session)), s.condemned[session], s.newest[s.condemned[session]]);
    }
  }

  lemma {:induction false} SplitTeardownSparesNewest(cs: seq<Change>)
    requires forall i :: 0 <= i < |cs| && cs[i].Remove? ==> Undisturbed(Changes(OFFLINE, cs[..i]), cs[i].session)
    ensures NewestIsLive(Changes(OFFLINE, cs))
  {
    if cs != [] {
      var n := |cs| - 1;
      forall i | 0 <= i < n && cs[i].Remove? ensures Undisturbed(Changes(OFFLINE, cs[..n][..i]), cs[i].session) {
        assert cs[..n][..i] == cs[..i];
      }
      SplitTeardownSparesNewest(cs[..n]);
      RunsAreNumbered(cs[..n]);
      if cs[n].Remove? { SplitRemovalSparesNewestExactly(cs[..n], cs[n].session); }
    }
  }

  lemma ReconnectDuringTeardown()
    ensures !NewestIsLive(Changes(OFFLINE, [Connect(7), Check(7, 0), Connect(7), Remove(0)]))
  {
    var c1: seq<Change> := [Connect(7)];
    var c2, c3 := c1 + [Check(7, 0)], c1 + [Check(7, 0)] + [Connect(7)];
    assert c1[..0] == [] && c2[..1] == c1 && c3[..2] == c2;
    var s1, s2, s3 := Changes(OFFLINE, c1), Changes(OFFLINE, c2), Changes(OFFLINE, c3);
    assert s1 == Apply(OFFLINE, Connect(7)) && s2 == Apply(s1, Check(7, 0)) && s3 == Apply(s2, Connect(7));
    var all := [Connect(7), Check(7, 0), Connect(7), Remove(0)];
    assert all[..3] == c3;
    var s4 := Changes(OFFLINE, all);
    assert s4 == Apply(s3, Remove(0));
    assert s4.newest[7] == 1 && !IsLive(s4, 7, 1);
  }
}

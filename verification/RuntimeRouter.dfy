/** The in-process runtime's loop: client requests to the processor, responses back to their
    callers, server requests and notifications to the event queue, and the final drain. */
module RuntimeRouter {
  datatype RequestId = Text(text: string) | Integer(number: int)

  /** The identity of one caller's response channel. */
  type Caller = nat

  datatype SendOutcome = Accepted | Full | Closed

  datatype Reply = Answered(payload: int) | Rejected(payload: int) | DuplicateId | Overloaded | ProcessorClosed | ShuttingDown

  /** One message out of the two queues the loop selects on, with what the bounded queue it is sent
      to said. A lossless notification is `Accepted` or finds its queue `Closed`. */
  datatype Message =
    | ClientRequest(id: RequestId, caller: Caller, processor: SendOutcome)
    | ClientNotification(processor: SendOutcome)
    | Response(id: RequestId, payload: int)
    | ErrorResponse(id: RequestId, payload: int)
    | ServerRequest(id: RequestId, events: SendOutcome)
    | ServerNotification(events: SendOutcome)
    | Shutdown

  datatype Delivery = Delivery(caller: Caller, id: RequestId, reply: Reply)

  /** `queued` and `failed` are the server requests handed to the client and answered with an error. */
  datatype Router = Router(
    pending: map<RequestId, Caller>,
    deliveries: seq<Delivery>,
    queued: seq<RequestId>,
    failed: seq<RequestId>,
    running: bool)

  const Fresh := Router(map[], [], [], [], true)

  function Deliver(r: Router, caller: Caller, id: RequestId, reply: Reply): Router {
    r.(deliveries := r.deliveries + [Delivery(caller, id, reply)])
  }

  /** Answer and forget the pending request with this id; an unmatched response is dropped. */
  function Settle(r: Router, id: RequestId, reply: Reply): Router {
    if id in r.pending then Deliver(r.(pending := r.pending - {id}), r.pending[id], id, reply) else r
  }

  function Handle(r: Router, m: Message): Router {
    match m
    case ClientRequest(id, caller, processor) =>
      if id in r.pending then Deliver(r, caller, id, DuplicateId)
      else
        var r := r.(pending := r.pending[id := caller]);
        (match processor
         case Accepted => r
         case Full => Settle(r, id, Overloaded)
         case Closed => Settle(r, id, ProcessorClosed).(running := false))
    case ClientNotification(processor) => if processor.Closed? then r.(running := false) else r
    case Response(id, payload) => Settle(r, id, Answered(payload))
    case ErrorResponse(id, payload) => Settle(r, id, Rejected(payload))
    case ServerRequest(id, events) =>
      if events.Accepted? then r.(queued := r.queued + [id]) else r.(failed := r.failed + [id])
    case ServerNotification(events) => if events.Closed? then r.(running := false) else r
    case Shutdown => r.(running := false)
  }

  /** The messages the loop dequeues before it stops. */
  function Taken(r: Router, messages: seq<Message>): nat
    decreases |messages|
  {
    if !r.running || messages == [] then 0 else 1 + Taken(Handle(r, messages[0]), messages[1..])
  }

  function Loop(r: Router, messages: seq<Message>): Router
    decreases |messages|
  {
    if !r.running || messages == [] then r else Loop(Handle(r, messages[0]), messages[1..])
  }

  // ---------------------------------------------------------------- what every run keeps

  /** The callers whose requests were dequeued, with the id each used. */
  function Callers(messages: seq<Message>): map<Caller, RequestId> {
    if messages == [] then map[]
    else
      var before, last := Callers(messages[..|messages| - 1]), messages[|messages| - 1];
      if last.ClientRequest? then before[last.caller := last.id] else before
  }

  function ServerRequests(messages: seq<Message>): multiset<RequestId> {
    if messages == [] then multiset{}
    else
      var before, last := ServerRequests(messages[..|messages| - 1]), messages[|messages| - 1];
      if last.ServerRequest? then before + multiset{last.id} else before
  }

  /** The server requests the client's queue took, in order. */
  function HandedOn(messages: seq<Message>): seq<RequestId> {
    if messages == [] then []
    else
      var before, last := HandedOn(messages[..|messages| - 1]), messages[|messages| - 1];
      if last.ServerRequest? && last.events == Accepted then before + [last.id] else before
  }

  /** The server requests it did not take, in order. */
  function FailedBack(messages: seq<Message>): seq<RequestId> {
    if messages == [] then []
    else
      var before, last := FailedBack(messages[..|messages| - 1]), messages[|messages| - 1];
      if last.ServerRequest? && last.events in {Full, Closed} then before + [last.id] else before
  }

  /** Every client request brings its own response channel. */
  predicate OwnCallers(messages: seq<Message>) {
    forall i, j :: 0 <= i < j < |messages| && messages[i].ClientRequest? && messages[j].ClientRequest? ==>
      messages[i].caller != messages[j].caller
  }

  predicate AnsweredOnce(deliveries: seq<Delivery>) {
    forall i, j :: 0 <= i < j < |deliveries| ==> deliveries[i].caller != deliveries[j].caller
  }

  predicate HasAnswer(deliveries: seq<Delivery>, caller: Caller) {
    exists i :: 0 <= i < |deliveries| && deliveries[i].caller == caller
  }

  predicate IsPending(pending: map<RequestId, Caller>, caller: Caller) {
    exists id :: id in pending && pending[id] == caller
  }

  /** After dequeuing `done`: each caller is either pending, under the id it used and no other, or
      has exactly one answer, carrying that id; nobody else has either. */
  ghost predicate Inv(done: seq<Message>, r: Router) {
    var callers := Callers(done);
    && (forall id :: id in r.pending ==> r.pending[id] in callers && callers[r.pending[id]] == id)
    && (forall i :: 0 <= i < |r.deliveries| ==>
          r.deliveries[i].caller in callers && callers[r.deliveries[i].caller] == r.deliveries[i].id)
    && AnsweredOnce(r.deliveries)
    && (forall id :: id in r.pending ==> !HasAnswer(r.deliveries, r.pending[id]))
    && (forall c :: c in callers ==> HasAnswer(r.deliveries, c) || IsPending(r.pending, c))
    && r.queued == HandedOn(done) && r.failed == FailedBack(done)
  }

  lemma HasAnswerSnoc(deliveries: seq<Delivery>, d: Delivery)
    ensures HasAnswer(deliveries + [d], d.caller)
    ensures forall c :: HasAnswer(deliveries + [d], c) <==> HasAnswer(deliveries, c) || c == d.caller
  {
    var all := deliveries + [d];
    assert all[|deliveries|] == d;
    forall c ensures HasAnswer(all, c) <==> HasAnswer(deliveries, c) || c == d.caller {
      if HasAnswer(deliveries, c) {
        var i :| 0 <= i < |deliveries| && deliveries[i].caller == c;
        assert all[i].caller == c;
      }
      if HasAnswer(all, c) {
        var i :| 0 <= i < |all| && all[i].caller == c;
        if i < |deliveries| { assert deliveries[i].caller == c; }
      }
    }
  }

  /** Answering a pending caller. */
  lemma SettleKeeps(done: seq<Message>, r: Router, id: RequestId, reply: Reply)
    requires Inv(done, r)
    ensures Inv(done, Settle(r, id, reply))
  {
    hide Callers, HandedOn, FailedBack, HasAnswer;
    if id in r.pending {
      var caller := r.pending[id];
      var d := Delivery(caller, id, reply);
      var r' := Settle(r, id, reply);
      HasAnswerSnoc(r.deliveries, d);
      forall c | c in Callers(done) ensures HasAnswer(r'.deliveries, c) || IsPending(r'.pending, c) {
        if !HasAnswer(r.deliveries, c) && c != caller {
          var x :| x in r.pending && r.pending[x] == c;
          assert x in r'.pending;
        }
      }
      AnsweredOnceSnoc(r.deliveries, d);
    }
  }

  lemma AnsweredOnceSnoc(deliveries: seq<Delivery>, d: Delivery)
    requires AnsweredOnce(deliveries) && !HasAnswer(deliveries, d.caller)
    ensures AnsweredOnce(deliveries + [d])
  {
    forall i | 0 <= i < |deliveries| ensures deliveries[i].caller != d.caller {
    }
  }

  lemma CallersSnoc(done: seq<Message>, m: Message)
    ensures Callers(done + [m]) == if m.ClientRequest? then Callers(done)[m.caller := m.id] else Callers(done)
    ensures m.ServerRequest? && m.events.Accepted? ==>
              HandedOn(done + [m]) == HandedOn(done) + [m.id] && FailedBack(done + [m]) == FailedBack(done)
    ensures m.ServerRequest? && !m.events.Accepted? ==>
              HandedOn(done + [m]) == HandedOn(done) && FailedBack(done + [m]) == FailedBack(done) + [m.id]
    ensures !m.ServerRequest? ==> HandedOn(done + [m]) == HandedOn(done) && FailedBack(done + [m]) == FailedBack(done)
  {
    assert (done + [m])[..|done|] == done;
  }

  lemma {:induction false} NewCaller(done: seq<Message>, m: Message)
    requires OwnCallers(done + [m]) && m.ClientRequest?
    ensures m.caller !in Callers(done)
    decreases |done|
  {
    if done != [] {
      var init := done[..|done| - 1];
      var all := done + [m];
      assert all[|done| - 1] == done[|done| - 1] && all[|done|] == m;
      assert OwnCallers(init + [m]) by {
        var some := init + [m];
        forall i, j | 0 <= i < j < |some| && some[i].ClientRequest? && some[j].ClientRequest?
          ensures some[i].caller != some[j].caller
        {
          assert some[i] == all[i];
          assert some[j] == all[if j < |init| then j else |done|];
        }
      }
      NewCaller(init, m);
    }
  }

  lemma DuplicateKeeps(done: seq<Message>, r: Router, m: Message)
    requires Inv(done, r) && m.ClientRequest? && m.caller !in Callers(done)
    ensures Inv(done + [m], Deliver(r, m.caller, m.id, DuplicateId))
  {
    hide Callers, HandedOn, FailedBack, HasAnswer, IsPending, AnsweredOnce;
    CallersSnoc(done, m);
    var d := Delivery(m.caller, m.id, DuplicateId);
    HasAnswerSnoc(r.deliveries, d);
    StrangerUnanswered(done, r, m.caller);
    AnsweredOnceSnoc(r.deliveries, d);
  }

  lemma RegisterKeeps(done: seq<Message>, r: Router, m: Message)
    requires Inv(done, r) && m.ClientRequest? && m.caller !in Callers(done) && m.id !in r.pending
    ensures Inv(done + [m], r.(pending := r.pending[m.id := m.caller]))
  {
    hide Callers, HandedOn, FailedBack, HasAnswer, AnsweredOnce;
    CallersSnoc(done, m);
    StrangerUnanswered(done, r, m.caller);
    var pending := r.pending[m.id := m.caller];
    forall c | c in Callers(done + [m]) ensures HasAnswer(r.deliveries, c) || IsPending(pending, c) {
      if c == m.caller {
        assert pending[m.id] == c;
      } else if !HasAnswer(r.deliveries, c) {
        var x :| x in r.pending && r.pending[x] == c;
        assert x in pending && pending[x] == c;
      }
    }
  }

  /** A new request becomes pending or, under an id already pending, is answered at once; either way
      the request pending before is untouched. */
  lemma RequestKeeps(done: seq<Message>, r: Router, m: Message)
    requires Inv(done, r) && m.ClientRequest? && m.caller !in Callers(done)
    ensures Inv(done + [m], Handle(r, m))
    ensures forall id :: id in r.pending ==> id in Handle(r, m).pending && Handle(r, m).pending[id] == r.pending[id]
  {
    hide Inv;
    if m.id in r.pending {
      DuplicateKeeps(done, r, m);
    } else {
      RegisterKeeps(done, r, m);
      var r' := r.(pending := r.pending[m.id := m.caller]);
      SettleKeeps(done + [m], r', m.id, Overloaded);
      SettleKeeps(done + [m], r', m.id, ProcessorClosed);
      StoppingKeeps(done + [m], Settle(r', m.id, ProcessorClosed), false);
    }
  }

  lemma StoppingKeeps(done: seq<Message>, r: Router, running: bool)
    requires Inv(done, r)
    ensures Inv(done, r.(running := running))
  {
    hide Callers, HandedOn, FailedBack, HasAnswer, IsPending, AnsweredOnce;
  }

  lemma StrangerUnanswered(done: seq<Message>, r: Router, caller: Caller)
    requires Inv(done, r) && caller !in Callers(done)
    ensures !HasAnswer(r.deliveries, caller)
  {
  }

  /** Each server request taken is in exactly one of the two, once. */
  lemma {:induction false} EachServerRequestOnce(messages: seq<Message>)
    ensures multiset(HandedOn(messages)) + multiset(FailedBack(messages)) == ServerRequests(messages)
  {
    if messages != [] {
      EachServerRequestOnce(messages[..|messages| - 1]);
    }
  }

  lemma OthersKeepQueues(r: Router, m: Message)
    requires !m.ServerRequest?
    ensures Handle(r, m).queued == r.queued && Handle(r, m).failed == r.failed
  {
  }

  lemma OtherKeeps(done: seq<Message>, r: Router, m: Message)
    requires Inv(done, r) && !m.ClientRequest?
    ensures Inv(done + [m], r.(queued := Handle(r, m).queued, failed := Handle(r, m).failed))
  {
    CallersSnoc(done, m);
    if !m.ServerRequest? { OthersKeepQueues(r, m); }
    hide Callers, HandedOn, FailedBack, HasAnswer, IsPending, AnsweredOnce, Settle;
  }

  lemma HandleKeeps(done: seq<Message>, r: Router, m: Message)
    requires Inv(done, r) && OwnCallers(done + [m])
    ensures Inv(done + [m], Handle(r, m))
  {
    hide Inv, Callers, OwnCallers, Settle;
    if m.ClientRequest? {
      NewCaller(done, m);
      RequestKeeps(done, r, m);
    } else {
      OtherKeeps(done, r, m);
      if m.Response? || m.ErrorResponse? {
        OthersKeepQueues(r, m);
        assert r.(queued := r.queued, failed := r.failed) == r;
        SettleKeeps(done + [m], r, m.id, if m.Response? then Answered(m.payload) else Rejected(m.payload));
      } else {
        StoppingKeeps(done + [m], r.(queued := Handle(r, m).queued, failed := Handle(r, m).failed), Handle(r, m).running);
      }
    }
  }

  lemma {:induction false} LoopKeeps(done: seq<Message>, r: Router, messages: seq<Message>)
    requires Inv(done, r) && OwnCallers(done + messages)
    ensures Taken(r, messages) <= |messages|
    ensures Inv(done + messages[..Taken(r, messages)], Loop(r, messages))
    decreases |messages|
  {
    hide Inv, Handle, OwnCallers;
    if !r.running || messages == [] {
      assert done + messages[..0] == done;
    } else {
      var m := messages[0];
      assert OwnCallers(done + [m]) by { OwnCallersPrefix(done + messages, |done| + 1); assert (done + messages)[..|done| + 1] == done + [m]; }
      HandleKeeps(done, r, m);
      assert (done + [m]) + messages[1..] == done + messages;
      LoopKeeps(done + [m], Handle(r, m), messages[1..]);
      var n := Taken(Handle(r, m), messages[1..]);
      assert (done + [m]) + messages[1..][..n] == done + messages[..n + 1];
    }
  }

  lemma OwnCallersPrefix(messages: seq<Message>, n: nat)
    requires OwnCallers(messages) && n <= |messages|
    ensures OwnCallers(messages[..n])
  {
  }

  // ---------------------------------------------------------------- why each reply was given

  predicate Answers(m: Message, id: RequestId) { (m.Response? || m.ErrorResponse?) && m.id == id }

  /** The request was handed to the processor, and no response to its id has come since. */
  ghost predicate Waiting(done: seq<Message>, id: RequestId, caller: Caller) {
    exists a :: 0 <= a < |done| && done[a] == ClientRequest(id, caller, Accepted)
                && forall k :: a < k < |done| ==> !Answers(done[k], id)
  }

  /** Message `b` calls for this reply: it is the first response to the request, it is the request and
      another one is waiting under its id, or it is the request and the processor did not take it. */
  ghost predicate CallsFor(done: seq<Message>, d: Delivery, b: nat)
    requires b < |done|
  {
    match d.reply
    case Answered(payload) => done[b] == Response(d.id, payload) && Waiting(done[..b], d.id, d.caller)
    case Rejected(payload) => done[b] == ErrorResponse(d.id, payload) && Waiting(done[..b], d.id, d.caller)
    case DuplicateId =>
      && done[b].ClientRequest? && done[b].id == d.id && done[b].caller == d.caller
      && exists c :: c != d.caller && Waiting(done[..b], d.id, c)
    case Overloaded => done[b] == ClientRequest(d.id, d.caller, Full)
    case ProcessorClosed => done[b] == ClientRequest(d.id, d.caller, Closed)
    case ShuttingDown => false
  }

  /** The reply is one the dequeued messages call for; the shutdown reply goes to those still waiting. */
  ghost predicate Justified(done: seq<Message>, d: Delivery) {
    if d.reply.ShuttingDown? then Waiting(done, d.id, d.caller)
    else exists b :: 0 <= b < |done| && CallsFor(done, d, b)
  }

  ghost predicate AllJustified(done: seq<Message>, r: Router) {
    && (forall id :: id in r.pending ==> Waiting(done, id, r.pending[id]))
    && forall i :: 0 <= i < |r.deliveries| ==> Justified(done, r.deliveries[i])
  }

  predicate NotDrained(r: Router) {
    forall i :: 0 <= i < |r.deliveries| ==> !r.deliveries[i].reply.ShuttingDown?
  }

  lemma WaitingGrows(done: seq<Message>, m: Message, id: RequestId, caller: Caller)
    requires Waiting(done, id, caller) && !Answers(m, id)
    ensures Waiting(done + [m], id, caller)
  {
    var a :| 0 <= a < |done| && done[a] == ClientRequest(id, caller, Accepted)
             && forall k :: a < k < |done| ==> !Answers(done[k], id);
    assert (done + [m])[a] == done[a];
  }

  lemma AcceptedWaits(done: seq<Message>, id: RequestId, caller: Caller)
    ensures Waiting(done + [ClientRequest(id, caller, Accepted)], id, caller)
  {
    var all := done + [ClientRequest(id, caller, Accepted)];
    assert all[|done|] == ClientRequest(id, caller, Accepted);
  }

  lemma JustifiedGrows(done: seq<Message>, m: Message, d: Delivery)
    requires Justified(done, d) && !d.reply.ShuttingDown?
    ensures Justified(done + [m], d)
  {
    hide Waiting;
    var b :| 0 <= b < |done| && CallsFor(done, d, b);
    assert (done + [m])[..b] == done[..b];
    assert CallsFor(done + [m], d, b);
  }

  lemma JustifiedNow(done: seq<Message>, m: Message, d: Delivery)
    requires CallsFor(done + [m], d, |done|)
    ensures Justified(done + [m], d)
  {
    hide Waiting;
  }

  lemma DeliveriesGrow(done: seq<Message>, m: Message, r: Router)
    requires AllJustified(done, r) && NotDrained(r)
    ensures forall i :: 0 <= i < |r.deliveries| ==> Justified(done + [m], r.deliveries[i])
    ensures forall id :: id in r.pending && !Answers(m, id) ==> Waiting(done + [m], id, r.pending[id])
  {
    hide Justified, Waiting;
    forall i | 0 <= i < |r.deliveries| ensures Justified(done + [m], r.deliveries[i]) {
      JustifiedGrows(done, m, r.deliveries[i]);
    }
    forall id | id in r.pending && !Answers(m, id) ensures Waiting(done + [m], id, r.pending[id]) {
      WaitingGrows(done, m, id, r.pending[id]);
    }
  }

  lemma DeliverJustifies(done: seq<Message>, r: Router, d: Delivery)
    requires AllJustified(done, r) && Justified(done, d)
    ensures AllJustified(done, Deliver(r, d.caller, d.id, d.reply))
  {
    hide Justified, Waiting;
  }

  lemma SettleJustifies(done: seq<Message>, r: Router, id: RequestId, reply: Reply)
    requires forall i :: 0 <= i < |r.deliveries| ==> Justified(done, r.deliveries[i])
    requires forall x :: x in r.pending && x != id ==> Waiting(done, x, r.pending[x])
    requires id in r.pending ==> Justified(done, Delivery(r.pending[id], id, reply))
    ensures AllJustified(done, Settle(r, id, reply))
  {
    hide Justified, Waiting;
  }

  lemma DuplicateJustified(done: seq<Message>, first: Caller, m: Message)
    requires m.ClientRequest? && first != m.caller && Waiting(done, m.id, first)
    ensures Justified(done + [m], Delivery(m.caller, m.id, DuplicateId))
  {
    hide Waiting;
    var all := done + [m];
    assert all[..|done|] == done && all[|done|] == m;
    JustifiedNow(done, m, Delivery(m.caller, m.id, DuplicateId));
  }

  lemma RefusedJustified(done: seq<Message>, m: Message)
    requires m.ClientRequest? && !m.processor.Accepted?
    ensures Justified(done + [m], Delivery(m.caller, m.id, if m.processor.Full? then Overloaded else ProcessorClosed))
  {
    var all := done + [m];
    assert all[|done|] == m;
    JustifiedNow(done, m, Delivery(m.caller, m.id, if m.processor.Full? then Overloaded else ProcessorClosed));
  }

  lemma AnswerJustified(done: seq<Message>, caller: Caller, m: Message)
    requires (m.Response? || m.ErrorResponse?) && Waiting(done, m.id, caller)
    ensures Justified(done + [m], Delivery(caller, m.id, if m.Response? then Answered(m.payload) else Rejected(m.payload)))
  {
    hide Waiting;
    var all := done + [m];
    assert all[..|done|] == done && all[|done|] == m;
    JustifiedNow(done, m, Delivery(caller, m.id, if m.Response? then Answered(m.payload) else Rejected(m.payload)));
  }

  /** Every reply is justified by the messages dequeued so far. */
  lemma HandleJustifies(done: seq<Message>, r: Router, m: Message)
    requires AllJustified(done, r) && NotDrained(r) && Inv(done, r) && (m.ClientRequest? ==> m.caller !in Callers(done))
    ensures AllJustified(done + [m], Handle(r, m)) && NotDrained(Handle(r, m))
  {
    hide Callers, HasAnswer, IsPending, AnsweredOnce, HandedOn, FailedBack, Waiting, Justified;
    var all := done + [m];
    DeliveriesGrow(done, m, r);
    if m.ClientRequest? {
      RequestJustifies(done, r, m);
    } else if m.Response? || m.ErrorResponse? {
      var reply := if m.Response? then Answered(m.payload) else Rejected(m.payload);
      if m.id in r.pending { AnswerJustified(done, r.pending[m.id], m); }
      SettleJustifies(all, r, m.id, reply);
    }
  }

  lemma RequestJustifies(done: seq<Message>, r: Router, m: Message)
    requires AllJustified(done, r) && NotDrained(r) && Inv(done, r) && m.ClientRequest? && m.caller !in Callers(done)
    ensures AllJustified(done + [m], Handle(r, m)) && NotDrained(Handle(r, m))
  {
    hide Callers, HasAnswer, IsPending, AnsweredOnce, HandedOn, FailedBack, Waiting, Justified;
    var all := done + [m];
    DeliveriesGrow(done, m, r);
    if m.id in r.pending {
      DuplicateJustified(done, r.pending[m.id], m);
      DeliverJustifies(all, r, Delivery(m.caller, m.id, DuplicateId));
    } else if m.processor.Accepted? {
      AcceptedWaits(done, m.id, m.caller);
    } else {
      RefusedJustified(done, m);
      SettleJustifies(all, r.(pending := r.pending[m.id := m.caller]), m.id, if m.processor.Full? then Overloaded else ProcessorClosed);
    }
  }

  lemma {:induction false} LoopJustifies(done: seq<Message>, r: Router, messages: seq<Message>)
    requires AllJustified(done, r) && NotDrained(r) && Inv(done, r) && OwnCallers(done + messages)
    ensures Taken(r, messages) <= |messages|
    ensures AllJustified(done + messages[..Taken(r, messages)], Loop(r, messages))
    decreases |messages|
  {
    hide Inv, Handle, OwnCallers, AllJustified, Callers, NotDrained;
    if !r.running || messages == [] {
      assert done + messages[..0] == done;
    } else {
      var m := messages[0];
      OwnCallersPrefix(done + messages, |done| + 1);
      assert (done + messages)[..|done| + 1] == done + [m];
      HandleKeeps(done, r, m);
      if m.ClientRequest? { NewCaller(done, m); }
      HandleJustifies(done, r, m);
      assert (done + [m]) + messages[1..] == done + messages;
      LoopJustifies(done + [m], Handle(r, m), messages[1..]);
      var n := Taken(Handle(r, m), messages[1..]);
      assert (done + [m]) + messages[1..][..n] == done + messages[..n + 1];
    }
  }

  lemma DrainJustifies(done: seq<Message>, r: Router, id: RequestId)
    requires AllJustified(done, r)
    ensures AllJustified(done, Settle(r, id, ShuttingDown))
  {
    hide Waiting;
    SettleJustifies(done, r, id, ShuttingDown);
  }

  // ---------------------------------------------------------------- when the loop stops

  ghost predicate SomeoneWaits(done: seq<Message>, id: RequestId) {
    exists caller :: Waiting(done, id, caller)
  }

  /** The message ends the loop: shutdown, or a queue found closed. A request under an id that somebody
      waits for is answered without being sent, so it ends nothing. */
  ghost predicate Stops(messages: seq<Message>, b: nat)
    requires b < |messages|
  {
    match messages[b]
    case Shutdown => true
    case ClientNotification(processor) => processor == Closed
    case ServerNotification(events) => events == Closed
    case ClientRequest(id, _, processor) => processor == Closed && !SomeoneWaits(messages[..b], id)
    case _ => false
  }

  ghost predicate PendingIsWaiting(done: seq<Message>, r: Router) {
    forall id :: id in r.pending <==> SomeoneWaits(done, id)
  }

  lemma WaitsSnoc(done: seq<Message>, m: Message, id: RequestId)
    ensures SomeoneWaits(done + [m], id)
       <==> (m.ClientRequest? && m.id == id && m.processor.Accepted?) || (SomeoneWaits(done, id) && !Answers(m, id))
  {
    var all := done + [m];
    if SomeoneWaits(all, id) {
      var caller :| Waiting(all, id, caller);
      var a :| 0 <= a < |all| && all[a] == ClientRequest(id, caller, Accepted)
               && forall k :: a < k < |all| ==> !Answers(all[k], id);
      if a < |done| {
        assert all[|done|] == m && done[a] == all[a];
        assert forall k :: a < k < |done| ==> done[k] == all[k];
        assert Waiting(done, id, caller);
      }
    }
    if m.ClientRequest? && m.id == id && m.processor.Accepted? {
      AcceptedWaits(done, id, m.caller);
    } else if SomeoneWaits(done, id) && !Answers(m, id) {
      var caller :| Waiting(done, id, caller);
      WaitingGrows(done, m, id, caller);
    }
  }

  lemma HandlePending(done: seq<Message>, r: Router, m: Message)
    requires PendingIsWaiting(done, r)
    ensures PendingIsWaiting(done + [m], Handle(r, m))
    ensures r.running ==> (Handle(r, m).running <==> !Stops(done + [m], |done|))
  {
    hide SomeoneWaits;
    forall id ensures id in Handle(r, m).pending <==> SomeoneWaits(done + [m], id) {
      WaitsSnoc(done, m, id);
    }
    assert (done + [m])[..|done|] == done;
  }

  /** The loop takes every message up to the first that ends it, and that one. */
  lemma {:induction false} LoopStops(done: seq<Message>, r: Router, messages: seq<Message>)
    requires r.running && PendingIsWaiting(done, r)
    ensures var n, all := Taken(r, messages), done + messages;
            && n <= |messages|
            && (forall i :: |done| <= i < |done| + n - 1 ==> !Stops(all, i))
            && (n < |messages| ==> n > 0 && Stops(all, |done| + n - 1))
            && (Loop(r, messages).running <==> n == 0 || !Stops(all, |done| + n - 1))
    decreases |messages|
  {
    hide Handle, Stops, PendingIsWaiting;
    if messages != [] {
      var m, all := messages[0], done + messages;
      HandlePending(done, r, m);
      assert (done + [m]) + messages[1..] == all;
      StopsIsPast(done + [m], all, |done|);
      if Handle(r, m).running {
        LoopStops(done + [m], Handle(r, m), messages[1..]);
      }
    }
  }

  lemma StopsIsPast(some: seq<Message>, all: seq<Message>, b: nat)
    requires b < |some| && some <= all
    ensures Stops(some, b) <==> Stops(all, b)
  {
    assert some[..b] == all[..b];
  }

  // ---------------------------------------------------------------- the imperative loop

  class Runtime {
    var pendingRequestResponses: map<RequestId, Caller>
    var deliveries: seq<Delivery>
    var queued: seq<RequestId>
    var failed: seq<RequestId>
    var running: bool

    constructor ()
      ensures Value() == Fresh
    {
      pendingRequestResponses, deliveries, queued, failed, running := map[], [], [], [], true;
    }

    function Value(): Router
      reads this
    {
      Router(pendingRequestResponses, deliveries, queued, failed, running)
    }

    /** Remove the pending entry, if there still is one, and answer it. */
    method Respond(id: RequestId, reply: Reply)
      modifies this`pendingRequestResponses, this`deliveries
      ensures Value() == Settle(old(Value()), id, reply)
    {
      if id in pendingRequestResponses {
        deliveries := deliveries + [Delivery(pendingRequestResponses[id], id, reply)];
        pendingRequestResponses := pendingRequestResponses - {id};
      }
    }

    method HandleMessage(m: Message)
      modifies this
      ensures Value() == Handle(old(Value()), m)
    {
      match m {
        case ClientRequest(id, caller, processor) =>
          if id in pendingRequestResponses {
            deliveries := deliveries + [Delivery(caller, id, DuplicateId)];
            return;
          }
          pendingRequestResponses := pendingRequestResponses[id := caller];
          if processor.Full? {
            Respond(id, Overloaded);
          } else if processor.Closed? {
            Respond(id, ProcessorClosed);
            running := false;
          }
        case ClientNotification(processor) =>
          if processor.Closed? { running := false; }
        case Response(id, payload) => Respond(id, Answered(payload));
        case ErrorResponse(id, payload) => Respond(id, Rejected(payload));
        case ServerRequest(id, events) =>
          if events.Accepted? { queued := queued + [id]; } else { failed := failed + [id]; }
        case ServerNotification(events) =>
          if events.Closed? { running := false; }
        case Shutdown => running := false;
      }
    }

    /** Tell every caller still waiting, in whatever order the map yields them. */
    method Drain(ghost done: seq<Message>)
      requires Inv(done, Value()) && AllJustified(done, Value())
      modifies this`pendingRequestResponses, this`deliveries
      ensures Inv(done, Value()) && AllJustified(done, Value()) && pendingRequestResponses == map[]
      ensures old(deliveries) <= deliveries
    {
      hide Inv, AllJustified, Settle;
      while pendingRequestResponses != map[]
        invariant Inv(done, Value()) && AllJustified(done, Value()) && old(deliveries) <= deliveries
        decreases |pendingRequestResponses|
      {
        var id :| id in pendingRequestResponses;
        SettleKeeps(done, Value(), id, ShuttingDown);
        DrainJustifies(done, Value(), id);
        ghost var before := Value();
        ghost var left := pendingRequestResponses - {id};
        assert pendingRequestResponses.Keys == left.Keys + {id};
        Respond(id, ShuttingDown);
        assert pendingRequestResponses == left && old(deliveries) <= deliveries by { SettleShrinks(before, id); }
      }
    }

    /** The select loop. */
    method ProcessMessages(messages: seq<Message>) returns (taken: nat)
      modifies this
      ensures Value() == Loop(old(Value()), messages) && taken == Taken(old(Value()), messages)
    {
      hide Handle;
      ghost var start := Value();
      taken := 0;
      assert messages[0..] == messages;
      while running && taken < |messages|
        invariant taken <= |messages|
        invariant Loop(start, messages) == Loop(Value(), messages[taken..])
        invariant Taken(start, messages) == taken + Taken(Value(), messages[taken..])
      {
        assert messages[taken..][0] == messages[taken] && messages[taken..][1..] == messages[taken + 1..];
        HandleMessage(messages[taken]);
        taken := taken + 1;
      }
    }

    /** A whole life of the loop: whatever is dequeued and however the queues behave, every dequeued
        client request is answered exactly once, under its own id and with a reply the messages call
        for, and every server request is queued or failed back exactly once, as the client's queue
        took it or not. The loop stops at the first message that ends it. */
    method Run(messages: seq<Message>) returns (taken: nat)
      requires Value() == Fresh && OwnCallers(messages)
      modifies this
      ensures taken <= |messages|
      ensures var callers := Callers(messages[..taken]);
              && AnsweredOnce(deliveries)
              && (forall c :: c in callers <==> HasAnswer(deliveries, c))
              && (forall i :: 0 <= i < |deliveries| ==>
                    deliveries[i].caller in callers && callers[deliveries[i].caller] == deliveries[i].id)
      ensures forall i :: 0 <= i < |deliveries| ==> Justified(messages[..taken], deliveries[i])
      ensures queued == HandedOn(messages[..taken]) && failed == FailedBack(messages[..taken])
      ensures multiset(queued) + multiset(failed) == ServerRequests(messages[..taken])
      ensures forall i :: 0 <= i < taken - 1 ==> !Stops(messages, i)
      ensures taken < |messages| ==> taken > 0 && Stops(messages, taken - 1)
      ensures Loop(Fresh, messages).deliveries <= deliveries && taken == Taken(Fresh, messages)
    {
      hide Inv, Callers, HandedOn, FailedBack, ServerRequests, OwnCallers, AnsweredOnce, HasAnswer, Loop, Taken, Justified, Stops;
      taken := ProcessMessages(messages);
      FreshInv();
      assert [] + messages == messages;
      LoopKeeps([], Fresh, messages);
      LoopJustifies([], Fresh, messages);
      LoopStops([], Fresh, messages);
      assert [] + messages[..taken] == messages[..taken];
      Drain(messages[..taken]);
      DrainedMeans(messages[..taken], Value());
      EachServerRequestOnce(messages[..taken]);
    }
  }

  lemma SettleShrinks(r: Router, id: RequestId)
    requires id in r.pending
    ensures Settle(r, id, ShuttingDown).pending == r.pending - {id}
    ensures r.deliveries <= Settle(r, id, ShuttingDown).deliveries
  {
  }

  lemma FreshInv()
    ensures Inv([], Fresh)
  {
  }

  lemma DrainedMeans(done: seq<Message>, r: Router)
    requires Inv(done, r) && r.pending == map[]
    ensures AnsweredOnce(r.deliveries)
    ensures forall c :: c in Callers(done) <==> HasAnswer(r.deliveries, c)
    ensures forall i :: 0 <= i < |r.deliveries| ==>
              r.deliveries[i].caller in Callers(done) && Callers(done)[r.deliveries[i].caller] == r.deliveries[i].id
    ensures r.queued == HandedOn(done) && r.failed == FailedBack(done)
  {
  }
}

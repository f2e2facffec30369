/** The facade's forwarding of runtime events to a bounded consumer queue: transcript and completion
    events wait for room, everything else may be dropped and counted in a lag marker. */
module EventForwarding {
  import opened Basics

  datatype Notice =
    | TurnCompleted
    | ThreadSettingsUpdated
    | ItemCompleted
    | AgentMessageDelta
    | ReasoningSummaryTextDelta
    | ReasoningTextDelta
    | OtherNotice

  datatype Event =
    | ServerRequest(id: int, authRefresh: bool)
    | ServerNotification(notice: Notice, payload: int)
    | Lagged(skipped: nat)

  predicate RequiresDelivery(e: Event) {
    && e.ServerNotification?
    && e.notice in {TurnCompleted, ThreadSettingsUpdated, ItemCompleted, AgentMessageDelta, ReasoningSummaryTextDelta, ReasoningTextDelta}
  }

  /** The events that may be dropped: server requests, which are then rejected, and notifications that
      are neither transcript, settings nor completion. */
  predicate BestEffort(e: Event) {
    !e.ServerNotification? || e.notice == OtherNotice
  }

  /** What the facade has put on the consumer queue, what it owes in a lag marker, and the requests
      it has rejected because they could not be queued. */
  datatype Facade = Facade(sent: seq<Event>, skipped: nat, rejected: seq<Event>)

  const FreshFacade := Facade([], 0, [])

  function Drop(f: Facade, e: Event): Facade {
    f.(skipped := f.skipped + 1, rejected := if e.ServerRequest? then f.rejected + [e] else f.rejected)
  }

  /** One event while the consumer listens; the flags say whether the queue had room for the lag
      marker and for the event when they were offered. */
  function Forward(f: Facade, e: Event, roomForMarker: bool, roomForEvent: bool): Facade {
    if f.skipped > 0 && !RequiresDelivery(e) && !roomForMarker then Drop(f, e)
    else
      var g := if f.skipped > 0 then f.(sent := f.sent + [Lagged(f.skipped)], skipped := 0) else f;
      if RequiresDelivery(e) || roomForEvent then g.(sent := g.sent + [e]) else Drop(g, e)
  }

  /** An event is dropped only for want of room: with room, or if it is lossless, it is put out last, nothing
      is owed and nobody is rejected; otherwise one more is owed, and it is rejected if it is a request. */
  lemma DroppedOnlyWhenFull(f: Facade, e: Event, roomForMarker: bool, roomForEvent: bool)
    ensures var g := Forward(f, e, roomForMarker, roomForEvent);
            if !BestEffort(e) || ((f.skipped == 0 || roomForMarker) && roomForEvent)
            then && g.sent != [] && g.sent[|g.sent| - 1] == e && g.skipped == 0 && g.rejected == f.rejected
                 && g.sent[..|g.sent| - 1] == f.sent + if f.skipped > 0 then [Lagged(f.skipped)] else []
            else && g.skipped == (if roomForMarker && !roomForEvent then 0 else f.skipped) + 1
                 && g.rejected == f.rejected + if e.ServerRequest? then [e] else []
  {
  }

  // ---------------------------------------------------------------- position-exact accounting

  /** A slot is a delivered event or the place of a dropped one. */
  type Slots = seq<Option<Event>>

  function Blanks(n: nat): Slots { seq(n, _ => None) }

  function Expand(sent: seq<Event>): Slots {
    if sent == [] then []
    else
      var last := sent[|sent| - 1];
      Expand(sent[..|sent| - 1]) + if last.Lagged? then Blanks(last.skipped) else [Some(last)]
  }

  function SlotsOf(f: Facade): Slots { Expand(f.sent) + Blanks(f.skipped) }

  /** The requests whose slot is blank, in order. */
  function Missing(slots: Slots, offered: seq<Event>): seq<Event>
    requires |slots| == |offered|
  {
    if slots == [] then []
    else
      var n := |slots| - 1;
      Missing(slots[..n], offered[..n])
      + if slots[n].None? && offered[n].ServerRequest? then [offered[n]] else []
  }

  /** Slot by slot: a delivered event is the one offered there, and a blank is the place of one that may be dropped. */
  predicate Fits(slots: Slots, offered: seq<Event>) {
    && |slots| == |offered|
    && forall i :: 0 <= i < |slots| ==>
         if slots[i].Some? then slots[i].value == offered[i] else BestEffort(offered[i])
  }

  ghost predicate Accounted(offered: seq<Event>, f: Facade) {
    && Fits(SlotsOf(f), offered)
    && f.rejected == Missing(SlotsOf(f), offered)
    && forall i :: 0 <= i < |f.sent| && f.sent[i].Lagged? ==> f.sent[i].skipped > 0
  }

  lemma BlanksSnoc(slots: Slots, n: nat)
    ensures slots + Blanks(n + 1) == (slots + Blanks(n)) + [None]
    ensures slots + Blanks(0) == slots
  {
  }

  lemma AccountedSnoc(offered: seq<Event>, slots: Slots, e: Event, slot: Option<Event>)
    requires Fits(slots, offered) && (slot == Some(e) || (slot == None && BestEffort(e)))
    ensures Fits(slots + [slot], offered + [e])
    ensures Missing(slots + [slot], offered + [e])
         == Missing(slots, offered) + if slot.None? && e.ServerRequest? then [e] else []
  {
    var s, o := slots + [slot], offered + [e];
    assert s[..|s| - 1] == slots && o[..|o| - 1] == offered;
  }

  /** Putting the marker out changes no slot. */
  lemma MarkerKeepsSlots(f: Facade)
    ensures SlotsOf(f.(sent := f.sent + [Lagged(f.skipped)], skipped := 0)) == SlotsOf(f)
  {
    var sent := f.sent + [Lagged(f.skipped)];
    assert sent[..|sent| - 1] == f.sent;
    BlanksSnoc(Expand(sent), 0);
  }

  lemma DropAddsBlank(f: Facade, e: Event)
    ensures SlotsOf(Drop(f, e)) == SlotsOf(f) + [None]
  {
    BlanksSnoc(Expand(f.sent), f.skipped);
  }

  lemma SendAddsSlot(f: Facade, e: Event)
    requires f.skipped == 0 && !e.Lagged?
    ensures SlotsOf(f.(sent := f.sent + [e])) == SlotsOf(f) + [Some(e)]
  {
    var sent := f.sent + [e];
    assert sent[..|sent| - 1] == f.sent;
    BlanksSnoc(Expand(f.sent), 0);
    BlanksSnoc(Expand(sent), 0);
  }

  /** Every forwarded event gets exactly one slot, whatever room the queue had. */
  lemma {:induction false} ForwardAccounts(offered: seq<Event>, f: Facade, e: Event, roomForMarker: bool, roomForEvent: bool)
    requires Accounted(offered, f) && !e.Lagged?
    ensures Accounted(offered + [e], Forward(f, e, roomForMarker, roomForEvent))
  {
    hide SlotsOf, Fits, Missing;
    if f.skipped > 0 && !RequiresDelivery(e) && !roomForMarker {
      DropAddsBlank(f, e);
      AccountedSnoc(offered, SlotsOf(f), e, None);
    } else {
      var g := if f.skipped > 0 then f.(sent := f.sent + [Lagged(f.skipped)], skipped := 0) else f;
      MarkerKeepsSlots(f);
      assert SlotsOf(g) == SlotsOf(f);
      if RequiresDelivery(e) || roomForEvent {
        SendAddsSlot(g, e);
        AccountedSnoc(offered, SlotsOf(g), e, Some(e));
      } else {
        DropAddsBlank(g, e);
        AccountedSnoc(offered, SlotsOf(g), e, None);
      }
    }
  }

  lemma NothingAccounted()
    ensures Accounted([], FreshFacade)
  {
  }

  // ---------------------------------------------------------------- the channel and the method

  datatype SendOutcome = Sent | Full | Closed

  /** A bounded queue with a consumer that runs beside the producer. */
  class ConsumerQueue {
    const capacity: nat
    var sent: seq<Event>
    var taken: nat
    var open: bool

    constructor (capacity: nat)
      requires capacity > 0
      ensures Valid() && sent == [] && open && this.capacity == capacity
    {
      this.capacity, sent, taken, open := capacity, [], 0, true;
    }

    predicate Valid()
      reads this
    {
      0 < capacity && taken <= |sent| <= taken + capacity
    }

    /** What the consumer may have done meanwhile: taken any of the waiting events, or gone away. */
    method Consume()
      requires Valid()
      modifies this`taken, this`open
      ensures Valid() && old(taken) <= taken && (open ==> old(open))
    {
      var t :| taken <= t <= |sent|;
      taken := t;
      if * { open := false; }
    }

    method TrySend(e: Event) returns (r: SendOutcome)
      requires Valid()
      modifies this`sent
      ensures Valid()
      ensures r == if !open then Closed else if |old(sent)| == taken + capacity then Full else Sent
      ensures sent == if r.Sent? then old(sent) + [e] else old(sent)
    {
      if !open { return Closed; }
      if |sent| == taken + capacity { return Full; }
      sent := sent + [e];
      return Sent;
    }

    /** Waits until the consumer makes room or goes away. */
    method Send(e: Event) returns (ok: bool)
      requires Valid()
      modifies this`sent, this`taken, this`open
      ensures Valid() && old(taken) <= taken
      ensures ok == open && (open ==> old(open))
      ensures sent == if ok then old(sent) + [e] else old(sent)
    {
      while open && |sent| == taken + capacity
        invariant Valid() && old(taken) <= taken && sent == old(sent) && (open ==> old(open))
        decreases open, |sent| - taken
      {
        if * { open := false; } else { taken := taken + 1; }
      }
      if open {
        sent := sent + [e];
      }
      ok := open;
    }
  }

  datatype ForwardEventResult = Continue | DisableStream

  class EventForwarder {
    var queue: ConsumerQueue
    var skippedEvents: nat
    var rejected: seq<Event>

    constructor (queue: ConsumerQueue)
      ensures this.queue == queue && skippedEvents == 0 && rejected == []
    {
      this.queue, skippedEvents, rejected := queue, 0, [];
    }

    function Value(): Facade
      reads this, queue
    {
      Facade(queue.sent, skippedEvents, rejected)
    }

    /** `forward_in_process_event`. While the consumer listens the outcome is `Forward` with the
        room the queue really had; the stream is disabled exactly when the consumer is gone, and
        then the event has not been delivered. */
    method ForwardInProcessEvent(event: Event) returns (r: ForwardEventResult, ghost roomForMarker: bool, ghost roomForEvent: bool)
      requires queue.Valid()
      modifies this`skippedEvents, this`rejected, queue
      ensures queue.Valid()
      ensures r.Continue? ==> queue.open && Value() == Forward(old(Value()), event, roomForMarker, roomForEvent)
      ensures !roomForMarker || !roomForEvent ==> |queue.sent| == queue.taken + queue.capacity
      ensures r.Continue? ==>
                if skippedEvents == 0 then queue.sent != [] && queue.sent[|queue.sent| - 1] == event
                else |queue.sent| == queue.taken + queue.capacity
      ensures r.DisableStream? ==>
                && !queue.open && rejected == old(rejected)
                && (Value() == old(Value()) ||
                    (old(skippedEvents) > 0 &&
                     Value() == old(Value()).(sent := old(queue.sent) + [Lagged(old(skippedEvents))], skipped := 0)))
    {
      roomForMarker, roomForEvent := true, true;
      if skippedEvents > 0 {
        var marker := SurfaceLag(RequiresDelivery(event));
        if marker.Closed? { return DisableStream, roomForMarker, roomForEvent; }
        if marker.Full? {
          roomForMarker := false;
          Skip(event);
          return Continue, roomForMarker, roomForEvent;
        }
      }
      if RequiresDelivery(event) {
        var ok := queue.Send(event);
        return if ok then Continue else DisableStream, roomForMarker, roomForEvent;
      }
      queue.Consume();
      var outcome := queue.TrySend(event);
      if outcome.Closed? { return DisableStream, roomForMarker, roomForEvent; }
      if outcome.Full? {
        roomForEvent := false;
        Skip(event);
      }
      return Continue, roomForMarker, roomForEvent;
    }

    /** Put the lag marker out, waiting for room only when a lossless event comes behind it. */
    method SurfaceLag(wait: bool) returns (r: SendOutcome)
      requires queue.Valid()
      modifies this`skippedEvents, queue
      ensures queue.Valid()
      ensures r.Sent? ==> queue.sent == old(queue.sent) + [Lagged(old(skippedEvents))] && skippedEvents == 0
      ensures !r.Sent? ==> queue.sent == old(queue.sent) && skippedEvents == old(skippedEvents)
      ensures r.Closed? <==> !queue.open
      ensures r.Full? ==> !wait && |queue.sent| == queue.taken + queue.capacity
    {
      if wait {
        var ok := queue.Send(Lagged(skippedEvents));
        r := if ok then Sent else Closed;
      } else {
        queue.Consume();
        r := queue.TrySend(Lagged(skippedEvents));
      }
      if r.Sent? { skippedEvents := 0; }
    }

    /** Count the event as skipped; a request is handed to the reject callback. */
    method Skip(event: Event)
      modifies this`skippedEvents, this`rejected
      ensures Value() == Drop(old(Value()), event)
    {
      skippedEvents := skippedEvents + 1;
      if event.ServerRequest? {
        rejected := rejected + [event];
      }
    }

    /** Any number of events, up to the one that finds the consumer gone, whatever the consumer takes
        before, between and during the sends: those handled are accounted for slot by slot. */
    method ForwardAll(events: seq<Event>) returns (handled: nat)
      requires queue.Valid() && Value() == FreshFacade
      requires forall i :: 0 <= i < |events| ==> !events[i].Lagged?
      modifies this`skippedEvents, this`rejected, queue
      ensures handled <= |events| && (handled < |events| ==> !queue.open)
      ensures Accounted(events[..handled], Value())
    {
      hide Accounted, Forward;
      NothingAccounted();
      handled := 0;
      assert events[..0] == [];
      while handled < |events|
        invariant 0 <= handled <= |events| && queue.Valid()
        invariant Accounted(events[..handled], Value())
      {
        queue.Consume();
        ghost var before := Value();
        var r, roomForMarker, roomForEvent := ForwardInProcessEvent(events[handled]);
        if r.DisableStream? {
          if Value() != before {
            MarkerAccounts(events[..handled], before);
          }
          return;
        }
        ForwardAccounts(events[..handled], before, events[handled], roomForMarker, roomForEvent);
        assert events[..handled] + [events[handled]] == events[..handled + 1];
        handled := handled + 1;
      }
    }
  }

  lemma MarkerAccounts(offered: seq<Event>, f: Facade)
    requires Accounted(offered, f)
    ensures f.skipped > 0 ==> Accounted(offered, f.(sent := f.sent + [Lagged(f.skipped)], skipped := 0))
  {
    MarkerKeepsSlots(f);
    hide SlotsOf;
  }
}

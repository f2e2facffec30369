/** Events from the runtime through its own bounded queue and then through the facade's. */
module TwoStageDelivery {
  import opened EventForwarding

  /** The runtime's own, smaller lossless class. */
  predicate RuntimeRequiresDelivery(e: Event) {
    e.ServerNotification? && (e.notice.TurnCompleted? || e.notice.ThreadSettingsUpdated?)
  }

  /** `emitted`: everything the server produced. `queue`: the runtime queue. `offered`: what the
      worker took from it and forwarded. `failed`: server requests answered with an error because
      they could not be queued or are not supported in process. */
  datatype Pipeline = Pipeline(emitted: seq<Event>, queue: seq<Event>, offered: seq<Event>, facade: Facade, failed: seq<Event>)

  const Start := Pipeline([], [], [], FreshFacade, [])

  datatype Step =
    /** The runtime loop takes one server message; `room` says whether its queue has space. */
    | Emit(event: Event, room: bool)
    /** The facade worker takes the oldest queued event. */
    | Take(roomForMarker: bool, roomForEvent: bool)

  predicate Enabled(p: Pipeline, step: Step) {
    match step
    case Emit(e, room) => !e.Lagged? && (RuntimeRequiresDelivery(e) ==> room)
    case Take(_, _) => p.queue != []
  }

  function Next(p: Pipeline, step: Step): Pipeline
    requires Enabled(p, step)
  {
    match step
    case Emit(e, room) =>
      var p := p.(emitted := p.emitted + [e]);
      if room then p.(queue := p.queue + [e])
      else if e.ServerRequest? then p.(failed := p.failed + [e])
      else p
    case Take(roomForMarker, roomForEvent) =>
      var e := p.queue[0];
      var p := p.(queue := p.queue[1..]);
      if e.ServerRequest? && e.authRefresh then p.(failed := p.failed + [e])
      else p.(offered := p.offered + [e], facade := Forward(p.facade, e, roomForMarker, roomForEvent))
  }

  /** A run: every step enabled where it is taken. */
  ghost predicate Reaches(p: Pipeline, steps: seq<Step>, q: Pipeline)
    decreases |steps|
  {
    if steps == [] then p == q else Enabled(p, steps[0]) && Reaches(Next(p, steps[0]), steps[1..], q)
  }

  function Delivered(sent: seq<Event>): seq<Event> {
    if sent == [] then []
    else
      var last := sent[|sent| - 1];
      Delivered(sent[..|sent| - 1]) + if last.Lagged? then [] else [last]
  }

  /** `a` is `b` with some elements left out. */
  predicate Subsequence(a: seq<Event>, b: seq<Event>) {
    if a == [] then true
    else if b == [] then false
    else
      || (a[|a| - 1] == b[|b| - 1] && Subsequence(a[..|a| - 1], b[..|b| - 1]))
      || Subsequence(a, b[..|b| - 1])
  }

  lemma SubsequenceSnoc(a: seq<Event>, b: seq<Event>, x: Event)
    requires Subsequence(a, b)
    ensures Subsequence(a, b + [x]) && Subsequence(a + [x], b + [x])
  {
    assert (b + [x])[..|b|] == b && (a + [x])[..|a|] == a;
  }

  lemma {:induction false} SubsequenceTransitive(a: seq<Event>, b: seq<Event>, c: seq<Event>)
    requires Subsequence(a, b) && Subsequence(b, c)
    ensures Subsequence(a, c)
    decreases |b| + |c|
  {
    if a != [] {
      var b', c' := b[..|b| - 1], c[..|c| - 1];
      if b[|b| - 1] == c[|c| - 1] && Subsequence(b', c') {
        if a[|a| - 1] == b[|b| - 1] && Subsequence(a[..|a| - 1], b') {
          SubsequenceTransitive(a[..|a| - 1], b', c');
        } else {
          SubsequenceTransitive(a, b', c');
        }
      } else {
        SubsequenceTransitive(a, b, c');
      }
    }
  }

  predicate Essential(e: Event) { e.ServerNotification? && e.notice in {TurnCompleted, ThreadSettingsUpdated} }

  /** The completions and settings updates, in order; they may be dropped at neither stage. */
  function Lossless(events: seq<Event>): seq<Event> {
    if events == [] then []
    else
      var last := events[|events| - 1];
      Lossless(events[..|events| - 1]) + if Essential(last) then [last] else []
  }

  lemma LosslessSnoc(events: seq<Event>, e: Event)
    ensures Lossless(events + [e]) == Lossless(events) + if Essential(e) then [e] else []
  {
    assert (events + [e])[..|events|] == events;
  }

  lemma {:induction false} LosslessConcat(a: seq<Event>, b: seq<Event>)
    ensures Lossless(a + b) == Lossless(a) + Lossless(b)
    decreases |b|
  {
    if b == [] {
      assert a + b == a;
    } else {
      var init, last := b[..|b| - 1], b[|b| - 1];
      LosslessConcat(a, init);
      assert a + b == (a + init) + [last];
      LosslessSnoc(a + init, last);
    }
  }

  /** The server requests among some events. */
  function Requests(events: seq<Event>): multiset<Event> {
    if events == [] then multiset{}
    else
      var last := events[|events| - 1];
      Requests(events[..|events| - 1]) + if last.ServerRequest? then multiset{last} else multiset{}
  }

  lemma RequestsSnoc(events: seq<Event>, e: Event)
    ensures Requests(events + [e]) == Requests(events) + if e.ServerRequest? then multiset{e} else multiset{}
  {
    assert (events + [e])[..|events|] == events;
  }

  lemma {:induction false} RequestsConcat(a: seq<Event>, b: seq<Event>)
    ensures Requests(a + b) == Requests(a) + Requests(b)
    decreases |b|
  {
    if b == [] {
      assert a + b == a;
    } else {
      var init, last := b[..|b| - 1], b[|b| - 1];
      RequestsConcat(a, init);
      assert a + b == (a + init) + [last];
      RequestsSnoc(a + init, last);
    }
  }

  lemma DeliveredSnoc(sent: seq<Event>, e: Event)
    ensures Delivered(sent + [e]) == Delivered(sent) + if e.Lagged? then [] else [e]
  {
    assert (sent + [e])[..|sent|] == sent;
  }

  /** Forwarding one event delivers it after everything delivered before, or drops it. */
  lemma ForwardDelivers(f: Facade, e: Event, roomForMarker: bool, roomForEvent: bool)
    requires !e.Lagged?
    ensures var d, d' := Delivered(f.sent), Delivered(Forward(f, e, roomForMarker, roomForEvent).sent);
            var rejected, rejected' := f.rejected, Forward(f, e, roomForMarker, roomForEvent).rejected;
            || (d' == d + [e] && rejected' == rejected)
            || (d' == d && !RequiresDelivery(e) && rejected' == if e.ServerRequest? then rejected + [e] else rejected)
  {
    hide Delivered;
    DeliveredSnoc(f.sent, Lagged(f.skipped));
    DeliveredSnoc(f.sent, e);
    DeliveredSnoc(f.sent + [Lagged(f.skipped)], e);
  }

  /** What holds in every reachable state. */
  ghost predicate Inv(p: Pipeline) {
    && Accounted(p.offered, p.facade)
    && Subsequence(Delivered(p.facade.sent), p.offered)
    && Subsequence(p.offered + p.queue, p.emitted)
    && Lossless(Delivered(p.facade.sent)) == Lossless(p.offered)
    && Lossless(p.offered + p.queue) == Lossless(p.emitted)
    && (forall e :: e in p.queue ==> !e.Lagged?)
  }

  /** No server request is lost or answered twice. */
  ghost predicate Conserved(p: Pipeline) {
    && Requests(p.offered) == Requests(Delivered(p.facade.sent)) + multiset(p.facade.rejected)
    && Requests(p.emitted) == Requests(p.offered + p.queue) + multiset(p.failed)
  }

  lemma EmitConserves(p: Pipeline, step: Step)
    requires Conserved(p) && step.Emit? && Enabled(p, step)
    ensures Conserved(Next(p, step))
  {
    hide Delivered, Requests;
    var e := step.event;
    RequestsSnoc(p.emitted, e);
    RequestsSnoc(p.offered + p.queue, e);
    assert p.offered + (p.queue + [e]) == (p.offered + p.queue) + [e];
  }

  lemma TakeConserves(p: Pipeline, step: Step)
    requires Conserved(p) && step.Take? && Enabled(p, step) && !p.queue[0].Lagged?
    ensures Conserved(Next(p, step))
  {
    hide Delivered, Requests, Forward, RequiresDelivery;
    var e, rest := p.queue[0], p.queue[1..];
    assert p.queue == [e] + rest;
    if e.ServerRequest? && e.authRefresh {
      DropOneRequest(p.offered, e, rest);
    } else {
      assert (p.offered + [e]) + rest == p.offered + p.queue;
      ForwardDelivers(p.facade, e, step.roomForMarker, step.roomForEvent);
      RequestsSnoc(p.offered, e);
      RequestsSnoc(Delivered(p.facade.sent), e);
    }
  }

  lemma DropOneRequest(a: seq<Event>, e: Event, b: seq<Event>)
    requires e.ServerRequest?
    ensures Requests(a + ([e] + b)) == Requests(a + b) + multiset{e}
  {
    hide Requests;
    RequestsConcat(a, b);
    RequestsConcat(a, [e] + b);
    RequestsConcat([e], b);
    RequestsSnoc([], e);
    assert [] + [e] == [e];
    assert Requests([]) == multiset{} by { NoRequests(); }
  }

  lemma NoRequests()
    ensures Requests([]) == multiset{}
  {
  }

  lemma EmitKeeps(p: Pipeline, step: Step)
    requires Inv(p) && step.Emit? && Enabled(p, step)
    ensures Inv(Next(p, step))
  {
    hide Subsequence, Lossless, Accounted, Delivered;
    var e := step.event;
    SubsequenceSnoc(p.offered + p.queue, p.emitted, e);
    LosslessSnoc(p.emitted, e);
    LosslessSnoc(p.offered + p.queue, e);
    assert p.offered + (p.queue + [e]) == (p.offered + p.queue) + [e];
  }

  lemma TakeKeeps(p: Pipeline, step: Step)
    requires Inv(p) && step.Take? && Enabled(p, step)
    ensures Inv(Next(p, step))
  {
    hide Subsequence, Lossless, Accounted, Forward, RequiresDelivery, Delivered;
    var e, rest := p.queue[0], p.queue[1..];
    assert e in p.queue;
    assert p.queue == [e] + rest;
    if e.ServerRequest? && e.authRefresh {
      DropMiddle(p.offered, e, rest, p.emitted);
    } else {
      assert (p.offered + [e]) + rest == p.offered + p.queue;
      ForwardAccounts(p.offered, p.facade, e, step.roomForMarker, step.roomForEvent);
      ForwardDelivers(p.facade, e, step.roomForMarker, step.roomForEvent);
      SubsequenceSnoc(Delivered(p.facade.sent), p.offered, e);
      LosslessSnoc(p.offered, e);
      LosslessSnoc(Delivered(p.facade.sent), e);
      RuntimeClassIsSmaller(e);
    }
  }

  lemma RuntimeClassIsSmaller(e: Event)
    ensures RuntimeRequiresDelivery(e) ==> RequiresDelivery(e)
  {
  }

  /** Leaving out one request keeps a subsequence, and loses no lossless event. */
  lemma DropMiddle(a: seq<Event>, e: Event, b: seq<Event>, c: seq<Event>)
    requires Subsequence(a + ([e] + b), c) && e.ServerRequest?
    ensures Subsequence(a + b, c) && Lossless(a + b) == Lossless(a + ([e] + b))
  {
    hide Subsequence;
    SkipMiddle(a, e, b);
    SubsequenceTransitive(a + b, a + ([e] + b), c);
    LosslessConcat(a, b);
    LosslessConcat(a, [e] + b);
    LosslessConcat([e], b);
    LosslessSnoc([], e);
    assert [] + [e] == [e];
  }

  lemma {:induction false} SubsequenceReflexive(a: seq<Event>)
    ensures Subsequence(a, a)
    decreases |a|
  {
    if a != [] { SubsequenceReflexive(a[..|a| - 1]); }
  }

  lemma {:induction false} SkipMiddle(a: seq<Event>, e: Event, b: seq<Event>)
    ensures Subsequence(a + b, a + ([e] + b))
    decreases |b|
  {
    if b == [] {
      assert a + b == a && a + ([e] + b) == a + [e];
      SubsequenceReflexive(a);
      SubsequenceSnoc(a, a, e);
    } else {
      var init, last := b[..|b| - 1], b[|b| - 1];
      SkipMiddle(a, e, init);
      SubsequenceSnoc(a + init, a + ([e] + init), last);
      assert a + b == (a + init) + [last] && a + ([e] + b) == (a + ([e] + init)) + [last];
    }
  }

  lemma {:induction false} RunKeeps(p: Pipeline, steps: seq<Step>, q: Pipeline)
    requires Inv(p) && Conserved(p) && Reaches(p, steps, q)
    ensures Inv(q) && Conserved(q)
    decreases |steps|
  {
    hide Next, Conserved, Accounted, Subsequence, Lossless, Delivered;
    if steps != [] {
      if steps[0].Emit? {
        EmitKeeps(p, steps[0]);
        EmitConserves(p, steps[0]);
      } else {
        TakeKeeps(p, steps[0]);
        assert p.queue[0] in p.queue;
        TakeConserves(p, steps[0]);
      }
      RunKeeps(Next(p, steps[0]), steps[1..], q);
    }
  }

  /** In every run, with both consumers listening: what reaches the client is what was emitted with
      some events left out, in order; the completions and settings updates put out so far, followed
      by those still queued, are all that were emitted; and every server request emitted was
      delivered, rejected by the facade, failed back, or is still queued, exactly once. */
  lemma {:induction false} TwoStageDeliveryHolds(steps: seq<Step>, p: Pipeline)
    requires Reaches(Start, steps, p)
    ensures Subsequence(Delivered(p.facade.sent), p.emitted)
    ensures Lossless(Delivered(p.facade.sent)) + Lossless(p.queue) == Lossless(p.emitted)
    ensures Accounted(p.offered, p.facade)
    ensures Requests(p.emitted)
         == Requests(Delivered(p.facade.sent)) + multiset(p.facade.rejected) + multiset(p.failed) + Requests(p.queue)
  {
    assert Inv(Start) && Conserved(Start) by { NothingAccounted(); }
    RunKeeps(Start, steps, p);
    hide Accounted, Delivered, Lossless, Reaches, Requests;
    RequestsConcat(p.offered, p.queue);
    PrefixSubsequence(p.offered, p.queue);
    SubsequenceTransitive(p.offered, p.offered + p.queue, p.emitted);
    SubsequenceTransitive(Delivered(p.facade.sent), p.offered, p.emitted);
    LosslessConcat(p.offered, p.queue);
  }

  // ---------------------------------------------------------------- runs that always find room

  /** Token refreshes are answered by the worker itself, as not supported. */
  function Forwardable(events: seq<Event>): seq<Event> {
    if events == [] then []
    else
      var last := events[|events| - 1];
      Forwardable(events[..|events| - 1]) + if last.ServerRequest? && last.authRefresh then [] else [last]
  }

  lemma ForwardableSnoc(events: seq<Event>, e: Event)
    ensures Forwardable(events + [e]) == Forwardable(events) + if e.ServerRequest? && e.authRefresh then [] else [e]
  {
    assert (events + [e])[..|events|] == events;
  }

  lemma {:induction false} ForwardableCons(e: Event, events: seq<Event>)
    ensures Forwardable([e] + events) == (if e.ServerRequest? && e.authRefresh then [] else [e]) + Forwardable(events)
    decreases |events|
  {
    if events == [] {
      assert [e] + events == [] + [e];
      ForwardableSnoc([], e);
    } else {
      var init, last := events[..|events| - 1], events[|events| - 1];
      ForwardableCons(e, init);
      assert [e] + events == ([e] + init) + [last];
      ForwardableSnoc([e] + init, last);
    }
  }

  predicate Roomy(step: Step) {
    match step case Emit(_, room) => room case Take(roomForMarker, roomForEvent) => roomForMarker && roomForEvent
  }

  /** Nothing is missing between what was emitted and what was put out or is queued. */
  ghost predicate NothingLost(p: Pipeline) {
    && Delivered(p.facade.sent) + Forwardable(p.queue) == Forwardable(p.emitted)
    && p.facade.skipped == 0 && p.facade.rejected == []
    && (forall e :: e in p.queue ==> !e.Lagged?)
  }

  lemma RoomyStep(p: Pipeline, step: Step)
    requires NothingLost(p) && Enabled(p, step) && Roomy(step)
    ensures NothingLost(Next(p, step))
  {
    hide Delivered, Forwardable, Forward, RequiresDelivery;
    if step.Emit? {
      ForwardableSnoc(p.emitted, step.event);
      ForwardableSnoc(p.queue, step.event);
    } else {
      var e, rest := p.queue[0], p.queue[1..];
      assert p.queue == [e] + rest && e in p.queue;
      ForwardableCons(e, rest);
      DroppedOnlyWhenFull(p.facade, e, true, true);
      var g := Forward(p.facade, e, true, true);
      assert g.sent == p.facade.sent + [e] by {
        assert p.facade.sent + [] == p.facade.sent;
        assert g.sent == g.sent[..|g.sent| - 1] + [e];
      }
      DeliveredSnoc(p.facade.sent, e);
      var d := Delivered(p.facade.sent);
      assert d + ([e] + Forwardable(rest)) == (d + [e]) + Forwardable(rest);
      assert d + ([] + Forwardable(rest)) == d + Forwardable(rest);
    }
  }

  lemma {:induction false} RoomyRunKeeps(p: Pipeline, steps: seq<Step>, q: Pipeline)
    requires NothingLost(p) && Reaches(p, steps, q) && forall i :: 0 <= i < |steps| ==> Roomy(steps[i])
    ensures NothingLost(q)
    decreases |steps|
  {
    hide NothingLost, Next, Roomy;
    if steps != [] {
      assert Roomy(steps[0]);
      RoomyStep(p, steps[0]);
      RoomyRunKeeps(Next(p, steps[0]), steps[1..], q);
    }
  }

  /** In a run that always finds room, everything emitted has been delivered in order or is still queued,
      token refreshes apart; nothing is counted as lag and no request is rejected. */
  lemma {:induction false} RoomyRunLosesNothing(steps: seq<Step>, p: Pipeline)
    requires Reaches(Start, steps, p) && forall i :: 0 <= i < |steps| ==> Roomy(steps[i])
    ensures Delivered(p.facade.sent) + Forwardable(p.queue) == Forwardable(p.emitted)
    ensures p.facade.skipped == 0 && p.facade.rejected == []
  {
    assert NothingLost(Start);
    RoomyRunKeeps(Start, steps, p);
    hide Reaches;
  }

  lemma {:induction false} PrefixSubsequence(a: seq<Event>, b: seq<Event>)
    ensures Subsequence(a, a + b)
    decreases |b|
  {
    if b == [] {
      assert a + b == a;
      SubsequenceReflexive(a);
    } else {
      var init, last := b[..|b| - 1], b[|b| - 1];
      PrefixSubsequence(a, init);
      assert a + b == (a + init) + [last];
      SubsequenceSnoc(a, a + init, last);
    }
  }
}

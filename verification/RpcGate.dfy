/** The per-connection gate: handlers start only while it accepts, and shutdown waits for those
    that did. Each step is what one caller does while it holds the lock, or one await resuming. */
module RpcGate {

  /** A call of `run`, or of `shutdown`. */
  type Call = string

  /** `tokens` is the tracker's own count; the sets say where each call is. */
  datatype Gate = Gate(
    accepting: bool,
    trackerClosed: bool,
    tokens: nat,
    arrived: set<Call>,
    running: set<Call>,
    finished: set<Call>,
    shuttingDown: set<Call>,
    shutDown: set<Call>)

  const Open := Gate(true, false, 0, {}, {}, {}, {}, {})

  datatype Step =
    | Arrive(call: Call)
    | TakeToken(call: Call)
    | Refuse(call: Call)
    | FinishOrCancel(call: Call)
    | Close
    | BeginShutdown(call: Call)
    | EndShutdown(call: Call)

  predicate Enabled(g: Gate, s: Step) {
    match s
    case Arrive(c) => c !in g.arrived
    case TakeToken(c) => c in g.arrived && c !in g.running && c !in g.finished && g.accepting
    case Refuse(c) => c in g.arrived && c !in g.running && c !in g.finished && !g.accepting
    case FinishOrCancel(c) => c in g.running && g.tokens > 0
    case Close => true
    case BeginShutdown(c) => c !in g.shuttingDown
    case EndShutdown(c) => c in g.shuttingDown && g.trackerClosed && g.tokens == 0
  }

  function Next(g: Gate, s: Step): Gate
    requires Enabled(g, s)
  {
    match s
    case Arrive(c) => g.(arrived := g.arrived + {c})
    case TakeToken(c) => g.(running := g.running + {c}, tokens := g.tokens + 1)
    case Refuse(c) => g.(arrived := g.arrived - {c})
    case FinishOrCancel(c) => g.(running := g.running - {c}, finished := g.finished + {c}, tokens := g.tokens - 1)
    case Close => g.(accepting := false, trackerClosed := true)
    case BeginShutdown(c) => g.(accepting := false, trackerClosed := true, shuttingDown := g.shuttingDown + {c})
    case EndShutdown(c) => g.(shutDown := g.shutDown + {c})
  }

  ghost predicate Reaches(g: Gate, steps: seq<Step>, h: Gate)
    decreases |steps|
  {
    if steps == [] then g == h else Enabled(g, steps[0]) && Reaches(Next(g, steps[0]), steps[1..], h)
  }

  /** The handlers that have ever started. */
  function Started(g: Gate): set<Call> { g.running + g.finished }

  ghost predicate Inv(g: Gate) {
    && g.tokens == |g.running|
    && g.running !! g.finished
    && g.accepting == !g.trackerClosed
    && (g.shuttingDown != {} ==> !g.accepting)
    && g.shutDown <= g.shuttingDown
    && (g.shutDown != {} ==> g.running == {})
  }

  lemma NextKeeps(g: Gate, s: Step)
    requires Inv(g) && Enabled(g, s)
    ensures Inv(Next(g, s))
    ensures g.shutDown <= Next(g, s).shutDown
  {
    if s.EndShutdown? {
      assert |g.running| == 0;
    }
    if s.FinishOrCancel? {
      assert |g.running - {s.call}| == |g.running| - 1;
    }
  }

  /** A closed gate stays closed and starts nothing. */
  lemma ClosedStays(g: Gate, s: Step)
    requires !g.accepting && Enabled(g, s)
    ensures !Next(g, s).accepting && Started(Next(g, s)) == Started(g)
  {
    if s.FinishOrCancel? {
      assert g.running - {s.call} + (g.finished + {s.call}) == g.running + g.finished;
    }
  }

  lemma {:induction false} RunKeeps(g: Gate, steps: seq<Step>, h: Gate)
    requires Inv(g) && Reaches(g, steps, h)
    ensures Inv(h)
    ensures !g.accepting ==> !h.accepting && Started(h) == Started(g)
    ensures g.shutDown <= h.shutDown
    decreases |steps|
  {
    hide Next, Started, Inv, Enabled;
    if steps != [] {
      NextKeeps(g, steps[0]);
      if !g.accepting { ClosedStays(g, steps[0]); }
      RunKeeps(Next(g, steps[0]), steps[1..], h);
    }
  }

  /** Under every interleaving: once closed the gate starts no handler again, and once a shutdown
      has returned no handler is running or ever will be. A handler that runs can always finish. */
  lemma {:induction false} ClosedGateStartsNothing(before: seq<Step>, g: Gate, after: seq<Step>, h: Gate)
    requires Reaches(Open, before, g) && Reaches(g, after, h)
    ensures !g.accepting ==> Started(h) == Started(g)
    ensures g.shutDown != {} ==> g.running == {} && h.running == {} && Started(h) == Started(g)
    ensures forall c :: c in g.running ==> Enabled(g, FinishOrCancel(c))
  {
    assert Inv(Open);
    RunKeeps(Open, before, g);
    RunKeeps(g, after, h);
    hide Reaches;
    forall c | c in g.running ensures Enabled(g, FinishOrCancel(c)) {
      assert {c} <= g.running;
      Members({c}, g.running);
    }
  }

  predicate Closing(s: Step) { s.Close? || s.BeginShutdown? }

  lemma StepHistory(g: Gate, s: Step)
    requires Enabled(g, s)
    ensures Next(g, s).accepting <==> g.accepting && !Closing(s)
    ensures Started(Next(g, s)) == Started(g) + if s.TakeToken? then {s.call} else {}
    ensures Next(g, s).shuttingDown == g.shuttingDown + if s.BeginShutdown? then {s.call} else {}
  {
  }

  /** The gate accepts until it is closed, and the handlers that started are those that took a token. */
  lemma {:induction false} RunHistory(g: Gate, steps: seq<Step>, h: Gate)
    requires Reaches(g, steps, h)
    ensures h.accepting <==> g.accepting && forall s :: s in steps ==> !Closing(s)
    ensures forall c :: c in Started(h) <==> c in Started(g) || TakeToken(c) in steps
    ensures forall c :: c in h.shuttingDown <==> c in g.shuttingDown || BeginShutdown(c) in steps
    decreases |steps|
  {
    hide Next, Started, Enabled;
    if steps != [] {
      assert steps == [steps[0]] + steps[1..];
      StepHistory(g, steps[0]);
      RunHistory(Next(g, steps[0]), steps[1..], h);
    }
  }

  /** Nobody is kept out or waits for nothing: until the gate is closed every call that has arrived may
      start, it is refused only afterwards, and a shutdown may return as soon as no handler runs. */
  lemma {:induction false} OpenGateServes(before: seq<Step>, g: Gate, c: Call)
    requires Reaches(Open, before, g)
    ensures c in g.arrived && c !in Started(g) ==>
              if exists s :: s in before && Closing(s) then Enabled(g, Refuse(c)) && !Enabled(g, TakeToken(c))
              else Enabled(g, TakeToken(c)) && !Enabled(g, Refuse(c)) && c in Next(g, TakeToken(c)).running
    ensures BeginShutdown(c) in before ==> (Enabled(g, EndShutdown(c)) <==> g.running == {})
  {
    assert Inv(Open);
    RunKeeps(Open, before, g);
    RunHistory(Open, before, g);
    hide Reaches;
    if g.running != {} {
      var x :| x in g.running;
      Members({x}, g.running);
    }
  }

  lemma Members(a: set<Call>, b: set<Call>)
    requires a <= b
    ensures |a| <= |b|
  {
    assert b == a + (b - a);
  }
}

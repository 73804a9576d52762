/** The client's request/response protocol: three handler tables keyed by message id. */
module Client {
  import opened Common
  import opened IdGen

  type Id = nat

  /** A registered callback: the client's own, or one that a proxy session registered. */
  datatype Token = Own(n: nat) | Proxied(n: nat)

  datatype Payload = Reply(body: int) | SyntheticError

  /** How a once-handler leaves its table. Only the first two invoke it. */
  datatype How = Responded(payload: Payload) | Synthesized | Dropped | SendFailure | Overwritten

  /** The history: deliveries to persistent handlers, and departures of once-handlers. */
  datatype Entry = Delivered(token: Token, payload: Payload) | Exit(token: Token, how: How)

  datatype ClientState = ClientState(once: map<Id, Token>, subs: map<Id, Token>, log: seq<Entry>)

  const EMPTY := ClientState(map[], map[], [])

  // ----- One critical section at a time -----

  /**
   * The atomic steps. A request is registered before it is sent, so any other step may come between
   * the registration and the report that its send failed. A transport error clears the persistent
   * handlers and then drains the once-handlers, in an order the map picks; `failing` are the ids
   * whose handler returns an error.
   */
  datatype Event =
    | RegisterOnce(id: Id, token: Token)
    | OnceSendFailed(id: Id)
    | Register(id: Id, token: Token)
    | SendFailed(id: Id)
    | Receive(id: Id, payload: Payload)
    | Unsubscribe(id: Id)
    | ClearSubscriptions
    | DrainOnce(order: seq<Id>, failing: set<Id>)

  ghost predicate IsOrderOf(order: seq<Id>, once: map<Id, Token>) {
    && (forall i, j :: 0 <= i < j < |order| ==> order[i] != order[j])
    && forall id :: id in order <==> id in once
  }

  ghost predicate Enabled(s: ClientState, e: Event) {
    e.DrainOnce? ==> IsOrderOf(e.order, s.once)
  }

  /** Handlers are invoked up to and including the first that fails; the rest are dropped. */
  function DrainEntries(once: map<Id, Token>, order: seq<Id>, failing: set<Id>, stopped: bool): (es: seq<Entry>)
    requires forall id :: id in order ==> id in once
    ensures |es| == |order|
  {
    if order == [] then []
    else
      assert order[0] in order;
      [Exit(once[order[0]], if stopped then Dropped else Synthesized)] +
      DrainEntries(once, order[1..], failing, stopped || order[0] in failing)
  }

  ghost function Step(s: ClientState, e: Event): ClientState
    requires Enabled(s, e)
  {
    match e
    case RegisterOnce(id, token) =>
      ClientState(s.once[id := token], s.subs, s.log + if id in s.once then [Exit(s.once[id], Overwritten)] else [])
    case OnceSendFailed(id) =>
      if id in s.once then ClientState(s.once - {id}, s.subs, s.log + [Exit(s.once[id], SendFailure)]) else s
    case Register(id, token) => s.(subs := s.subs[id := token])
    case SendFailed(id) => s.(subs := s.subs - {id})
    case Receive(id, payload) =>
      if id in s.once then ClientState(s.once - {id}, s.subs, s.log + [Exit(s.once[id], Responded(payload))])
      else if id in s.subs then s.(log := s.log + [Delivered(s.subs[id], payload)])
      else s
    case Unsubscribe(id) => s.(subs := s.subs - {id})
    case ClearSubscriptions => s.(subs := map[])
    case DrainOnce(order, failing) => ClientState(map[], s.subs, s.log + DrainEntries(s.once, order, failing, false))
  }

  ghost predicate IsRun(s: ClientState, events: seq<Event>)
    decreases |events|, 0
  {
    events == [] || (IsRun(s, events[..|events| - 1]) && Enabled(Run(s, events[..|events| - 1]), events[|events| - 1]))
  }

  ghost function Run(s: ClientState, events: seq<Event>): ClientState
    requires IsRun(s, events)
    decreases |events|, 1
  {
    if events == [] then s else Step(Run(s, events[..|events| - 1]), events[|events| - 1])
  }

  lemma {:induction false} RunExtends(s: ClientState, init: seq<Event>, e: Event)
    requires IsRun(s, init) && Enabled(Run(s, init), e)
    ensures IsRun(s, init + [e]) && Run(s, init + [e]) == Step(Run(s, init), e)
  {
    assert (init + [e])[..|init + [e]| - 1] == init;
  }

  // ----- Every once-handler leaves exactly once -----

  function ExitsOf(log: seq<Entry>, t: Token): nat {
    if log == [] then 0
    else ExitsOf(log[..|log| - 1], t) + if log[|log| - 1].Exit? && log[|log| - 1].token == t then 1 else 0
  }

  function OnceRegistrations(events: seq<Event>, t: Token): nat {
    if events == [] then 0
    else OnceRegistrations(events[..|events| - 1], t) +
         if events[|events| - 1].RegisterOnce? && events[|events| - 1].token == t then 1 else 0
  }

  /** How many ids hold the handler: a handler object is registered under one id, so 0 or 1. */
  function Waiting(once: map<Id, Token>, t: Token): nat {
    |Holders(once, t)|
  }

  function Holders(once: map<Id, Token>, t: Token): set<Id> {
    set id | id in once && once[id] == t
  }

  lemma {:induction false} ExitsOfConcat(a: seq<Entry>, b: seq<Entry>, t: Token)
    ensures ExitsOf(a + b, t) == ExitsOf(a, t) + ExitsOf(b, t)
  {
    if b == [] {
      assert a + b == a;
    } else {
      assert (a + b)[..|a + b| - 1] == a + b[..|b| - 1];
      ExitsOfConcat(a, b[..|b| - 1], t);
    }
  }

  lemma ExitsOfOne(e: Entry, t: Token)
    ensures ExitsOf([e], t) == if e.Exit? && e.token == t then 1 else 0
  {
    assert [e][..0] == [];
    assert ExitsOf([e][..0], t) == 0;
  }

  lemma WaitingNone(t: Token)
    ensures Waiting(map[], t) == 0
  {
    assert Holders(map[], t) == {};
  }

  lemma WaitingRemoved(once: map<Id, Token>, id: Id, t: Token)
    requires id in once
    ensures Waiting(once, t) == Waiting(once - {id}, t) + if once[id] == t then 1 else 0
  {
    var all, rest := Holders(once, t), Holders(once - {id}, t);
    assert id !in rest;
    assert all == if once[id] == t then rest + {id} else rest;
  }

  lemma WaitingAdded(once: map<Id, Token>, id: Id, token: Token, t: Token)
    requires id !in once
    ensures Waiting(once[id := token], t) == Waiting(once, t) + if token == t then 1 else 0
  {
    WaitingRemoved(once[id := token], id, t);
    assert once[id := token] - {id} == once;
  }

  lemma {:induction false} DrainExits(once: map<Id, Token>, order: seq<Id>, failing: set<Id>, stopped: bool, t: Token)
    requires IsOrderOf(order, once)
    ensures ExitsOf(DrainEntries(once, order, failing, stopped), t) == Waiting(once, t)
  {
    assert order == [] ==> once.Keys == {} && once == map[];
    if order == [] {
      WaitingNone(t);
    } else {
      var id, rest := order[0], order[1..];
      var less := once - {id};
      assert id in order;
      forall i ensures i in rest <==> i in less { OrderTail(order, once, i); }
      DrainExits(less, rest, failing, stopped || id in failing, t);
      DrainOfLess(once, less, rest, failing, stopped || id in failing);
      var first := Exit(once[id], if stopped then Dropped else Synthesized);
      ExitsOfConcat([first], DrainEntries(once, rest, failing, stopped || id in failing), t);
      ExitsOfOne(first, t);
      WaitingRemoved(once, id, t);
    }
  }

  lemma OrderTail(order: seq<Id>, once: map<Id, Token>, i: Id)
    requires IsOrderOf(order, once) && order != []
    ensures i in order[1..] <==> i in once && i != order[0]
  {
    if i in order[1..] {
      var k :| 1 <= k < |order| && order[k] == i;
      assert i in order;
    }
    if i in once && i != order[0] { assert i in order; }
  }

  lemma {:induction false} DrainOfLess(once: map<Id, Token>, less: map<Id, Token>, order: seq<Id>, failing: set<Id>,
                                       stopped: bool)
    requires forall i :: i in order ==> i in less && i in once && less[i] == once[i]
    ensures DrainEntries(once, order, failing, stopped) == DrainEntries(less, order, failing, stopped)
  {
    if order != [] {
      assert order[0] in order;
      assert forall i :: i in order[1..] ==> i in order;
      DrainOfLess(once, less, order[1..], failing, stopped || order[0] in failing);
    }
  }

  /** What one step adds to the departures of a handler, and takes from the waiting. */
  lemma StepConserves(s: ClientState, e: Event, t: Token)
    requires Enabled(s, e)
    ensures ExitsOf(Step(s, e).log, t) + Waiting(Step(s, e).once, t) ==
            ExitsOf(s.log, t) + Waiting(s.once, t) + if e.RegisterOnce? && e.token == t then 1 else 0
  {
    match e
    case RegisterOnce(id, token) =>
      if id in s.once {
        ExitsOfConcat(s.log, [Exit(s.once[id], Overwritten)], t);
        ExitsOfOne(Exit(s.once[id], Overwritten), t);
        WaitingRemoved(s.once, id, t);
        WaitingAdded(s.once - {id}, id, token, t);
        assert (s.once - {id})[id := token] == s.once[id := token];
      } else {
        WaitingAdded(s.once, id, token, t);
        assert s.log + [] == s.log;
      }
    case OnceSendFailed(id) =>
      if id in s.once {
        ExitsOfConcat(s.log, [Exit(s.once[id], SendFailure)], t);
        ExitsOfOne(Exit(s.once[id], SendFailure), t);
        WaitingRemoved(s.once, id, t);
      }
    case Receive(id, payload) =>
      if id in s.once {
        ExitsOfConcat(s.log, [Exit(s.once[id], Responded(payload))], t);
        ExitsOfOne(Exit(s.once[id], Responded(payload)), t);
        WaitingRemoved(s.once, id, t);
      } else if id in s.subs {
        ExitsOfConcat(s.log, [Delivered(s.subs[id], payload)], t);
        ExitsOfOne(Delivered(s.subs[id], payload), t);
      }
    case DrainOnce(order, failing) =>
      ExitsOfConcat(s.log, DrainEntries(s.once, order, failing, false), t);
      DrainExits(s.once, order, failing, false, t);
      WaitingNone(t);
    case _ =>
  }

  /**
   * Conservation over all runs: every registration of a once-handler is matched by exactly one
   * departure, or by its still waiting. No interleaving loses a handler or runs it twice, even when
   * the response arrives while its request is still being sent.
   */
  lemma {:induction false} EveryHandlerLeavesOnce(events: seq<Event>, t: Token)
    requires IsRun(EMPTY, events)
    ensures ExitsOf(Run(EMPTY, events).log, t) + Waiting(Run(EMPTY, events).once, t) == OnceRegistrations(events, t)
    decreases |events|
  {
    if events == [] {
      WaitingNone(t);
    } else {
      EveryHandlerLeavesOnce(events[..|events| - 1], t);
      StepConserves(Run(EMPTY, events[..|events| - 1]), events[|events| - 1], t);
    }
  }

  // ----- At most one invocation -----

  function Invocations(log: seq<Entry>, t: Token): nat {
    if log == [] then 0
    else Invocations(log[..|log| - 1], t) +
         match log[|log| - 1]
         case Exit(token, Responded(_)) => if token == t then 1 else 0
         case Exit(token, Synthesized) => if token == t then 1 else 0
         case _ => 0
  }

  lemma {:induction false} InvocationsAreExits(log: seq<Entry>, t: Token)
    ensures Invocations(log, t) <= ExitsOf(log, t)
  {
    if log != [] { InvocationsAreExits(log[..|log| - 1], t); }
  }

  /** A handler registered once is invoked at most once, in any run. */
  lemma InvokedAtMostOnce(events: seq<Event>, t: Token)
    requires IsRun(EMPTY, events) && OnceRegistrations(events, t) <= 1
    ensures Invocations(Run(EMPTY, events).log, t) <= 1
  {
    EveryHandlerLeavesOnce(events, t);
    InvocationsAreExits(Run(EMPTY, events).log, t);
  }

  // ----- Fresh ids -----

  /** The ids under which handlers were registered, in order. */
  function RegisteredIds(events: seq<Event>): seq<Id> {
    if events == [] then []
    else
      var e := events[|events| - 1];
      RegisteredIds(events[..|events| - 1]) + if e.RegisterOnce? || e.Register? then [e.id] else []
  }

  /**
   * Ids of different draws are fresh, for the generator's first 2^32 draws. Not every draw is
   * registered here: error callbacks take ids from the same generator.
   */
  lemma GeneratedIdsAreFresh(starts: seq<u32>, offsets: seq<u32>, draws: seq<nat>, ids: seq<Id>)
    requires |starts| == |offsets| > 0 && |draws| == |ids| && Distinct(draws)
    requires forall i :: 0 <= i < |draws| ==> draws[i] < U32 && ids[i] == IdOfDraw(starts, offsets, draws[i])
    ensures Distinct(ids)
  {
    forall i, j | 0 <= i < j < |ids| ensures ids[i] != ids[j] {
      InFirstSequence(starts, offsets, draws[i]);
      InFirstSequence(starts, offsets, draws[j]);
      IdsAreDistinct(starts[0], offsets[0], draws[i], draws[j]);
    }
  }

  lemma FreshPrefix(ids: seq<Id>, more: seq<Id>)
    requires Distinct(ids + more)
    ensures Distinct(ids) && forall x :: x in more ==> x !in ids
  {
    var all := ids + more;
    forall i, j | 0 <= i < j < |ids| ensures ids[i] != ids[j] { assert all[i] != all[j]; }
    forall x | x in more ensures x !in ids {
      var j :| 0 <= j < |more| && more[j] == x;
      assert all[|ids| + j] == x;
      forall i | 0 <= i < |ids| ensures ids[i] != x { assert all[i] != all[|ids| + j]; }
    }
  }

  ghost predicate NoOverwrites(log: seq<Entry>) {
    forall e :: e in log ==> !(e.Exit? && e.how == Overwritten)
  }

  lemma {:induction false} DrainNeverOverwrites(once: map<Id, Token>, order: seq<Id>, failing: set<Id>, stopped: bool)
    requires forall id :: id in order ==> id in once
    ensures NoOverwrites(DrainEntries(once, order, failing, stopped))
  {
    if order != [] {
      assert order[0] in order && forall id :: id in order[1..] ==> id in order;
      DrainNeverOverwrites(once, order[1..], failing, stopped || order[0] in failing);
    }
  }

  /**
   * With fresh ids the two tables never share an id and no registration displaces a handler, so the
   * only departures are response, synthetic error, drop after a failed drain, and failed send.
   */
  lemma {:induction false} FreshRunsKeepTablesApart(events: seq<Event>)
    requires IsRun(EMPTY, events) && Distinct(RegisteredIds(events))
    ensures var s := Run(EMPTY, events);
            && s.once.Keys !! s.subs.Keys
            && (forall id :: id in s.once || id in s.subs ==> id in RegisteredIds(events))
            && NoOverwrites(s.log)
    decreases |events|
  {
    if events != [] {
      var init, e := events[..|events| - 1], events[|events| - 1];
      FreshPrefix(RegisteredIds(init), if e.RegisterOnce? || e.Register? then [e.id] else []);
      FreshRunsKeepTablesApart(init);
      if e.DrainOnce? { DrainNeverOverwrites(Run(EMPTY, init).once, e.order, e.failing, false); }
    }
  }

  // ----- Transport errors -----

  /** What the caller of a one-shot request sees. */
  datatype Outcome = Pending | Resolved(payload: Payload) | Failed

  /**
   * A dropped handler of the client's own takes its channel with it, so the caller's wait fails. This is
   * not so of forwarding handlers, whose callers are elsewhere.
   */
  function OutcomeOf(log: seq<Entry>, t: Token): Outcome {
    if log == [] then Pending
    else
      var before := OutcomeOf(log[..|log| - 1], t);
      if before != Pending then before
      else match log[|log| - 1]
        case Exit(token, how) =>
          if token != t then Pending
          else (match how
            case Responded(p) => Resolved(p)
            case Synthesized => Resolved(SyntheticError)
            case _ => Failed)
        case Delivered(_, _) => Pending
  }

  lemma {:induction false} PendingMeansNoExit(log: seq<Entry>, t: Token)
    ensures OutcomeOf(log, t) == Pending <==> ExitsOf(log, t) == 0
  {
    if log != [] { PendingMeansNoExit(log[..|log| - 1], t); }
  }

  lemma {:induction false} OutcomeOfConcat(a: seq<Entry>, b: seq<Entry>, t: Token)
    requires OutcomeOf(a, t) == Pending
    ensures OutcomeOf(a + b, t) == OutcomeOf(b, t)
  {
    if b == [] {
      assert a + b == a;
    } else {
      assert (a + b)[..|a + b| - 1] == a + b[..|b| - 1];
      OutcomeOfConcat(a, b[..|b| - 1], t);
    }
  }

  lemma OutcomeStays(a: seq<Entry>, b: seq<Entry>, t: Token)
    requires a <= b && OutcomeOf(a, t) != Pending
    ensures OutcomeOf(b, t) == OutcomeOf(a, t)
    decreases |b|
  {
    if a != b {
      assert a <= b[..|b| - 1];
      OutcomeStays(a, b[..|b| - 1], t);
    }
  }

  lemma {:induction false} LogGrows(s: ClientState, events: seq<Event>, n: nat)
    requires IsRun(s, events) && n <= |events|
    ensures IsRun(s, events[..n]) && Run(s, events[..n]).log <= Run(s, events).log
    decreases |events|
  {
    if n < |events| {
      LogGrows(s, events[..|events| - 1], n);
      assert events[..|events| - 1][..n] == events[..n];
    } else {
      assert events[..n] == events;
    }
  }

  /** The step takes the one-shot handler under the id out of its table. */
  predicate Takes(e: Event, id: Id) {
    e.DrainOnce? || e == OnceSendFailed(id) || ((e.RegisterOnce? || e.Receive?) && e.id == id)
  }

  lemma {:induction false} HeldUntilTaken(before: seq<Event>, id: Id, t: Token, between: seq<Event>)
    requires IsRun(EMPTY, before + [RegisterOnce(id, t)] + between)
    requires forall e :: e in between ==> !Takes(e, id)
    ensures var s := Run(EMPTY, before + [RegisterOnce(id, t)] + between); id in s.once && s.once[id] == t
    decreases |between|
  {
    var all := before + [RegisterOnce(id, t)] + between;
    if between == [] {
      assert all[..|all| - 1] == before && all[|all| - 1] == RegisterOnce(id, t);
    } else {
      var init, e := between[..|between| - 1], between[|between| - 1];
      assert all[..|all| - 1] == before + [RegisterOnce(id, t)] + init;
      assert e in between && forall x :: x in init ==> x in between;
      HeldUntilTaken(before, id, t, init);
    }
  }

  /**
   * In every run the caller of a one-shot request gets the payload of the first response to its id, or
   * a failure if the send is reported to have failed first; its handler is then gone, and nothing that
   * happens later changes what it got.
   */
  lemma {:induction false} CallerIsAnswered(before: seq<Event>, id: Id, t: Token, between: seq<Event>, e: Event,
                                            later: seq<Event>)
    requires IsRun(EMPTY, before + [RegisterOnce(id, t)] + between + [e] + later)
    requires OnceRegistrations(before + [RegisterOnce(id, t)] + between, t) == 1
    requires forall x :: x in between ==> !Takes(x, id)
    requires e == OnceSendFailed(id) || (e.Receive? && e.id == id)
    ensures IsRun(EMPTY, before + [RegisterOnce(id, t)] + between)
    ensures IsRun(EMPTY, before + [RegisterOnce(id, t)] + between + [e])
    ensures OutcomeOf(Run(EMPTY, before + [RegisterOnce(id, t)] + between).log, t) == Pending
    ensures id !in Run(EMPTY, before + [RegisterOnce(id, t)] + between + [e]).once
    ensures OutcomeOf(Run(EMPTY, before + [RegisterOnce(id, t)] + between + [e] + later).log, t) ==
            if e.Receive? then Resolved(e.payload) else Failed
  {
    var asked := before + [RegisterOnce(id, t)] + between;
    var answered, all := asked + [e], asked + [e] + later;
    assert all[..|asked|] == asked && all[..|answered|] == answered && answered[..|asked|] == asked;
    LogGrows(EMPTY, all, |asked|);
    LogGrows(EMPTY, all, |answered|);
    HeldUntilTaken(before, id, t, between);
    OnePending(asked, id, t);
    AnswerOf(Run(EMPTY, asked), id, t, e);
    assert Run(EMPTY, answered) == Step(Run(EMPTY, asked), e);
    OutcomeStays(Run(EMPTY, answered).log, Run(EMPTY, all).log, t);
  }

  /** A handler that is waiting and was registered once has not left yet. */
  lemma OnePending(events: seq<Event>, id: Id, t: Token)
    requires IsRun(EMPTY, events) && OnceRegistrations(events, t) == 1
    requires id in Run(EMPTY, events).once && Run(EMPTY, events).once[id] == t
    ensures OutcomeOf(Run(EMPTY, events).log, t) == Pending
  {
    EveryHandlerLeavesOnce(events, t);
    assert id in Holders(Run(EMPTY, events).once, t);
    PendingMeansNoExit(Run(EMPTY, events).log, t);
  }

  lemma AnswerOf(s: ClientState, id: Id, t: Token, e: Event)
    requires id in s.once && s.once[id] == t && OutcomeOf(s.log, t) == Pending
    requires e == OnceSendFailed(id) || (e.Receive? && e.id == id)
    ensures Step(s, e).once == s.once - {id} && Step(s, e).subs == s.subs
    ensures OutcomeOf(Step(s, e).log, t) == if e.Receive? then Resolved(e.payload) else Failed
  {
    var exit := Exit(t, if e.Receive? then Responded(e.payload) else SendFailure);
    OutcomeOfConcat(s.log, [exit], t);
    assert [exit][..0] == [];
    assert OutcomeOf([exit][..0], t) == Pending;
  }

  /** What persistent handlers were given, in order. */
  function Heard(log: seq<Entry>, t: Token): seq<Payload> {
    if log == [] then []
    else
      var e := log[|log| - 1];
      Heard(log[..|log| - 1], t) + if e.Delivered? && e.token == t then [e.payload] else []
  }

  /** The payloads that arrive under an id, in order. */
  function Arrivals(events: seq<Event>, id: Id): seq<Payload> {
    if events == [] then []
    else
      var e := events[|events| - 1];
      Arrivals(events[..|events| - 1], id) + if e.Receive? && e.id == id then [e.payload] else []
  }

  /** The step ends or hides what a persistent handler under the id hears, or lets it hear under another id. */
  predicate Disturbs(e: Event, id: Id, t: Token) {
    Displaces(e, id) || (e.RegisterOnce? && e.id == id) || (e.Register? && e.token == t)
  }

  /**
   * While a subscription is in place its handler is given every payload that arrives under its id, in
   * order, and nothing else.
   */
  lemma {:induction false} SubscriberHearsAll(s: ClientState, events: seq<Event>, id: Id, t: Token)
    requires IsRun(s, events)
    requires id in s.subs && s.subs[id] == t && id !in s.once && forall x :: x in s.subs && s.subs[x] == t ==> x == id
    requires forall e :: e in events ==> !Disturbs(e, id, t)
    ensures var now := Run(s, events);
            && id in now.subs && now.subs[id] == t && id !in now.once
            && (forall x :: x in now.subs && now.subs[x] == t ==> x == id)
            && Heard(now.log, t) == Heard(s.log, t) + Arrivals(events, id)
    decreases |events|
  {
    if events != [] {
      var init, e := events[..|events| - 1], events[|events| - 1];
      assert e in events && forall x :: x in init ==> x in events;
      SubscriberHearsAll(s, init, id, t);
      HearsStep(Run(s, init), e, id, t);
      var last := if e.Receive? && e.id == id then [e.payload] else [];
      assert Heard(s.log, t) + Arrivals(init, id) + last == Heard(s.log, t) + (Arrivals(init, id) + last);
    }
  }

  lemma HearsStep(s: ClientState, e: Event, id: Id, t: Token)
    requires Enabled(s, e) && !Disturbs(e, id, t)
    requires id in s.subs && s.subs[id] == t && id !in s.once && forall x :: x in s.subs && s.subs[x] == t ==> x == id
    ensures Heard(Step(s, e).log, t) == Heard(s.log, t) + if e.Receive? && e.id == id then [e.payload] else []
  {
    match e
    case RegisterOnce(i, _) => if i in s.once { HeardMore(s.log, [Exit(s.once[i], Overwritten)], t); }
      assert s.log + [] == s.log;
    case OnceSendFailed(i) => if i in s.once { HeardMore(s.log, [Exit(s.once[i], SendFailure)], t); }
    case Receive(i, p) =>
      if i in s.once { HeardMore(s.log, [Exit(s.once[i], Responded(p))], t); }
      else if i in s.subs {
        assert (s.log + [Delivered(s.subs[i], p)])[..|s.log|] == s.log;
      }
    case DrainOnce(order, failing) =>
      DrainNeverReplies(s.once, order, failing, false);
      HeardMore(s.log, DrainEntries(s.once, order, failing, false), t);
    case _ =>
  }

  lemma {:induction false} HeardMore(log: seq<Entry>, exits: seq<Entry>, t: Token)
    requires forall e :: e in exits ==> e.Exit?
    ensures Heard(log + exits, t) == Heard(log, t)
  {
    if exits == [] {
      assert log + exits == log;
    } else {
      assert (log + exits)[..|log + exits| - 1] == log + exits[..|exits| - 1];
      assert exits[|exits| - 1] in exits && forall e :: e in exits[..|exits| - 1] ==> e in exits;
      HeardMore(log, exits[..|exits| - 1], t);
    }
  }

  lemma DrainFails(once: map<Id, Token>, order: seq<Id>, failing: set<Id>, stopped: bool, t: Token)
    requires forall id :: id in order ==> id in once
    ensures OutcomeOf(DrainEntries(once, order, failing, stopped), t) in {Pending, Resolved(SyntheticError), Failed}
  {
    var es := DrainEntries(once, order, failing, stopped);
    DrainNeverReplies(once, order, failing, stopped);
    OutcomeWithoutReplies(es, t);
  }

  lemma {:induction false} DrainNeverReplies(once: map<Id, Token>, order: seq<Id>, failing: set<Id>, stopped: bool)
    requires forall id :: id in order ==> id in once
    ensures forall e :: e in DrainEntries(once, order, failing, stopped) ==> e.Exit? && e.how in {Synthesized, Dropped}
  {
    if order != [] {
      assert order[0] in order && forall id :: id in order[1..] ==> id in order;
      DrainNeverReplies(once, order[1..], failing, stopped || order[0] in failing);
    }
  }

  lemma {:induction false} OutcomeWithoutReplies(es: seq<Entry>, t: Token)
    requires forall e :: e in es ==> e.Exit? && e.how in {Synthesized, Dropped}
    ensures OutcomeOf(es, t) in {Pending, Resolved(SyntheticError), Failed}
  {
    if es != [] { OutcomeWithoutReplies(es[..|es| - 1], t); }
  }

  /** The drain invokes exactly the handlers up to the first failure; the i-th departs as stated. */
  lemma {:induction false} DrainStopsAtFirstFailure(once: map<Id, Token>, order: seq<Id>, failing: set<Id>,
                                                    stopped: bool, i: nat)
    requires (forall id :: id in order ==> id in once) && i < |order|
    ensures DrainEntries(once, order, failing, stopped)[i] ==
            Exit(once[order[i]],
                 if stopped || exists j :: 0 <= j < i && order[j] in failing then Dropped else Synthesized)
  {
    assert order[0] in order && forall id :: id in order[1..] ==> id in order;
    if i > 0 {
      DrainStopsAtFirstFailure(once, order[1..], failing, stopped || order[0] in failing, i - 1);
      if j :| 0 <= j < i && order[j] in failing {
        assert j > 0 ==> order[1..][j - 1] in failing;
      }
      if j :| 0 <= j < i - 1 && order[1..][j] in failing {
        assert order[j + 1] in failing;
      }
    }
  }

  /** The step takes away a persistent handler under the id, or puts another one there. */
  predicate Displaces(e: Event, id: Id) {
    e == SendFailed(id) || e == Event.Unsubscribe(id) || e == ClearSubscriptions || (e.Register? && e.id == id)
  }

  /** The handler is registered under the id by one of the steps and not displaced by a later one. */
  ghost predicate LastRegisters(events: seq<Event>, id: Id, token: Token) {
    exists k :: 0 <= k < |events| && events[k] == Register(id, token) &&
                forall j :: k < j < |events| ==> !Displaces(events[j], id)
  }

  lemma LastRegistersStep(init: seq<Event>, e: Event, id: Id, token: Token)
    ensures LastRegisters(init + [e], id, token) <==>
            e == Register(id, token) || (LastRegisters(init, id, token) && !Displaces(e, id))
  {
    var all := init + [e];
    assert all[|init|] == e;
    if LastRegisters(all, id, token) {
      var k :| 0 <= k < |all| && all[k] == Register(id, token) && forall j :: k < j < |all| ==> !Displaces(all[j], id);
      if k < |init| {
        assert init[k] == all[k] && forall j :: k < j < |init| ==> init[j] == all[j];
      }
    }
    if LastRegisters(init, id, token) && !Displaces(e, id) {
      var k :| 0 <= k < |init| && init[k] == Register(id, token) &&
               forall j :: k < j < |init| ==> !Displaces(init[j], id);
      assert all[k] == init[k] && forall j :: k < j < |init| ==> all[j] == init[j];
    }
  }

  /** After the table was cleared it holds exactly the handlers registered since and not displaced again. */
  lemma {:induction false} SubsAfterClear(events: seq<Event>, between: seq<Event>, id: Id, token: Token)
    requires IsRun(EMPTY, events + [ClearSubscriptions] + between)
    ensures var s := Run(EMPTY, events + [ClearSubscriptions] + between);
            (id in s.subs && s.subs[id] == token) <==> LastRegisters(between, id, token)
    decreases |between|
  {
    var all := events + [ClearSubscriptions] + between;
    if between == [] {
      assert all == events + [ClearSubscriptions];
      assert all[..|all| - 1] == events;
    } else {
      var init, e := between[..|between| - 1], between[|between| - 1];
      assert all[..|all| - 1] == events + [ClearSubscriptions] + init;
      assert between == init + [e];
      SubsAfterClear(events, init, id, token);
      LastRegistersStep(init, e, id, token);
      assert Run(EMPTY, all) == Step(Run(EMPTY, events + [ClearSubscriptions] + init), e);
    }
  }

  /** A drain resolves a handler that was registered once: as an error, if it was still pending. */
  lemma DrainResolves(before: ClientState, order: seq<Id>, failing: set<Id>, t: Token)
    requires t.Own? && IsOrderOf(order, before.once) && ExitsOf(before.log, t) + Waiting(before.once, t) == 1
    ensures var after := Step(before, DrainOnce(order, failing));
            && OutcomeOf(after.log, t) != Pending
            && (OutcomeOf(before.log, t) == Pending ==> OutcomeOf(after.log, t) in {Resolved(SyntheticError), Failed})
  {
    var drained := DrainEntries(before.once, order, failing, false);
    DrainExits(before.once, order, failing, false, t);
    ExitsOfConcat(before.log, drained, t);
    PendingMeansNoExit(before.log, t);
    PendingMeansNoExit(before.log + drained, t);
    if OutcomeOf(before.log, t) == Pending {
      OutcomeOfConcat(before.log, drained, t);
      DrainFails(before.once, order, failing, false, t);
    }
  }

  /**
   * A transport error leaves none of the client's own callers waiting, whatever other tasks do between
   * the clearing of the one table and the draining of the other: after the drain no once-handler is
   * left, every request the client made is resolved, and those still pending resolve as errors, even
   * though the drain stops invoking handlers at the first one that fails. Of persistent handlers
   * exactly those are left that were registered in between and not displaced again.
   */
  lemma TransportErrorResolvesAll(events: seq<Event>, between: seq<Event>, order: seq<Id>, failing: set<Id>, t: Token,
                                  id: Id, sub: Token)
    requires IsRun(EMPTY, events + [ClearSubscriptions] + between)
    requires IsOrderOf(order, Run(EMPTY, events + [ClearSubscriptions] + between).once)
    requires t.Own?
    ensures var before := Run(EMPTY, events + [ClearSubscriptions] + between);
            var after := Step(before, DrainOnce(order, failing));
            && after.once == map[]
            && ((id in after.subs && after.subs[id] == sub) <==> LastRegisters(between, id, sub))
            && (OnceRegistrations(events + [ClearSubscriptions] + between, t) == 1 ==>
                  && OutcomeOf(after.log, t) != Pending
                  && (OutcomeOf(before.log, t) == Pending ==>
                      OutcomeOf(after.log, t) in {Resolved(SyntheticError), Failed}))
  {
    var all := events + [ClearSubscriptions] + between;
    SubsAfterClear(events, between, id, sub);
    EveryHandlerLeavesOnce(all, t);
    if OnceRegistrations(all, t) == 1 { DrainResolves(Run(EMPTY, all), order, failing, t); }
  }

  /** So a subscription made in between stays. */
  lemma {:induction false} SubscriptionInBetweenStays(id: Id, token: Token)
    ensures LastRegisters([Register(id, token)], id, token)
    ensures var run := [ClearSubscriptions, Register(id, token)];
            && IsRun(EMPTY, run) && IsOrderOf([], Run(EMPTY, run).once)
            && Step(Run(EMPTY, run), DrainOnce([], {})).subs == map[id := token]
  {
    var run := [ClearSubscriptions, Register(id, token)];
    RunExtends(EMPTY, [], ClearSubscriptions);
    assert [] + [ClearSubscriptions] == [ClearSubscriptions];
    RunExtends(EMPTY, [ClearSubscriptions], Register(id, token));
    assert [ClearSubscriptions] + [Register(id, token)] == run;
  }

  // ----- The client object -----

  datatype Handled = Ok(found: bool) | Err

  class Connection {
    var once: map<Id, Token>
    var subs: map<Id, Token>
    var errors: set<Id>
    ghost var log: seq<Entry>

    ghost function State(): ClientState
      reads this
    {
      ClientState(once, subs, log)
    }

    constructor ()
      ensures State() == EMPTY && errors == {}
    {
      once, subs, errors, log := map[], map[], {}, [];
    }

    /** Dispatches a response; `handlerOk` is the handler's own result, which the caller receives. */
    method HandleResponse(id: Id, payload: Payload, handlerOk: bool) returns (r: Handled)
      modifies this`once, this`log
      ensures State() == Step(old(State()), Receive(id, payload))
      ensures id in old(once) ==>
                once == old(once) - {id} && log == old(log) + [Exit(old(once)[id], Responded(payload))]
      ensures id !in old(once) && id in old(subs) ==>
                once == old(once) && log == old(log) + [Delivered(old(subs)[id], payload)]
      ensures id !in old(once) && id !in old(subs) ==> once == old(once) && log == old(log)
      ensures r == if id !in old(once) && id !in old(subs) then Ok(false) else if handlerOk then Ok(true) else Err
    {
      if id in once {
        var handler := once[id];
        once := once - {id};
        log := log + [Exit(handler, Responded(payload))];
        return if handlerOk then Ok(true) else Err;
      } else if id in subs {
        log := log + [Delivered(subs[id], payload)];
        return if handlerOk then Ok(true) else Err;
      }
      return Ok(false);
    }

    /** Other tasks may run between the clearing of the one table and the draining of the other. */
    method CloseAndErrorSubscriptions(between: seq<Event>, order: seq<Id>, failing: set<Id>) returns (ok: bool)
      requires IsRun(Step(State(), ClearSubscriptions), between)
      requires IsOrderOf(order, Run(Step(State(), ClearSubscriptions), between).once)
      modifies this`once, this`subs, this`log
      ensures State() == Step(Run(Step(old(State()), ClearSubscriptions), between), DrainOnce(order, failing))
      ensures ok <==> forall id :: id in order ==> id !in failing
    {
      subs := map[];
      Interleave(between);
      ok := Drain(order, failing);
    }

    method Drain(order: seq<Id>, failing: set<Id>) returns (ok: bool)
      requires IsOrderOf(order, once)
      modifies this`once, this`log
      ensures State() == Step(old(State()), DrainOnce(order, failing))
      ensures ok <==> forall id :: id in order ==> id !in failing
    {
      var drained := once;
      once := map[];
      ok := true;
      ghost var start := log;
      for i := 0 to |order|
        invariant once == map[]
        invariant ok <==> forall j :: 0 <= j < i ==> order[j] !in failing
        invariant log == start + DrainEntries(drained, order, failing, false)[..i]
      {
        assert order[i] in order;
        DrainStopsAtFirstFailure(drained, order, failing, false, i);
        ghost var entries := DrainEntries(drained, order, failing, false);
        assert entries[..i + 1] == entries[..i] + [entries[i]];
        if ok {
          log := log + [Exit(drained[order[i]], Synthesized)];
          ok := order[i] !in failing;
        } else {
          log := log + [Exit(drained[order[i]], Dropped)];
        }
      }
      ghost var entries := DrainEntries(drained, order, failing, false);
      assert entries[..|order|] == entries;
    }

    /**
     * All error callbacks run, and other tasks with them; if one fails, its error is returned and no
     * handler is touched.
     */
    method HandleError(callbackFails: set<Id>, during: seq<Event>, between: seq<Event>, order: seq<Id>,
                       failing: set<Id>)
      returns (ok: bool)
      requires IsRun(State(), during)
      requires IsRun(Step(Run(State(), during), ClearSubscriptions), between)
      requires IsOrderOf(order, Run(Step(Run(State(), during), ClearSubscriptions), between).once)
      modifies this`once, this`subs, this`log
      ensures var closing := Run(old(State()), during);
              errors !! callbackFails ==>
                && State() == Step(Run(Step(closing, ClearSubscriptions), between), DrainOnce(order, failing))
                && (ok <==> forall id :: id in order ==> id !in failing)
      ensures !(errors !! callbackFails) ==> State() == Run(old(State()), during) && !ok
    {
      Interleave(during);
      if errors * callbackFails != {} { return false; }
      assert forall id :: id in errors && id in callbackFails ==> id in errors * callbackFails;
      ok := CloseAndErrorSubscriptions(between, order, failing);
    }

    method OnError(id: Id)
      modifies this`errors
      ensures errors == old(errors) + {id}
    {
      errors := errors + {id};
    }

    method Unsubscribe(id: Id) returns (ok: bool)
      modifies this`subs
      ensures ok == (id in old(subs))
      ensures State() == Step(old(State()), Event.Unsubscribe(id))
    {
      ok := id in subs;
      subs := subs - {id};
    }

    method InsertOnce(id: Id, token: Token)
      modifies this`once, this`log
      ensures State() == Step(old(State()), RegisterOnce(id, token))
    {
      log := log + if id in once then [Exit(once[id], Overwritten)] else [];
      once := once[id := token];
    }

    method RemoveOnce(id: Id)
      modifies this`once, this`log
      ensures State() == Step(old(State()), OnceSendFailed(id))
    {
      if id in once {
        log := log + [Exit(once[id], SendFailure)];
        once := once - {id};
      }
    }

    /** Any one step of another task. */
    method Apply(e: Event)
      requires Enabled(State(), e)
      modifies this`once, this`subs, this`log
      ensures State() == Step(old(State()), e)
    {
      match e
      case RegisterOnce(id, token) => InsertOnce(id, token);
      case OnceSendFailed(id) => RemoveOnce(id);
      case Register(id, token) => subs := subs[id := token];
      case SendFailed(id) => subs := subs - {id};
      case Receive(id, payload) => var _ := HandleResponse(id, payload, true);
      case Unsubscribe(id) => var _ := this.Unsubscribe(id);
      case ClearSubscriptions => subs := map[];
      case DrainOnce(order, failing) =>
        var _ := Drain(order, failing);
    }

    method Interleave(events: seq<Event>)
      requires IsRun(State(), events)
      modifies this`once, this`subs, this`log
      ensures State() == Run(old(State()), events)
    {
      for i := 0 to |events|
        invariant IsRun(old(State()), events[..i]) && State() == Run(old(State()), events[..i])
      {
        PrefixIsRun(old(State()), events, i + 1);
        assert events[..i + 1][..i] == events[..i];
        Apply(events[i]);
      }
      assert events[..|events|] == events;
    }

    /**
     * Registers the handler and sends; while the send is under way any other steps may happen,
     * the response included. A failed send removes what the table then holds under the id.
     */
    method SubscribeOnce(id: Id, token: Token, during: seq<Event>, sent: bool)
      requires IsRun(Step(State(), RegisterOnce(id, token)), during)
      modifies this`once, this`subs, this`log
      ensures var after := Run(Step(old(State()), RegisterOnce(id, token)), during);
              State() == if sent then after else Step(after, OnceSendFailed(id))
    {
      InsertOnce(id, token);
      Interleave(during);
      if !sent { RemoveOnce(id); }
    }

    method Subscribe(id: Id, token: Token, during: seq<Event>, sent: bool)
      requires IsRun(Step(State(), Register(id, token)), during)
      modifies this`once, this`subs, this`log
      ensures var after := Run(Step(old(State()), Register(id, token)), during);
              State() == if sent then after else Step(after, SendFailed(id))
    {
      subs := subs[id := token];
      Interleave(during);
      if !sent { subs := subs - {id}; }
    }
  }

  lemma {:induction false} PrefixIsRun(s: ClientState, events: seq<Event>, n: nat)
    requires IsRun(s, events) && n <= |events|
    ensures IsRun(s, events[..n])
    ensures n > 0 ==> events[..n][..n - 1] == events[..n - 1] && Enabled(Run(s, events[..n - 1]), events[n - 1])
    decreases |events|
  {
    if n < |events| {
      PrefixIsRun(s, events[..|events| - 1], n);
      assert events[..|events| - 1][..n] == events[..n];
    } else {
      assert events[..n] == events;
    }
    if n > 0 { assert events[..n][..n - 1] == events[..n - 1]; }
  }
}

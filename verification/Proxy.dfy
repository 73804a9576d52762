/** A client that reaches its server through another client's connection. */
module Proxy {
  import opened Common
  import opened Client

  // ----- The session -----

  datatype RequestKind = ViewOnUpdate | OtherRequest | NoRequest

  datatype Outcome = Accepted | SendError | InvalidRequest

  class ProxySession {
    const parent: Connection

    constructor (parent: Connection)
      ensures this.parent == parent
    {
      this.parent := parent;
    }

    /** Registers a forwarding handler under the request's own id; only view updates keep it. */
    method HandleRequest(id: Id, kind: RequestKind, n: nat, during: seq<Event>, sent: bool) returns (r: Outcome)
      requires kind == ViewOnUpdate ==> IsRun(Step(parent.State(), Register(id, Proxied(n))), during)
      requires kind == OtherRequest ==> IsRun(Step(parent.State(), RegisterOnce(id, Proxied(n))), during)
      modifies parent
      ensures kind == NoRequest ==> r == InvalidRequest && parent.State() == old(parent.State())
      ensures kind == ViewOnUpdate ==>
                var after := Run(Step(old(parent.State()), Register(id, Proxied(n))), during);
                && r == (if sent then Accepted else SendError)
                && parent.State() == if sent then after else Step(after, SendFailed(id))
      ensures kind == OtherRequest ==>
                var after := Run(Step(old(parent.State()), RegisterOnce(id, Proxied(n))), during);
                && r == (if sent then Accepted else SendError)
                && parent.State() == if sent then after else Step(after, OnceSendFailed(id))
    {
      match kind
      case ViewOnUpdate =>
        parent.Subscribe(id, Proxied(n), during, sent);
        r := if sent then Accepted else SendError;
      case OtherRequest =>
        parent.SubscribeOnce(id, Proxied(n), during, sent);
        r := if sent then Accepted else SendError;
      case NoRequest =>
        r := InvalidRequest;
    }
  }

  // ----- Parent and child together -----

  /** What a client asks for: one response, or updates of a view, or updates of the hosted tables. */
  datatype Kind = OneShot | ViewUpdates | HostedTables

  datatype System = System(parent: ClientState, child: ClientState)

  datatype SystemEvent =
    | ParentStep(e: Event)
    | ChildRequest(id: Id, n: nat, kind: Kind)
    | ChildRequestFailed(id: Id, kind: Kind)
    | ChildUnsubscribe(id: Id)
    | Arrive(id: Id, payload: Payload)

  predicate Holds(p: ClientState, id: Id, own: bool) {
    (id in p.once && p.once[id].Own? == own) || (id in p.subs && p.subs[id].Own? == own)
  }

  /**
   * The ids in flight are disjoint: the parent starts or gives up nothing of its own under an id at
   * which it forwards, and the child nothing under an id at which the parent has a handler of its own.
   * Ids that are no longer in flight may be used again by either.
   */
  ghost predicate Allowed(s: System, e: SystemEvent) {
    match e
    case ParentStep(p) =>
      (match p
       case RegisterOnce(id, token) => token.Own? && !Holds(s.parent, id, false)
       case Register(id, token) => token.Own? && !Holds(s.parent, id, false)
       case OnceSendFailed(id) => !Holds(s.parent, id, false)
       case SendFailed(id) => !Holds(s.parent, id, false)
       case Unsubscribe(id) => !Holds(s.parent, id, false)
       case _ => false)
    case ChildRequest(id, _, _) => !Holds(s.parent, id, true)
    case ChildRequestFailed(id, _) => !Holds(s.parent, id, true)
    case _ => true
  }

  function Registration(keep: bool, id: Id, token: Token): Event {
    if keep then Register(id, token) else RegisterOnce(id, token)
  }

  function Failure(keep: bool, id: Id): Event {
    if keep then SendFailed(id) else OnceSendFailed(id)
  }

  predicate IsForwarded(parent: ClientState, id: Id) {
    if id in parent.once then parent.once[id].Proxied? else id in parent.subs && parent.subs[id].Proxied?
  }

  /**
   * The child keeps a handler for both kinds of updates, the parent for view updates alone; and a
   * response reaches the child only through a forwarding handler of the parent.
   */
  ghost function SystemStep(s: System, e: SystemEvent): System
    requires Allowed(s, e)
  {
    match e
    case ParentStep(p) => s.(parent := Step(s.parent, p))
    case ChildRequest(id, n, kind) =>
      System(Step(s.parent, Registration(kind.ViewUpdates?, id, Proxied(n))),
             Step(s.child, Registration(!kind.OneShot?, id, Own(n))))
    case ChildRequestFailed(id, kind) =>
      System(Step(s.parent, Failure(kind.ViewUpdates?, id)), Step(s.child, Failure(!kind.OneShot?, id)))
    case ChildUnsubscribe(id) => s.(child := Step(s.child, Unsubscribe(id)))
    case Arrive(id, payload) =>
      System(Step(s.parent, Receive(id, payload)),
             if IsForwarded(s.parent, id) then Step(s.child, Receive(id, payload)) else s.child)
  }

  /** The same child connected directly: every response arrives at it. */
  ghost function DirectStep(c: ClientState, e: SystemEvent): ClientState {
    match e
    case ParentStep(_) => c
    case ChildRequest(id, n, kind) => Step(c, Registration(!kind.OneShot?, id, Own(n)))
    case ChildRequestFailed(id, kind) => Step(c, Failure(!kind.OneShot?, id))
    case ChildUnsubscribe(id) => Step(c, Unsubscribe(id))
    case Arrive(id, payload) => Step(c, Receive(id, payload))
  }

  /** The same parent with no child behind it. */
  ghost function AloneStep(p: ClientState, e: SystemEvent): ClientState
    requires e.ParentStep? ==> !e.e.DrainOnce?
  {
    match e
    case ParentStep(step) => Step(p, step)
    case Arrive(id, payload) => Step(p, Receive(id, payload))
    case _ => p
  }

  const IDLE := System(EMPTY, EMPTY)

  ghost predicate IsSystemRun(events: seq<SystemEvent>)
    decreases |events|, 0
  {
    events == [] ||
    (IsSystemRun(events[..|events| - 1]) && Allowed(SystemRun(events[..|events| - 1]), events[|events| - 1]))
  }

  ghost function SystemRun(events: seq<SystemEvent>): System
    requires IsSystemRun(events)
    decreases |events|, 1
  {
    if events == [] then IDLE else SystemStep(SystemRun(events[..|events| - 1]), events[|events| - 1])
  }

  ghost function DirectRun(events: seq<SystemEvent>): ClientState {
    if events == [] then EMPTY else DirectStep(DirectRun(events[..|events| - 1]), events[|events| - 1])
  }

  ghost function AloneRun(events: seq<SystemEvent>): ClientState
    requires IsSystemRun(events)
  {
    if events == [] then EMPTY else AloneStep(AloneRun(events[..|events| - 1]), events[|events| - 1])
  }

  // ----- Transparency -----

  /** The child's requests are all of these kinds. */
  ghost predicate Uses(events: seq<SystemEvent>, kinds: set<Kind>) {
    forall e: SystemEvent :: e in events && (e.ChildRequest? || e.ChildRequestFailed?) ==> e.kind in kinds
  }

  /** The parent forwards whatever the child waits for, and has no id of its own and the child's at once. */
  ghost predicate Linked(s: System) {
    && (forall id :: id in s.child.once ==> id in s.parent.once && s.parent.once[id].Proxied?)
    && (forall id :: id in s.child.subs ==> id in s.parent.subs && s.parent.subs[id].Proxied?)
    && Separate(s.parent)
  }

  ghost predicate Separate(p: ClientState) {
    forall id :: id in p.once && id in p.subs ==> p.once[id].Own? == p.subs[id].Own?
  }

  lemma StepKeepsLinked(s: System, e: SystemEvent)
    requires Allowed(s, e) && Linked(s)
    requires e.ChildRequest? || e.ChildRequestFailed? ==> e.kind != HostedTables
    ensures Linked(SystemStep(s, e))
  {
  }

  lemma StepIsTransparent(s: System, e: SystemEvent)
    requires Allowed(s, e) && Linked(s)
    ensures SystemStep(s, e).child == DirectStep(s.child, e)
  {
  }

  /**
   * Proxy transparency: with the ids in flight disjoint from the parent's, a client behind the proxy
   * goes through exactly the states of one connected directly, its deliveries included, provided
   * it subscribes to nothing but view updates.
   */
  lemma {:induction false} ChildRunsAsIfDirect(events: seq<SystemEvent>, kinds: set<Kind>)
    requires IsSystemRun(events) && Uses(events, kinds) && HostedTables !in kinds
    ensures SystemRun(events).child == DirectRun(events)
    ensures Linked(SystemRun(events))
  {
    if events != [] {
      var init, e := events[..|events| - 1], events[|events| - 1];
      assert e in events && forall x :: x in init ==> x in events;
      ChildRunsAsIfDirect(init, kinds);
      StepKeepsLinked(SystemRun(init), e);
      StepIsTransparent(SystemRun(init), e);
    }
  }

  lemma {:induction false} RunExtends(init: seq<SystemEvent>, e: SystemEvent)
    requires IsSystemRun(init) && Allowed(SystemRun(init), e)
    ensures IsSystemRun(init + [e]) && SystemRun(init + [e]) == SystemStep(SystemRun(init), e)
    ensures DirectRun(init + [e]) == DirectStep(DirectRun(init), e)
  {
    assert (init + [e])[..|init + [e]| - 1] == init;
  }

  /** A child that subscribes to the hosted tables hears the first response and no other. */
  lemma {:induction false} OtherSubscriptionsGoSilent(id: Id, n: nat, first: Payload, second: Payload)
    ensures var events := [ChildRequest(id, n, HostedTables), Arrive(id, first), Arrive(id, second)];
            && IsSystemRun(events)
            && SystemRun(events).child.log == [Delivered(Own(n), first)]
            && DirectRun(events).log == [Delivered(Own(n), first), Delivered(Own(n), second)]
  {
    var events := [ChildRequest(id, n, HostedTables), Arrive(id, first), Arrive(id, second)];
    var one := [ChildRequest(id, n, HostedTables)];
    RunExtends([], ChildRequest(id, n, HostedTables));
    assert [] + one == one && one + [Arrive(id, first)] + [Arrive(id, second)] == events;
    RunExtends(one, Arrive(id, first));
    RunExtends(one + [Arrive(id, first)], Arrive(id, second));
  }

  /** The proxy is transparent in every run with requests of these kinds exactly when none is for hosted tables. */
  lemma {:induction false} TransparentExactly(kinds: set<Kind>)
    ensures HostedTables !in kinds <==>
            forall events :: IsSystemRun(events) && Uses(events, kinds) ==> SystemRun(events).child == DirectRun(events)
  {
    if HostedTables !in kinds {
      forall events | IsSystemRun(events) && Uses(events, kinds) ensures SystemRun(events).child == DirectRun(events) {
        ChildRunsAsIfDirect(events, kinds);
      }
    } else {
      var p := Reply(0);
      OtherSubscriptionsGoSilent(0, 0, p, p);
      var events := [ChildRequest(0, 0, HostedTables), Arrive(0, p), Arrive(0, p)];
      assert |SystemRun(events).child.log| == 1 && |DirectRun(events).log| == 2;
    }
  }

  // ----- The parent is undisturbed -----

  function OwnEntries(log: seq<Entry>): seq<Entry> {
    if log == [] then []
    else OwnEntries(log[..|log| - 1]) + if log[|log| - 1].token.Own? then [log[|log| - 1]] else []
  }

  lemma OwnEntriesOfOne(log: seq<Entry>, e: Entry)
    ensures OwnEntries(log + [e]) == OwnEntries(log) + if e.token.Own? then [e] else []
  {
    assert (log + [e])[..|log + [e]| - 1] == log;
  }

  function OwnHandlers(handlers: map<Id, Token>): (own: map<Id, Token>)
    ensures forall id :: id in own <==> id in handlers && handlers[id].Own?
  {
    map id | id in handlers && handlers[id].Own? :: handlers[id]
  }

  /** The parent's own handlers and history, leaving out everything it does for the child. */
  function OwnPart(p: ClientState): ClientState {
    ClientState(OwnHandlers(p.once), OwnHandlers(p.subs), OwnEntries(p.log))
  }

  lemma OwnOfRegistration(p: ClientState, id: Id, token: Token)
    requires !Holds(p, id, !token.Own?)
    ensures OwnPart(Step(p, RegisterOnce(id, token))) ==
            if token.Own? then Step(OwnPart(p), RegisterOnce(id, token)) else OwnPart(p)
    ensures OwnPart(Step(p, Register(id, token))) ==
            if token.Own? then Step(OwnPart(p), Register(id, token)) else OwnPart(p)
  {
    if id in p.once { OwnEntriesOfOne(p.log, Exit(p.once[id], Overwritten)); }
    assert p.log + [] == p.log && OwnEntries(p.log) + [] == OwnEntries(p.log);
    assert OwnHandlers(p.once[id := token]) ==
        if token.Own? then OwnHandlers(p.once)[id := token] else OwnHandlers(p.once);
    assert OwnHandlers(p.subs[id := token]) ==
        if token.Own? then OwnHandlers(p.subs)[id := token] else OwnHandlers(p.subs);
  }

  lemma OwnOfSubsRemoval(p: ClientState, id: Id)
    ensures OwnPart(Step(p, SendFailed(id))) == Step(OwnPart(p), SendFailed(id))
    ensures !Holds(p, id, true) ==> OwnPart(Step(p, SendFailed(id))) == OwnPart(p)
  {
    assert OwnHandlers(p.subs - {id}) == OwnHandlers(p.subs) - {id};
    if !Holds(p, id, true) { assert OwnHandlers(p.subs) - {id} == OwnHandlers(p.subs); }
  }

  lemma OwnOfOnceFailure(p: ClientState, id: Id)
    ensures OwnPart(Step(p, OnceSendFailed(id))) == Step(OwnPart(p), OnceSendFailed(id))
    ensures !Holds(p, id, true) ==> OwnPart(Step(p, OnceSendFailed(id))) == OwnPart(p)
  {
    if id in p.once { OwnEntriesOfOne(p.log, Exit(p.once[id], SendFailure)); }
    assert OwnHandlers(p.once - {id}) == OwnHandlers(p.once) - {id};
    if !Holds(p, id, true) { assert OwnHandlers(p.once) - {id} == OwnHandlers(p.once); }
    assert OwnEntries(p.log) + [] == OwnEntries(p.log);
  }

  lemma OwnOfReceive(p: ClientState, id: Id, payload: Payload)
    requires Separate(p)
    ensures OwnPart(Step(p, Receive(id, payload))) == Step(OwnPart(p), Receive(id, payload))
  {
    if id in p.once { OwnEntriesOfOne(p.log, Exit(p.once[id], Responded(payload))); }
    else if id in p.subs { OwnEntriesOfOne(p.log, Delivered(p.subs[id], payload)); }
    assert OwnHandlers(p.once - {id}) == OwnHandlers(p.once) - {id};
    if id in p.once && p.once[id].Proxied? { assert OwnHandlers(p.once) - {id} == OwnHandlers(p.once); }
    assert OwnEntries(p.log) + [] == OwnEntries(p.log);
  }

  lemma StepKeepsSeparate(s: System, e: SystemEvent)
    requires Allowed(s, e) && Separate(s.parent)
    ensures Separate(SystemStep(s, e).parent)
  {
  }

  lemma StepOwnPart(s: System, e: SystemEvent)
    requires Allowed(s, e) && Separate(s.parent)
    ensures OwnPart(SystemStep(s, e).parent) == AloneStep(OwnPart(s.parent), e)
  {
    match e
    case ParentStep(RegisterOnce(id, token)) => OwnOfRegistration(s.parent, id, token);
    case ParentStep(Register(id, token)) => OwnOfRegistration(s.parent, id, token);
    case ParentStep(OnceSendFailed(id)) => OwnOfOnceFailure(s.parent, id);
    case ParentStep(SendFailed(id)) => OwnOfSubsRemoval(s.parent, id);
    case ParentStep(Unsubscribe(id)) => OwnOfSubsRemoval(s.parent, id);
    case ChildRequest(id, n, _) => OwnOfRegistration(s.parent, id, Proxied(n));
    case ChildRequestFailed(id, _) =>
      OwnOfOnceFailure(s.parent, id);
      OwnOfSubsRemoval(s.parent, id);
    case Arrive(id, payload) => OwnOfReceive(s.parent, id, payload);
    case _ =>
  }

  /** The parent's own handlers live and hear exactly as they would with no child behind it. */
  lemma {:induction false} ParentIsUndisturbed(events: seq<SystemEvent>)
    requires IsSystemRun(events)
    ensures OwnPart(SystemRun(events).parent) == AloneRun(events)
    ensures Separate(SystemRun(events).parent)
  {
    if events != [] {
      var init, e := events[..|events| - 1], events[|events| - 1];
      ParentIsUndisturbed(init);
      StepKeepsSeparate(SystemRun(init), e);
      StepOwnPart(SystemRun(init), e);
    } else {
      assert OwnHandlers(map[]) == map[];
    }
  }

  // ----- A transport error of the parent -----

  /**
   * The child's part of the parent's drain: each forwarding handler that is invoked passes the error
   * on, unless that very call fails before it reaches the child; a dropped one tells the child nothing.
   */
  ghost function ForwardDrain(child: ClientState, once: map<Id, Token>, order: seq<Id>, failing: set<Id>, lost: set<Id>,
                              stopped: bool): ClientState
    requires forall id :: id in order ==> id in once
    decreases |order|
  {
    if order == [] then child
    else
      var id, rest := order[0], order[1..];
      assert id in order && forall x :: x in rest ==> x in order;
      var next := if !stopped && once[id].Proxied? && id !in lost
                  then Step(child, Receive(id, SyntheticError)) else child;
      ForwardDrain(next, once, rest, failing, lost, stopped || id in failing)
  }

  /** The parent clears its persistent handlers and drains the others; `lost` are failing forwards. */
  ghost function ParentFails(s: System, order: seq<Id>, failing: set<Id>, lost: set<Id>): System
    requires IsOrderOf(order, s.parent.once) && lost <= failing
  {
    System(Step(Step(s.parent, ClearSubscriptions), DrainOnce(order, failing)),
           ForwardDrain(s.child, s.parent.once, order, failing, lost, false))
  }

  /** Ids the drain does not mention are left alone in the child. */
  lemma {:induction false} DrainLeavesOthers(child: ClientState, once: map<Id, Token>, order: seq<Id>, failing: set<Id>,
                                             lost: set<Id>, stopped: bool, id: Id)
    requires (forall x :: x in order ==> x in once) && id !in order
    ensures var after := ForwardDrain(child, once, order, failing, lost, stopped);
            (id in after.once <==> id in child.once) && (id in child.once ==> after.once[id] == child.once[id])
    decreases |order|
  {
    if order != [] {
      var first, rest := order[0], order[1..];
      assert first in order && forall x :: x in rest ==> x in order;
      var next := if !stopped && once[first].Proxied? && first !in lost
                  then Step(child, Receive(first, SyntheticError)) else child;
      DrainLeavesOthers(next, once, rest, failing, lost, stopped || first in failing, id);
    }
  }

  lemma {:induction false} DrainReachesChild(child: ClientState, once: map<Id, Token>, order: seq<Id>, failing: set<Id>,
                                             lost: set<Id>, stopped: bool, i: nat)
    requires (forall x :: x in order ==> x in once) && Distinct(order) && i < |order|
    requires once[order[i]].Proxied? && order[i] in child.once
    ensures var after := ForwardDrain(child, once, order, failing, lost, stopped);
            order[i] in after.once <==> stopped || order[i] in lost || exists j :: 0 <= j < i && order[j] in failing
    decreases |order|
  {
    var id, first, rest := order[i], order[0], order[1..];
    assert first in order && forall x :: x in rest ==> x in order;
    var next := if !stopped && once[first].Proxied? && first !in lost
                then Step(child, Receive(first, SyntheticError)) else child;
    if i == 0 {
      assert id !in rest;
      DrainLeavesOthers(next, once, rest, failing, lost, stopped || first in failing, id);
    } else {
      assert order[0] != order[i];
      DrainReachesChild(next, once, rest, failing, lost, stopped || first in failing, i - 1);
      assert (exists j :: 0 <= j < i && order[j] in failing) <==>
             first in failing || exists j :: 0 <= j < i - 1 && rest[j] in failing by {
        if j :| 0 <= j < i && order[j] in failing { assert j > 0 ==> rest[j - 1] == order[j]; }
        if j :| 0 <= j < i - 1 && rest[j] in failing { assert order[j + 1] == rest[j]; }
      }
    }
  }

  /**
   * When the parent's transport fails, a request of the child that the parent forwards is still waiting
   * afterwards exactly if a handler drained before its own failed, or its own call did not get through.
   * And the parent forwards nothing any more, so what still waits, subscriptions included, is not
   * answered.
   */
  lemma ChildWaitsAfterParentFails(s: System, order: seq<Id>, failing: set<Id>, lost: set<Id>, i: nat)
    requires IsOrderOf(order, s.parent.once) && lost <= failing && i < |order|
    requires s.parent.once[order[i]].Proxied? && order[i] in s.child.once
    ensures var after := ParentFails(s, order, failing, lost);
            && (order[i] in after.child.once <==> order[i] in lost || exists j :: 0 <= j < i && order[j] in failing)
            && forall id :: !IsForwarded(after.parent, id)
  {
    assert order[i] in order;
    DrainReachesChild(s.child, s.parent.once, order, failing, lost, false, i);
  }

  /** A cancelled request of the parent's own is such a failing handler: drained first, it leaves the child waiting. */
  lemma CancelledRequestLeavesChildWaiting(id: Id, other: Id, n: nat, m: nat)
    requires id != other
    ensures var s := System(ClientState(map[other := Own(m), id := Proxied(n)], map[], []),
                            ClientState(map[id := Own(n)], map[], []));
            && Linked(s) && IsOrderOf([other, id], s.parent.once)
            && id in ParentFails(s, [other, id], {other}, {}).child.once
            && id !in ParentFails(s, [id, other], {other}, {}).child.once
  {
    var s := System(ClientState(map[other := Own(m), id := Proxied(n)], map[], []),
                    ClientState(map[id := Own(n)], map[], []));
    assert [other, id][0] in {other};
    ChildWaitsAfterParentFails(s, [other, id], {other}, {}, 1);
    ChildWaitsAfterParentFails(s, [id, other], {other}, {}, 0);
  }
}

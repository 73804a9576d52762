/** The server's session registry and the dispatch of response batches to sessions. */
module Server {
  import opened Common

  type Id = nat

  type Error = nat

  /** A response for a session, and what the session's callback will return for it. */
  datatype Response = Response(client: Id, msg: nat, result: Option<Error>)

  /** A response that a callback was invoked with, by the call that dispatched it. */
  datatype Entry = Entry(call: nat, response: Response)

  datatype State = State(callbacks: set<Id>, known: set<Id>, log: seq<Entry>)

  const EMPTY := State({}, {}, [])

  // ----- Atomic steps -----

  /**
   * Calls await between responses, so opens, closes and other calls' deliveries come in between.
   * Session ids are new, and a session is closed only while it is open.
   */
  datatype Event = Open(id: Id) | Close(id: Id) | Deliver(call: nat, response: Response)

  predicate Enabled(s: State, e: Event) {
    match e
    case Open(id) => id !in s.known
    case Close(id) => id in s.callbacks
    case Deliver(_, _) => true
  }

  function Step(s: State, e: Event): State {
    match e
    case Open(id) => State(s.callbacks + {id}, s.known + {id}, s.log)
    case Close(id) => s.(callbacks := s.callbacks - {id})
    case Deliver(call, r) => if r.client in s.callbacks then s.(log := s.log + [Entry(call, r)]) else s
  }

  function Run(s: State, events: seq<Event>): State {
    if events == [] then s else Step(Run(s, events[..|events| - 1]), events[|events| - 1])
  }

  predicate IsRun(s: State, events: seq<Event>) {
    events == [] || (IsRun(s, events[..|events| - 1]) && Enabled(Run(s, events[..|events| - 1]), events[|events| - 1]))
  }

  lemma {:induction false} RunConcat(s: State, a: seq<Event>, b: seq<Event>)
    ensures Run(s, a + b) == Run(Run(s, a), b)
    ensures IsRun(s, a + b) <==> IsRun(s, a) && IsRun(Run(s, a), b)
  {
    if b == [] {
      assert a + b == a;
    } else {
      assert (a + b)[..|a + b| - 1] == a + b[..|b| - 1];
      RunConcat(s, a, b[..|b| - 1]);
    }
  }

  lemma RunOne(s: State, e: Event)
    ensures Run(s, [e]) == Step(s, e)
    ensures IsRun(s, [e]) <==> Enabled(s, e)
  {
    assert [e][..0] == [];
    assert Run(s, [e][..0]) == s;
  }

  // ----- The registry -----

  function Opened(events: seq<Event>): set<Id> {
    set i | 0 <= i < |events| && events[i].Open? :: events[i].id
  }

  function Closed(events: seq<Event>): set<Id> {
    set i | 0 <= i < |events| && events[i].Close? :: events[i].id
  }

  /** In every run the registry holds exactly the sessions that were opened and not closed. */
  lemma {:induction false} RegistryIsOpenSessions(events: seq<Event>)
    requires IsRun(EMPTY, events)
    ensures Run(EMPTY, events).callbacks == Opened(events) - Closed(events)
    ensures Run(EMPTY, events).known == Opened(events)
    ensures Closed(events) <= Opened(events)
  {
    if events != [] {
      var init, e := events[..|events| - 1], events[|events| - 1];
      assert events == init + [e];
      RegistryIsOpenSessions(init);
      LastOpened(events);
    }
  }

  lemma LastOpened(events: seq<Event>)
    requires events != []
    ensures var init, e := events[..|events| - 1], events[|events| - 1];
            && Opened(events) == Opened(init) + (if e.Open? then {e.id} else {})
            && Closed(events) == Closed(init) + (if e.Close? then {e.id} else {})
  {
    var init, e := events[..|events| - 1], events[|events| - 1];
    forall x | x in Opened(events) ensures x in Opened(init) + (if e.Open? then {e.id} else {}) {
      var i :| 0 <= i < |events| && events[i].Open? && events[i].id == x;
      if i < |init| { assert init[i] == events[i]; }
    }
    forall x | x in Closed(events) ensures x in Closed(init) + (if e.Close? then {e.id} else {}) {
      var i :| 0 <= i < |events| && events[i].Close? && events[i].id == x;
      if i < |init| { assert init[i] == events[i]; }
    }
    forall x | x in Opened(init) ensures x in Opened(events) {
      var i :| 0 <= i < |init| && init[i].Open? && init[i].id == x;
      assert events[i] == init[i];
    }
    forall x | x in Closed(init) ensures x in Closed(events) {
      var i :| 0 <= i < |init| && init[i].Close? && init[i].id == x;
      assert events[i] == init[i];
    }
  }

  // ----- What a session receives -----

  /** The messages that call k's dispatches carry for session s, in order. */
  function Sent(events: seq<Event>, k: nat, s: Id): seq<nat> {
    if events == [] then []
    else
      var e := events[|events| - 1];
      Sent(events[..|events| - 1], k, s) +
      if e.Deliver? && e.call == k && e.response.client == s then [e.response.msg] else []
  }

  /** The messages that session s was really given by call k. */
  function Received(log: seq<Entry>, k: nat, s: Id): seq<nat> {
    if log == [] then []
    else
      var e := log[|log| - 1];
      Received(log[..|log| - 1], k, s) + if e.call == k && e.response.client == s then [e.response.msg] else []
  }

  lemma ReceivedOne(log: seq<Entry>, e: Entry, k: nat, s: Id)
    ensures Received(log + [e], k, s) ==
            Received(log, k, s) + if e.call == k && e.response.client == s then [e.response.msg] else []
  {
    assert (log + [e])[..|log + [e]| - 1] == log;
  }

  lemma {:induction false} WhileOpen(st: State, events: seq<Event>, k: nat, s: Id)
    requires s in st.callbacks && forall e :: e in events ==> e != Close(s)
    ensures s in Run(st, events).callbacks
    ensures Received(Run(st, events).log, k, s) == Received(st.log, k, s) + Sent(events, k, s)
  {
    if events != [] {
      var init, e := events[..|events| - 1], events[|events| - 1];
      assert e in events && forall x :: x in init ==> x in events;
      WhileOpen(st, init, k, s);
      OneWhileOpen(Run(st, init), e, k, s);
      var last := if e.Deliver? && e.call == k && e.response.client == s then [e.response.msg] else [];
      assert Received(st.log, k, s) + Sent(init, k, s) + last == Received(st.log, k, s) + (Sent(init, k, s) + last);
    }
  }

  lemma OneWhileOpen(st: State, e: Event, k: nat, s: Id)
    requires s in st.callbacks && e != Close(s)
    ensures s in Step(st, e).callbacks
    ensures Received(Step(st, e).log, k, s) ==
            Received(st.log, k, s) +
            if e.Deliver? && e.call == k && e.response.client == s then [e.response.msg] else []
  {
    if e.Deliver? { ReceivedOne(st.log, Entry(e.call, e.response), k, s); }
  }

  lemma {:induction false} WhileNotOpen(st: State, events: seq<Event>, k: nat, s: Id)
    requires s !in st.callbacks && forall e :: e in events ==> e != Open(s)
    ensures s !in Run(st, events).callbacks
    ensures Received(Run(st, events).log, k, s) == Received(st.log, k, s)
  {
    if events != [] {
      var init, e := events[..|events| - 1], events[|events| - 1];
      assert e in events && forall x :: x in init ==> x in events;
      WhileNotOpen(st, init, k, s);
      if e.Deliver? && e.response.client in Run(st, init).callbacks {
        ReceivedOne(Run(st, init).log, Entry(e.call, e.response), k, s);
      }
    }
  }

  /** Once opened, an id is never opened again. */
  lemma {:induction false} OpensOnce(st: State, events: seq<Event>, s: Id)
    requires IsRun(st, events) && s in st.known
    ensures s in Run(st, events).known
    ensures forall e :: e in events ==> e != Open(s)
  {
    if events != [] {
      var init, e := events[..|events| - 1], events[|events| - 1];
      assert events == init + [e];
      OpensOnce(st, init, s);
    }
  }

  lemma NeverOpenedBefore(before: seq<Event>, s: Id)
    requires IsRun(EMPTY, before) && s !in Run(EMPTY, before).known
    ensures forall e :: e in before ==> e != Open(s)
  {
    RegistryIsOpenSessions(before);
    forall e | e in before && e.Open? ensures e.id in Opened(before) {
      var i :| 0 <= i < |before| && before[i] == e;
      assert before[i].id in Opened(before);
    }
  }

  /**
   * Routing over all interleavings: whatever other sessions and calls do, each call gives a session
   * exactly the in-order projection of its batch on the session's id that falls between the
   * session's opening and its closing.
   */
  lemma SessionReceivesItsProjection(before: seq<Event>, s: Id, during: seq<Event>, after: seq<Event>, k: nat)
    requires IsRun(EMPTY, before + [Open(s)] + during + [Close(s)] + after)
    requires Close(s) !in during
    ensures Received(Run(EMPTY, before + [Open(s)] + during + [Close(s)] + after).log, k, s) == Sent(during, k, s)
  {
    var open := Run(EMPTY, before + [Open(s)] + during);
    assert before + [Open(s)] + during + [Close(s)] + after == (before + [Open(s)] + during) + ([Close(s)] + after);
    RunConcat(EMPTY, before + [Open(s)] + during, [Close(s)] + after);
    SessionReceivesSoFar(before, s, during, k);
    RunConcat(open, [Close(s)], after);
    RunOne(open, Close(s));
    var closed := Step(open, Close(s));
    OpensOnce(closed, after, s);
    WhileNotOpen(closed, after, k, s);
  }

  /** The same for a session that is still open. */
  lemma SessionReceivesSoFar(before: seq<Event>, s: Id, during: seq<Event>, k: nat)
    requires IsRun(EMPTY, before + [Open(s)] + during) && Close(s) !in during
    ensures var now := Run(EMPTY, before + [Open(s)] + during);
            && s in now.callbacks && s in now.known
            && Received(now.log, k, s) == Sent(during, k, s)
  {
    assert before + [Open(s)] + during == before + ([Open(s)] + during);
    RunConcat(EMPTY, before, [Open(s)] + during);
    var st := Run(EMPTY, before);
    RunConcat(st, [Open(s)], during);
    RunOne(st, Open(s));
    RegistryIsOpenSessions(before);
    NeverOpenedBefore(before, s);
    WhileNotOpen(EMPTY, before, k, s);
    var open := Step(st, Open(s));
    WhileOpen(open, during, k, s);
    OpensOnce(open, during, s);
    assert [] + Sent(during, k, s) == Sent(during, k, s);
  }

  // ----- Results -----

  /** Collecting results reports the first error, after every callback has run. */
  function FirstError(results: seq<Option<Error>>): Option<Error> {
    if results == [] then None else if results[0] != None then results[0] else FirstError(results[1..])
  }

  lemma {:induction false} FirstErrorMeaning(results: seq<Option<Error>>)
    ensures FirstError(results) == None <==> forall i :: 0 <= i < |results| ==> results[i] == None
    ensures FirstError(results) != None ==>
              exists i :: 0 <= i < |results| && results[i] == FirstError(results) &&
                          forall j :: 0 <= j < i ==> results[j] == None
  {
    if results != [] {
      FirstErrorMeaning(results[1..]);
      if results[0] == None {
        if FirstError(results) != None {
          var i :| 0 <= i < |results[1..]| && results[1..][i] == FirstError(results) &&
                   forall j :: 0 <= j < i ==> results[1..][j] == None;
          assert results[i + 1] == FirstError(results);
          forall j | 0 <= j < i + 1 ensures results[j] == None {
            if j > 0 { assert results[1..][j - 1] == None; }
          }
        } else {
          forall i | 0 <= i < |results| ensures results[i] == None {
            if i > 0 { assert results[1..][i - 1] == None; }
          }
        }
      }
    }
  }

  /** What a request reports when the host polls: that failure at once, else the callbacks' first error. */
  function Reported(results: seq<Option<Error>>, host: Option<Error>): Option<Error> {
    if host != None then host else FirstError(results)
  }

  lemma {:induction false} FirstErrorOfOneMore(results: seq<Option<Error>>, last: Option<Error>)
    ensures FirstError(results + [last]) == if FirstError(results) != None then FirstError(results) else last
  {
    if results == [] {
      assert results + [last] == [last];
    } else {
      assert (results + [last])[1..] == results[1..] + [last];
      FirstErrorOfOneMore(results[1..], last);
    }
  }

  /**
   * The report is the first error of all, the host's callback coming last, exactly if that callback
   * succeeds, or none before it failed, or its error is the first one's as well.
   */
  lemma ReportedIsFirstExactly(results: seq<Option<Error>>, host: Option<Error>)
    ensures Reported(results, host) == FirstError(results + [host]) <==>
            host == None || FirstError(results) == None || host == FirstError(results)
  {
    FirstErrorOfOneMore(results, host);
  }

  function ResultsOf(log: seq<Entry>, k: nat): seq<Option<Error>> {
    if log == [] then []
    else
      var e := log[|log| - 1];
      ResultsOf(log[..|log| - 1], k) + if e.call == k then [e.response.result] else []
  }

  lemma ResultsOfOne(log: seq<Entry>, e: Entry, k: nat)
    ensures ResultsOf(log + [e], k) == ResultsOf(log, k) + if e.call == k then [e.response.result] else []
  {
    assert (log + [e])[..|log + [e]| - 1] == log;
  }

  /** Events of other tasks leave a call's own results alone. */
  lemma {:induction false} OthersLeaveResults(st: State, events: seq<Event>, k: nat)
    requires forall e :: e in events && e.Deliver? ==> e.call != k
    ensures ResultsOf(Run(st, events).log, k) == ResultsOf(st.log, k)
  {
    if events != [] {
      var init, e := events[..|events| - 1], events[|events| - 1];
      assert e in events && forall x :: x in init ==> x in events;
      OthersLeaveResults(st, init, k);
      if e.Deliver? && e.response.client in Run(st, init).callbacks {
        ResultsOfOne(Run(st, init).log, Entry(e.call, e.response), k);
      }
    }
  }

  /** A batch of call k, with other tasks' events before each response. */
  function Weave(k: nat, batch: seq<Response>, between: seq<seq<Event>>): seq<Event>
    requires |batch| == |between|
  {
    if batch == [] then []
    else
      var n := |batch| - 1;
      Weave(k, batch[..n], between[..n]) + between[n] + [Deliver(k, batch[n])]
  }

  ghost predicate OtherCalls(between: seq<seq<Event>>, k: nat) {
    forall i, e :: 0 <= i < |between| && e in between[i] && e.Deliver? ==> e.call != k
  }

  /**
   * How the end of a request polls: through the host's callback, during which anything may happen,
   * or by the server itself.
   */
  datatype Polling =
    | HostPolls(result: Option<Error>, during: seq<Event>)
    | SelfPolls(batch: seq<Response>, between: seq<seq<Event>>)

  class ServerObject {
    var callbacks: set<Id>
    ghost var known: set<Id>
    ghost var log: seq<Entry>

    ghost function Now(): State
      reads this
    {
      State(callbacks, known, log)
    }

    constructor ()
      ensures Now() == EMPTY
    {
      callbacks, known, log := {}, {}, [];
    }

    method NewSession(id: Id)
      requires id !in known
      modifies this
      ensures Now() == Step(old(Now()), Open(id))
    {
      callbacks, known := callbacks + {id}, known + {id};
    }

    /** Closing twice panics. */
    method CloseSession(id: Id) returns (ok: bool)
      modifies this`callbacks
      ensures ok == (id in old(callbacks))
      ensures Now() == Step(old(Now()), Close(id))
    {
      ok := id in callbacks;
      callbacks := callbacks - {id};
    }

    method Apply(e: Event)
      requires Enabled(Now(), e)
      modifies this
      ensures Now() == Step(old(Now()), e)
    {
      match e
      case Open(id) => NewSession(id);
      case Close(id) => var _ := CloseSession(id);
      case Deliver(call, r) => if r.client in callbacks { log := log + [Entry(call, r)]; }
    }

    method Interleave(events: seq<Event>)
      requires IsRun(Now(), events)
      modifies this
      ensures Now() == Run(old(Now()), events)
    {
      for i := 0 to |events|
        invariant Now() == Run(old(Now()), events[..i])
      {
        assert events == events[..i + 1] + events[i + 1..];
        RunConcat(old(Now()), events[..i + 1], events[i + 1..]);
        assert events[..i + 1][..i] == events[..i];
        Apply(events[i]);
      }
      assert events[..|events|] == events;
    }

    /** Gives each response to its session's callback, skipping sessions that are gone. */
    method Dispatch(k: nat, batch: seq<Response>, between: seq<seq<Event>>) returns (results: seq<Option<Error>>)
      requires |between| == |batch| && OtherCalls(between, k)
      requires IsRun(Now(), Weave(k, batch, between))
      modifies this
      ensures Now() == Run(old(Now()), Weave(k, batch, between))
      ensures ResultsOf(log, k) == ResultsOf(old(log), k) + results
    {
      results := [];
      for i := 0 to |batch|
        invariant Now() == Run(old(Now()), Weave(k, batch[..i], between[..i]))
        invariant ResultsOf(log, k) == ResultsOf(old(log), k) + results
      {
        WeaveStep(old(Now()), k, batch, between, i);
        OthersLeaveResults(Now(), between[i], k);
        Interleave(between[i]);
        if batch[i].client in callbacks {
          ResultsOfOne(log, Entry(k, batch[i]), k);
          log := log + [Entry(k, batch[i])];
          results := results + [batch[i].result];
        }
      }
      assert batch[..|batch|] == batch && between[..|batch|] == between;
    }

    method Poll(k: nat, batch: seq<Response>, between: seq<seq<Event>>) returns (r: Option<Error>)
      requires |between| == |batch| && OtherCalls(between, k)
      requires IsRun(Now(), Weave(k, batch, between)) && ResultsOf(log, k) == []
      modifies this
      ensures Now() == Run(old(Now()), Weave(k, batch, between))
      ensures r == FirstError(ResultsOf(log, k))
    {
      var results := Dispatch(k, batch, between);
      assert [] + results == results;
      r := FirstError(results);
    }

    /**
     * Dispatches the request's responses, then polls. The first error of its own callbacks is
     * reported unless the host's polling callback fails: then only that failure is.
     */
    method HandleRequest(k: nat, batch: seq<Response>, between: seq<seq<Event>>, polling: Polling, p: nat)
      returns (r: Option<Error>)
      requires |between| == |batch| && OtherCalls(between, k) && p != k
      requires IsRun(Now(), Weave(k, batch, between)) && ResultsOf(log, k) == []
      requires polling.HostPolls? ==>
                 && IsRun(Run(Now(), Weave(k, batch, between)), polling.during)
                 && forall e :: e in polling.during && e.Deliver? ==> e.call != k
      requires polling.SelfPolls? ==>
                 var after := Run(Now(), Weave(k, batch, between));
                 && |polling.between| == |polling.batch|
                 && OtherCalls(polling.between, p) && OtherCalls(polling.between, k)
                 && IsRun(after, Weave(p, polling.batch, polling.between)) && ResultsOf(after.log, p) == []
      modifies this
      ensures var after := Run(old(Now()), Weave(k, batch, between));
              Now() ==
              Run(after, if polling.HostPolls? then polling.during else Weave(p, polling.batch, polling.between))
      ensures r == match polling
                   case HostPolls(result, _) => Reported(ResultsOf(log, k), result)
                   case SelfPolls(_, _) => FirstError(ResultsOf(log, k) + [FirstError(ResultsOf(log, p))])
    {
      var results := Dispatch(k, batch, between);
      assert [] + results == results;
      match polling
      case HostPolls(result, during) =>
        OthersLeaveResults(Now(), during, k);
        Interleave(during);
        if result != None { return result; }
        r := FirstError(results);
      case SelfPolls(pollBatch, pollBetween) =>
        WeaveLeavesResults(Now(), p, pollBatch, pollBetween, k);
        var polled := Poll(p, pollBatch, pollBetween);
        r := FirstError(results + [polled]);
    }
  }

  lemma WeaveStep(st: State, k: nat, batch: seq<Response>, between: seq<seq<Event>>, i: nat)
    requires |batch| == |between| && i < |batch| && IsRun(st, Weave(k, batch, between))
    ensures var done := Run(st, Weave(k, batch[..i], between[..i]));
            && IsRun(done, between[i])
            && Run(st, Weave(k, batch[..i + 1], between[..i + 1])) == Step(Run(done, between[i]), Deliver(k, batch[i]))
  {
    WeavePrefix(st, k, batch, between, i + 1);
    assert batch[..i + 1][..i] == batch[..i] && between[..i + 1][..i] == between[..i];
    var a, b := Weave(k, batch[..i], between[..i]), between[i];
    RunConcat(st, a + b, [Deliver(k, batch[i])]);
    RunConcat(st, a, b);
    RunOne(Run(st, a + b), Deliver(k, batch[i]));
  }

  lemma {:induction false} WeavePrefix(st: State, k: nat, batch: seq<Response>, between: seq<seq<Event>>, i: nat)
    requires |batch| == |between| && i <= |batch| && IsRun(st, Weave(k, batch, between))
    ensures IsRun(st, Weave(k, batch[..i], between[..i]))
    decreases |batch|
  {
    var n := |batch| - 1;
    if i <= n {
      RunConcat(st, Weave(k, batch[..n], between[..n]) + between[n], [Deliver(k, batch[n])]);
      RunConcat(st, Weave(k, batch[..n], between[..n]), between[n]);
      WeavePrefix(st, k, batch[..n], between[..n], i);
      assert batch[..n][..i] == batch[..i] && between[..n][..i] == between[..i];
    } else {
      assert batch[..i] == batch && between[..i] == between;
    }
  }

  lemma {:induction false} WeaveLeavesResults(st: State, p: nat, batch: seq<Response>, between: seq<seq<Event>>, k: nat)
    requires |batch| == |between| && p != k && OtherCalls(between, k)
    ensures ResultsOf(Run(st, Weave(p, batch, between)).log, k) == ResultsOf(st.log, k)
  {
    if batch != [] {
      var n := |batch| - 1;
      var a := Weave(p, batch[..n], between[..n]);
      WeaveLeavesResults(st, p, batch[..n], between[..n], k);
      RunConcat(st, a + between[n], [Deliver(p, batch[n])]);
      RunConcat(st, a, between[n]);
      OthersLeaveResults(Run(st, a), between[n], k);
      OthersLeaveResults(Run(st, a + between[n]), [Deliver(p, batch[n])], k);
    }
  }
}

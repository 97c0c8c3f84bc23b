/**
 Registration with the NRFs and the heartbeat that keeps it alive (amf_app.cpp
 and amf_sbi.cpp; TS 29.510, section 5.2.2.3.2): requests and responses between
 the AMF_APP and SBI tasks, and one-shot timers.
 */
module Nrf {

  const OK: nat := 200
  const CREATED: nat := 201
  const NO_CONTENT: nat := 204

  /** Seconds before a failed registration is tried again. */
  const RETRY_SECONDS: nat := 20

  datatype Message =
    | RegisterRequest(uri: string)
    | UpdateRequest(uri: string)
    | RegisterResponse(uri: string, code: nat, interval: nat)
    | UpdateResponse(uri: string, code: nat)

  datatype TimerKind = Heartbeat | Retry

  datatype Timer = Timer(id: nat, kind: TimerKind, seconds: nat, uri: string)

  datatype State = State(
    messages: seq<Message>, timers: seq<Timer>,
    heartbeatTimers: map<string, nat>, registered: set<string>,
    interval: nat, nextTimer: nat)

  function Send(s: State, m: Message): State {
    s.(messages := s.messages + [m])
  }

  function Arm(s: State, kind: TimerKind, seconds: nat, uri: string): State {
    s.(timers := s.timers + [Timer(s.nextTimer, kind, seconds, uri)], nextTimer := s.nextTimer + 1)
  }

  /** A heartbeat timer is armed, and its identity kept if it is the first for its NRF. */
  function ArmHeartbeat(s: State, uri: string): State {
    var s1 := Arm(s, Heartbeat, s.interval, uri);
    if uri in s.heartbeatTimers then s1 else s1.(heartbeatTimers := s.heartbeatTimers[uri := s.nextTimer])
  }

  function Requests(nrfs: seq<string>): seq<Message> {
    seq(|nrfs|, i requires 0 <= i < |nrfs| => RegisterRequest(nrfs[i]))
  }

  /** SBI: the NRF's answer to a request goes back to AMF_APP. */
  function Answered(s: State, m: Message, code: nat, interval: nat): State {
    match m
    case RegisterRequest(uri) => Send(s, RegisterResponse(uri, code, interval))
    case UpdateRequest(uri) => Send(s, UpdateResponse(uri, code))
    case _ => s
  }

  /** AMF_APP: a response is handled. */
  function Handled(s: State, m: Message): State {
    match m
    case RegisterResponse(uri, code, interval) =>
      if code == OK || code == CREATED then ArmHeartbeat(s.(interval := interval), uri)
      else Arm(s, Retry, RETRY_SECONDS, uri)
    case UpdateResponse(uri, code) =>
      if code != NO_CONTENT && code != OK then Send(s, RegisterRequest(uri))
      else ArmHeartbeat(s, uri).(registered := s.registered + {uri})
    case _ => s
  }

  function Expired(s: State, t: Timer): State {
    Send(s, if t.kind.Heartbeat? then UpdateRequest(t.uri) else RegisterRequest(t.uri))
  }

  function Without<T>(q: seq<T>, j: nat): seq<T>
    requires j < |q|
  {
    q[..j] + q[j + 1..]
  }

  predicate IsRequest(m: Message) {
    m.RegisterRequest? || m.UpdateRequest?
  }

  // ---- The object ----

  class NrfClient {
    var messages: seq<Message>
    var timers: seq<Timer>
    var timerNrfsHeartbeat: map<string, nat>
    var registeredNrfs: set<string>
    var interval: nat
    var nextTimer: nat

    function View(): State
      reads this
    {
      State(messages, timers, timerNrfsHeartbeat, registeredNrfs, interval, nextTimer)
    }

    constructor ()
      ensures View() == State([], [], map[], {}, 0, 0)
    {
      messages, timers, timerNrfsHeartbeat, registeredNrfs, interval, nextTimer := [], [], map[], {}, 0, 0;
    }

    method RegisterToNrf(uri: string)
      modifies this
      ensures View() == Send(old(View()), RegisterRequest(uri))
    {
      messages := messages + [RegisterRequest(uri)];
    }

    /** One request for every appropriate NRF, in the order of the set's iteration. */
    method RegisterToNrfs(nrfs: set<string>) returns (ghost order: seq<string>)
      modifies this
      ensures multiset(order) == multiset(nrfs)
      ensures View() == old(View()).(messages := old(messages) + Requests(order))
    {
      order := [];
      var left := nrfs;
      while left != {}
        invariant left <= nrfs
        invariant multiset(order) == multiset(nrfs - left)
        invariant View() == old(View()).(messages := old(messages) + Requests(order))
      {
        var uri :| uri in left;
        RegisterToNrf(uri);
        OneMoreNrf(nrfs, left, order, uri);
        order := order + [uri];
        left := left - {uri};
      }
    }

    method SetupTimer(kind: TimerKind, seconds: nat, uri: string) returns (id: nat)
      modifies this`timers, this`nextTimer
      ensures id == old(nextTimer) && View() == Arm(old(View()), kind, seconds, uri)
    {
      id := nextTimer;
      timers := timers + [Timer(id, kind, seconds, uri)];
      nextTimer := nextTimer + 1;
    }

    /** The identity is kept only if there is none for the NRF yet. */
    method StartHeartbeat(uri: string)
      modifies this`timers, this`nextTimer, this`timerNrfsHeartbeat
      ensures View() == ArmHeartbeat(old(View()), uri)
    {
      var id := SetupTimer(Heartbeat, interval, uri);
      if uri !in timerNrfsHeartbeat {
        timerNrfsHeartbeat := timerNrfsHeartbeat[uri := id];
      }
    }

    method HandleResponse(m: Message)
      requires !IsRequest(m)
      modifies this
      ensures View() == Handled(old(View()), m)
    {
      match m
      case RegisterResponse(uri, code, newInterval) =>
        if code == OK || code == CREATED {
          interval := newInterval;
          StartHeartbeat(uri);
        } else {
          var _ := SetupTimer(Retry, RETRY_SECONDS, uri);
        }
      case UpdateResponse(uri, code) =>
        if code != NO_CONTENT && code != OK {
          RegisterToNrf(uri);
        } else {
          StartHeartbeat(uri);
          registeredNrfs := registeredNrfs + {uri};
        }
    }

    method HandleTimeout(t: Timer)
      modifies this
      ensures View() == Expired(old(View()), t)
    {
      if t.kind == Heartbeat {
        messages := messages + [UpdateRequest(t.uri)];
      } else {
        RegisterToNrf(t.uri);
      }
    }
  }

  lemma OneMoreNrf(nrfs: set<string>, left: set<string>, order: seq<string>, uri: string)
    requires uri in left && left <= nrfs && multiset(order) == multiset(nrfs - left)
    ensures multiset(order + [uri]) == multiset(nrfs - (left - {uri}))
    ensures Requests(order + [uri]) == Requests(order) + [RegisterRequest(uri)]
  {
    assert nrfs - (left - {uri}) == (nrfs - left) + {uri};
  }

  // ---- Runs ----

  /** Registration is started; SBI answers a request; AMF_APP handles a response; a timer expires. */
  datatype Event =
    | Register(nrfs: seq<string>)
    | Answer(at: nat, code: nat, interval: nat)
    | Handle(at: nat)
    | Expire(at: nat)

  predicate Enabled(s: State, ev: Event) {
    match ev
    case Register(_) => true
    case Answer(j, _, _) => j < |s.messages| && IsRequest(s.messages[j])
    case Handle(j) => j < |s.messages| && !IsRequest(s.messages[j])
    case Expire(j) => j < |s.timers|
  }

  function Next(s: State, ev: Event): State
    requires Enabled(s, ev)
  {
    match ev
    case Register(nrfs) => s.(messages := s.messages + Requests(nrfs))
    case Answer(j, code, interval) => Answered(s.(messages := Without(s.messages, j)), s.messages[j], code, interval)
    case Handle(j) => Handled(s.(messages := Without(s.messages, j)), s.messages[j])
    case Expire(j) => Expired(s.(timers := Without(s.timers, j)), s.timers[j])
  }

  function MessageUris(q: seq<Message>): seq<string> {
    seq(|q|, i requires 0 <= i < |q| => q[i].uri)
  }

  function TimerUris(q: seq<Timer>): seq<string> {
    seq(|q|, i requires 0 <= i < |q| => q[i].uri)
  }

  /** The tokens of each NRF: its messages under way and its armed timers. */
  function Tokens(s: State): multiset<string> {
    multiset(MessageUris(s.messages)) + multiset(TimerUris(s.timers))
  }

  lemma WithoutOne<T>(q: seq<T>, j: nat)
    requires j < |q|
    ensures multiset(Without(q, j)) + multiset{q[j]} == multiset(q)
  {
    assert q == q[..j] + [q[j]] + q[j + 1..];
  }

  lemma UrisWithout(q: seq<Message>, j: nat)
    requires j < |q|
    ensures multiset(MessageUris(Without(q, j))) + multiset{q[j].uri} == multiset(MessageUris(q))
  {
    assert MessageUris(Without(q, j)) == Without(MessageUris(q), j);
    WithoutOne(MessageUris(q), j);
  }

  lemma TimerUrisWithout(q: seq<Timer>, j: nat)
    requires j < |q|
    ensures multiset(TimerUris(Without(q, j))) + multiset{q[j].uri} == multiset(TimerUris(q))
  {
    assert TimerUris(Without(q, j)) == Without(TimerUris(q), j);
    WithoutOne(TimerUris(q), j);
  }

  lemma SendAddsToken(s: State, m: Message)
    ensures Tokens(Send(s, m)) == Tokens(s) + multiset{m.uri}
  {
    assert MessageUris(s.messages + [m]) == MessageUris(s.messages) + [m.uri];
  }

  lemma ArmAddsToken(s: State, kind: TimerKind, seconds: nat, uri: string)
    ensures Tokens(Arm(s, kind, seconds, uri)) == Tokens(s) + multiset{uri}
  {
    var t := Timer(s.nextTimer, kind, seconds, uri);
    assert TimerUris(s.timers + [t]) == TimerUris(s.timers) + [uri];
  }

  /** Tokens that a step creates: one per NRF where registration is started, none elsewhere. */
  function Created(ev: Event): multiset<string> {
    if ev.Register? then multiset(ev.nrfs) else multiset{}
  }

  /** Every response and timeout handler passes its token on: none is lost and none is doubled. */
  lemma TokensConserved(s: State, ev: Event)
    requires Enabled(s, ev)
    ensures Tokens(Next(s, ev)) == Tokens(s) + Created(ev)
  {
    match ev
    case Register(nrfs) =>
      assert MessageUris(s.messages + Requests(nrfs)) == MessageUris(s.messages) + nrfs;
    case Answer(j, code, interval) => AnswerPassesToken(s, j, code, interval);
    case Handle(j) =>
      UrisWithout(s.messages, j);
      HandledAddsToken(s.(messages := Without(s.messages, j)), s.messages[j]);
    case Expire(j) => ExpiryPassesToken(s, j);
  }

  lemma AnswerPassesToken(s: State, j: nat, code: nat, interval: nat)
    requires j < |s.messages| && IsRequest(s.messages[j])
    ensures Tokens(Next(s, Answer(j, code, interval))) == Tokens(s)
  {
    var s1 := s.(messages := Without(s.messages, j));
    UrisWithout(s.messages, j);
    SendAddsToken(s1, if s.messages[j].RegisterRequest? then RegisterResponse(s.messages[j].uri, code, interval)
                      else UpdateResponse(s.messages[j].uri, code));
  }

  lemma ExpiryPassesToken(s: State, j: nat)
    requires j < |s.timers|
    ensures Tokens(Next(s, Expire(j))) == Tokens(s)
  {
    var t := s.timers[j];
    TimerUrisWithout(s.timers, j);
    var m := if t.kind.Heartbeat? then UpdateRequest(t.uri) else RegisterRequest(t.uri);
    SendAddsToken(s.(timers := Without(s.timers, j)), m);
  }

  lemma HandledAddsToken(s: State, m: Message)
    requires !IsRequest(m)
    ensures Tokens(Handled(s, m)) == Tokens(s) + multiset{m.uri}
  {
    match m
    case RegisterResponse(uri, code, interval) =>
      ArmAddsToken(s.(interval := interval), Heartbeat, interval, uri);
      ArmAddsToken(s, Retry, RETRY_SECONDS, uri);
    case UpdateResponse(uri, code) =>
      SendAddsToken(s, RegisterRequest(uri));
      ArmAddsToken(s, Heartbeat, s.interval, uri);
  }

  const START := State([], [], map[], {}, 0, 0)

  predicate Possible(s: State, evs: seq<Event>)
    decreases evs
  {
    evs == [] || (Enabled(s, evs[0]) && Possible(Next(s, evs[0]), evs[1..]))
  }

  function After(s: State, evs: seq<Event>): State
    requires Possible(s, evs)
    decreases evs
  {
    if evs == [] then s else After(Next(s, evs[0]), evs[1..])
  }

  // ---- What the steps do ----

  /**
   A registration that is answered with 200 or 201 has its heartbeat after the
   interval in the answer, and any other is tried again after 20 seconds. An
   update that is answered with 200 or 204 has its next heartbeat after the same
   interval and marks the NRF as registered, and any other is followed by a new
   registration. The first heartbeat timer of an NRF is the one remembered.
   */
  lemma HandleEffects(s: State, j: nat)
    requires j < |s.messages| && !IsRequest(s.messages[j])
    ensures var m, s', q := s.messages[j], Next(s, Handle(j)), s.messages[..j] + s.messages[j + 1..];
            var isGood := m.code == 200 || m.code == (if m.RegisterResponse? then 201 else 204);
            if m.RegisterResponse? && !isGood then
              s' == s.(messages := q, timers := s.timers + [Timer(s.nextTimer, Retry, 20, m.uri)],
                       nextTimer := s.nextTimer + 1)
            else if m.UpdateResponse? && !isGood then
              s' == s.(messages := q + [RegisterRequest(m.uri)])
            else
              var seconds := if m.RegisterResponse? then m.interval else s.interval;
              && s'.messages == q && s'.interval == seconds && s'.nextTimer == s.nextTimer + 1
              && s'.timers == s.timers + [Timer(s.nextTimer, Heartbeat, seconds, m.uri)]
              && s'.registered == (if m.UpdateResponse? then s.registered + {m.uri} else s.registered)
              && s'.heartbeatTimers == (if m.uri in s.heartbeatTimers then s.heartbeatTimers
                                        else s.heartbeatTimers[m.uri := s.nextTimer])
  {
  }

  /** A heartbeat that is due sends an update, a retry a registration; answers come back to the NRF's request. */
  lemma ExpireAndAnswerEffects(s: State, j: nat, code: nat, interval: nat)
    ensures j < |s.timers| ==>
              var t, s' := s.timers[j], Next(s, Expire(j));
              && s' == s.(timers := s.timers[..j] + s.timers[j + 1..], messages := s'.messages)
              && s'.messages == s.messages +
                   [if t.kind == Heartbeat then UpdateRequest(t.uri) else RegisterRequest(t.uri)]
    ensures j < |s.messages| && IsRequest(s.messages[j]) ==>
              var m, s' := s.messages[j], Next(s, Answer(j, code, interval));
              && s' == s.(messages := s'.messages)
              && s'.messages == s.messages[..j] + s.messages[j + 1..] +
                   [if m.RegisterRequest? then RegisterResponse(m.uri, code, interval) else UpdateResponse(m.uri, code)]
  {
  }

  /** Starting registration sends every NRF a registration. */
  lemma RegisterEffects(s: State, nrfs: seq<string>)
    ensures var s' := Next(s, Register(nrfs));
            && s' == s.(messages := s'.messages) && |s'.messages| == |s.messages| + |nrfs|
            && s'.messages[..|s.messages|] == s.messages
            && forall i :: 0 <= i < |nrfs| ==> s'.messages[|s.messages| + i] == RegisterRequest(nrfs[i])
  {
  }

  lemma ThreeEvents(s: State, a: Event, b: Event, c: Event)
    requires Enabled(s, a) && Enabled(Next(s, a), b) && Enabled(Next(Next(s, a), b), c)
    ensures Possible(s, [a, b, c]) && After(s, [a, b, c]) == Next(Next(Next(s, a), b), c)
  {
    var s1, s2 := Next(s, a), Next(Next(s, a), b);
    assert [c] + [] == [c] && [b] + [c] == [b, c] && [a] + [b, c] == [a, b, c];
    FirstEvent(s2, c, []);
    FirstEvent(s1, b, [c]);
    FirstEvent(s, a, [b, c]);
  }

  lemma FirstEvent(s: State, ev: Event, evs: seq<Event>)
    requires Enabled(s, ev) && Possible(Next(s, ev), evs)
    ensures Possible(s, [ev] + evs) && After(s, [ev] + evs) == After(Next(s, ev), evs)
  {
    assert ([ev] + evs)[1..] == evs;
  }

  /** A good heartbeat, from one timer to the next: update, answer, and the same interval again. */
  lemma GoodHeartbeat(s: State, id: nat, seconds: nat, uri: string, code: nat)
    requires s.messages == [] && s.timers == [Timer(id, Heartbeat, seconds, uri)]
    requires uri in s.heartbeatTimers && (code == 200 || code == 204)
    ensures var evs := [Expire(0), Answer(0, code, 0), Handle(0)];
            && Possible(s, evs)
            && After(s, evs) == s.(timers := [Timer(s.nextTimer, Heartbeat, s.interval, uri)],
                                   nextTimer := s.nextTimer + 1, registered := s.registered + {uri})
  {
    ExpireAndAnswerEffects(s, 0, code, 0);
    var s1 := Next(s, Expire(0));
    assert s1.messages == [UpdateRequest(uri)] && s1.timers == [];
    ExpireAndAnswerEffects(s1, 0, code, 0);
    var s2 := Next(s1, Answer(0, code, 0));
    assert s2.messages == [UpdateResponse(uri, code)];
    HandleEffects(s2, 0);
    ThreeEvents(s, Expire(0), Answer(0, code, 0), Handle(0));
  }

  /** How often registration has been started for each NRF. */
  function Started(evs: seq<Event>): multiset<string> {
    if evs == [] then multiset{} else Created(evs[0]) + Started(evs[1..])
  }

  /**
   Over every run, an NRF has exactly as many tokens as registration was started
   for it: its heartbeat never dies, and forks only by starting it again.
   */
  lemma {:induction false} HeartbeatsNeitherDieNorFork(s: State, evs: seq<Event>)
    requires Possible(s, evs)
    ensures Tokens(After(s, evs)) == Tokens(s) + Started(evs)
    decreases evs
  {
    if evs != [] {
      TokensConserved(s, evs[0]);
      HeartbeatsNeitherDieNorFork(Next(s, evs[0]), evs[1..]);
    }
  }

  /** A token is something that can happen: a message to answer or handle, or a timer to expire. */
  lemma TokenIsEnabled(s: State, uri: string)
    ensures uri in Tokens(s) <==>
              (exists j :: 0 <= j < |s.messages| && s.messages[j].uri == uri)
              || (exists j :: 0 <= j < |s.timers| && s.timers[j].uri == uri)
  {
    var m, t := MessageUris(s.messages), TimerUris(s.timers);
    assert uri in multiset(m) <==> uri in m;
    assert uri in multiset(t) <==> uri in t;
    if uri in m {
      var j :| 0 <= j < |m| && m[j] == uri;
      assert s.messages[j].uri == uri;
    }
    if uri in t {
      var j :| 0 <= j < |t| && t[j] == uri;
      assert s.timers[j].uri == uri;
    }
    if j: nat :| j < |s.messages| && s.messages[j].uri == uri {
      assert m[j] == uri;
    }
    if j: nat :| j < |s.timers| && s.timers[j].uri == uri {
      assert t[j] == uri;
    }
  }

  /** Started once, an NRF has one message under way or one armed timer at any time, and not both. */
  lemma OneHeartbeatEach(evs: seq<Event>, uri: string)
    requires Possible(START, evs) && Started(evs)[uri] == 1
    ensures var s := After(START, evs);
            multiset(MessageUris(s.messages))[uri] + multiset(TimerUris(s.timers))[uri] == 1
  {
    HeartbeatsNeitherDieNorFork(START, evs);
    var s := After(START, evs);
    assert MessageUris(START.messages) == [] && TimerUris(START.timers) == [];
    assert Tokens(START)[uri] == 0;
    assert Tokens(s)[uri] == multiset(MessageUris(s.messages))[uri] + multiset(TimerUris(s.timers))[uri];
  }

  predicate TimersKept(s: State) {
    s.registered <= s.heartbeatTimers.Keys && forall uri :: uri in s.heartbeatTimers ==> uri in Tokens(s)
  }

  /**
   An NRF counts as registered only once a heartbeat has been answered, and then
   there is a timer identity for it to be stopped by; a timer identity is there
   only for an NRF whose heartbeat goes on.
   */
  lemma {:induction false} RegisteredHaveTimers(s: State, evs: seq<Event>)
    requires Possible(s, evs) && TimersKept(s)
    ensures TimersKept(After(s, evs))
    decreases evs
  {
    if evs != [] {
      TimersKeptByStep(s, evs[0]);
      RegisteredHaveTimers(Next(s, evs[0]), evs[1..]);
    }
  }

  lemma TimersKeptByStep(s: State, ev: Event)
    requires Enabled(s, ev) && TimersKept(s)
    ensures TimersKept(Next(s, ev))
  {
    TokensConserved(s, ev);
    if ev.Handle? {
      UrisWithout(s.messages, ev.at);
      HandlingKeepsTimers(s, Next(s, ev), s.messages[ev.at].uri, ev.at);
    }
  }

  lemma HandlingKeepsTimers(s: State, s': State, uri: string, j: nat)
    requires j < |s.messages| && !IsRequest(s.messages[j]) && s' == Next(s, Handle(j)) && uri == s.messages[j].uri
    requires TimersKept(s) && Tokens(s') == Tokens(s) && uri in Tokens(s)
    ensures TimersKept(s')
  {
    HandleEffects(s, j);
  }
}

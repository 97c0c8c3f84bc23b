/**
 The table of promises the AMF waits on for answers of the SMF, and the two
 loops over all sessions of a UE that fill and drain it: release and user plane
 deactivation (amf_app.cpp; the deregistration handler of amf_n1.cpp has the
 same release loop).
 */
module Promises {
  import opened Wrappers
  import opened PduSessions

  /** What an answer says: the HTTP response code it carries, if any. */
  type Answer = Option<nat>

  predicate Succeeded(a: Answer) {
    a == Some(200) || a == Some(204)
  }

  // ---- Interleavings of adds and answers ----

  /** Which promise waits under which identifier, and what each promise was set to, in order. */
  datatype Table<P> = Table(pending: map<nat, P>, settings: map<P, seq<Answer>>)

  datatype Event<P> = Add(pid: nat, promise: P) | Respond(pid: nat, answer: Answer)

  /** A promise is new when it is added. */
  ghost predicate Enabled<P>(t: Table<P>, ev: Event<P>) {
    ev.Add? ==> ev.promise !in t.settings
  }

  ghost function Next<P>(t: Table<P>, ev: Event<P>): Table<P>
  {
    match ev
    case Add(pid, p) =>
      Table(if pid in t.pending then t.pending else t.pending[pid := p], t.settings[p := []])
    case Respond(pid, a) =>
      if pid in t.pending then
        var p := t.pending[pid];
        var before := if p in t.settings then t.settings[p] else [];
        Table(t.pending - {pid}, t.settings[p := before + [a]])
      else t
  }

  /** Promises still waiting have not been set, and wait under one identifier each. */
  ghost predicate Inv<P>(t: Table<P>) {
    && (forall pid :: pid in t.pending ==> t.pending[pid] in t.settings && t.settings[t.pending[pid]] == [])
    && (forall p, q :: p in t.pending && q in t.pending && p != q ==> t.pending[p] != t.pending[q])
    && (forall p :: p in t.settings ==> |t.settings[p]| <= 1)
  }

  ghost predicate Possible<P>(t: Table<P>, evs: seq<Event<P>>)
    decreases evs
  {
    evs == [] || (Enabled(t, evs[0]) && Possible(Next(t, evs[0]), evs[1..]))
  }

  ghost function After<P>(t: Table<P>, evs: seq<Event<P>>): Table<P>
    decreases evs
  {
    if evs == [] then t else After(Next(t, evs[0]), evs[1..])
  }

  /**
   In every interleaving each promise is set at most once, and what it was set to
   first it keeps: late and repeated answers change nothing.
   */
  lemma {:induction false} SetAtMostOnce<P>(t: Table<P>, evs: seq<Event<P>>)
    requires Inv(t) && Possible(t, evs)
    ensures var t' := After(t, evs);
            && Inv(t')
            && (forall p :: p in t.settings ==> p in t'.settings && t.settings[p] <= t'.settings[p])
            && (forall p :: p in t.settings && t.settings[p] != [] ==> t'.settings[p] == t.settings[p])
    decreases evs
  {
    if evs != [] {
      var t1 := Next(t, evs[0]);
      NextInv(t, evs[0]);
      SetAtMostOnce(t1, evs[1..]);
    }
  }

  lemma NextInv<P>(t: Table<P>, ev: Event<P>)
    requires Inv(t) && Enabled(t, ev)
    ensures Inv(Next(t, ev))
    ensures forall p :: p in t.settings ==> p in Next(t, ev).settings && t.settings[p] <= Next(t, ev).settings[p]
  {
  }

  /** A promise waits under a new identifier only; an answer is added to what its promise was set to. */
  lemma StepEffects<P>(t: Table<P>, pid: nat, p: P, a: Answer)
    ensures var t' := Next(t, Add(pid, p));
            && t'.settings == t.settings[p := []]
            && t'.pending == if pid in t.pending then t.pending else t.pending[pid := p]
    ensures var t' := Next(t, Respond(pid, a));
            if pid !in t.pending then t' == t
            else
              var q := t.pending[pid];
              && t'.pending == t.pending - {pid} && t'.settings.Keys == t.settings.Keys + {q}
              && t'.settings[q] == (if q in t.settings then t.settings[q] else []) + [a]
              && forall other :: other in t.settings && other != q ==> t'.settings[other] == t.settings[other]
  {
  }

  /** An answer to an identifier that was answered before, with no new promise under it, is lost on the table. */
  lemma RepeatedAnswer<P>(t: Table<P>, pid: nat, a: Answer, b: Answer)
    ensures Next(Next(t, Respond(pid, a)), Respond(pid, b)) == Next(t, Respond(pid, a))
  {
  }

  // ---- Answers as they arrive ----

  datatype Response = Response(pid: nat, answer: Answer)

  function Responds<P>(rs: seq<Response>): seq<Event<P>> {
    if rs == [] then [] else [Respond(rs[0].pid, rs[0].answer)] + Responds(rs[1..])
  }

  /** The table after answers have arrived one after another. */
  ghost function Delivered<P>(t: Table<P>, rs: seq<Response>): Table<P> {
    After(t, Responds(rs))
  }

  /** The answer that comes first for an identifier. */
  function FirstAnswer(rs: seq<Response>, pid: nat): Option<Answer> {
    if rs == [] then None else if rs[0].pid == pid then Some(rs[0].answer) else FirstAnswer(rs[1..], pid)
  }

  lemma DeliveredOne<P>(t: Table<P>, rs: seq<Response>)
    requires rs != []
    ensures Delivered(t, rs) == Delivered(Next(t, Respond(rs[0].pid, rs[0].answer)), rs[1..])
  {
    assert Responds<P>(rs)[1..] == Responds<P>(rs[1..]);
  }

  lemma {:induction false} DeliveredInTwo<P>(t: Table<P>, rs: seq<Response>, more: seq<Response>)
    ensures Delivered(t, rs + more) == Delivered(Delivered(t, rs), more)
    decreases rs
  {
    if rs == [] {
      assert rs + more == more;
    } else {
      assert (rs + more)[1..] == rs[1..] + more;
      DeliveredOne(t, rs);
      DeliveredOne(t, rs + more);
      DeliveredInTwo(Next(t, Respond(rs[0].pid, rs[0].answer)), rs[1..], more);
    }
  }

  function Settings(a: Option<Answer>): seq<Answer> {
    if a.Some? then [a.value] else []
  }

  /** A waiting promise is set to the first answer that arrives for its identifier, and waits on without one. */
  lemma {:induction false} FirstAnswerSettles<P>(t: Table<P>, rs: seq<Response>, pid: nat)
    requires Inv(t) && pid in t.pending
    ensures var t', p := Delivered(t, rs), t.pending[pid];
            && Inv(t') && p in t'.settings && t'.settings[p] == Settings(FirstAnswer(rs, pid))
            && (pid in t'.pending <==> FirstAnswer(rs, pid).None?)
            && (pid in t'.pending ==> t'.pending[pid] == p)
    decreases rs
  {
    if rs != [] {
      var ev: Event<P> := Respond(rs[0].pid, rs[0].answer);
      var t1 := Next(t, ev);
      NextInv(t, ev);
      DeliveredOne(t, rs);
      if rs[0].pid == pid {
        AnswersPossible(t1, rs[1..]);
        SetAtMostOnce(t1, Responds(rs[1..]));
        OthersStay(t1, rs[1..], pid);
      } else {
        FirstAnswerSettles(t1, rs[1..], pid);
      }
    }
  }

  lemma {:induction false} AnswersPossible<P>(t: Table<P>, rs: seq<Response>)
    ensures Possible(t, Responds(rs))
    decreases rs
  {
    if rs != [] {
      var ev: Event<P> := Respond(rs[0].pid, rs[0].answer);
      AnswersPossible(Next(t, ev), rs[1..]);
      assert Responds<P>(rs)[1..] == Responds<P>(rs[1..]);
    }
  }

  /** Answers add nothing to the table. */
  lemma {:induction false} OthersStay<P>(t: Table<P>, rs: seq<Response>, pid: nat)
    requires pid !in t.pending
    ensures pid !in Delivered(t, rs).pending
    decreases rs
  {
    if rs != [] {
      DeliveredOne(t, rs);
      OthersStay(Next(t, Respond(rs[0].pid, rs[0].answer)), rs[1..], pid);
    }
  }

  lemma FewerValues<P>(m: map<nat, P>, key: nat)
    ensures (m - {key}).Values <= m.Values
  {
    forall p | p in (m - {key}).Values ensures p in m.Values {
      var other :| other in m - {key} && (m - {key})[other] == p;
      assert m[other] == p;
    }
  }

  // ---- The objects ----

  class Promise {
    var value: Option<Answer>

    constructor ()
      ensures value == None
    {
      value := None;
    }

    /** A promise that is set twice throws. */
    method SetValue(a: Answer)
      requires value.None?
      modifies this
      ensures value == Some(a)
    {
      value := Some(a);
    }
  }

  /** The table is `curl_handle_responses_sbi`. */
  class PromiseTable {
    var pending: map<nat, Promise>

    /** What every promise that was ever added has been set to. */
    ghost var settings: map<Promise, seq<Answer>>

    ghost function View(): Table<Promise>
      reads this
    {
      Table(pending, settings)
    }

    /** The promises hold what they were set to. */
    ghost predicate Valid()
      reads this, settings.Keys
    {
      Inv(View()) && forall p :: p in settings ==> settings[p] == Settings(p.value)
    }

    constructor ()
      ensures Valid() && View() == Table(map[], map[])
    {
      pending, settings := map[], map[];
    }

    /** An identifier already in the table keeps its promise. */
    method AddPromise(pid: nat, p: Promise)
      requires Valid() && p !in settings && p.value.None?
      modifies this
      ensures Valid() && View() == Next(old(View()), Add(pid, p))
    {
      NextInv(View(), Add(pid, p));
      if pid !in pending {
        pending := pending[pid := p];
      }
      settings := settings[p := []];
    }

    /**
     An answer sets the promise of its identifier and takes it out of the table,
     so no promise is set twice; without one, nothing happens.
     */
    method TriggerProcessResponse(pid: nat, a: Answer)
      requires Valid()
      modifies this, pending.Values
      ensures Valid() && View() == Next(old(View()), Respond(pid, a))
      ensures pending.Values <= old(pending.Values)
    {
      NextInv(View(), Respond(pid, a));
      if pid in pending {
        var p := pending[pid];
        FewerValues(pending, pid);
        p.SetValue(a);
        pending := pending - {pid};
        settings := settings[p := settings[p] + [a]];
      }
    }

    /** Answers arrive while a task waits. */
    method Receive(rs: seq<Response>)
      requires Valid()
      modifies this, pending.Values
      ensures Valid() && View() == Delivered(old(View()), rs)
      ensures pending.Values <= old(pending.Values)
    {
      for i := 0 to |rs|
        invariant Valid() && View() == Delivered(old(View()), rs[..i])
        invariant pending.Values <= old(pending.Values)
      {
        assert rs[..i + 1] == rs[..i] + [rs[i]];
        DeliveredInTwo(old(View()), rs[..i], [rs[i]]);
        DeliveredOne(View(), [rs[i]]);
        TriggerProcessResponse(rs[i].pid, rs[i].answer);
      }
      assert rs[..|rs|] == rs;
    }

    /** wait_for_result: what the promise holds when an answer has come or the time is over, `rs` having arrived. */
    method WaitForResult(p: Promise, rs: seq<Response>) returns (result: Option<Answer>)
      requires Valid() && p in settings
      modifies this, pending.Values
      ensures Valid() && View() == Delivered(old(View()), rs)
      ensures pending.Values <= old(pending.Values)
      ensures p in settings ==> settings[p] == Settings(result)
    {
      Receive(rs);
      result := p.value;
    }
  }

  // ---- The release and deactivation loops ----

  /** A request to the SMF about one session, to be answered under a promise. */
  datatype Request = Request(promise: nat, session: nat)

  predicate Distinct(s: seq<nat>) {
    forall j, k :: 0 <= j < k < |s| ==> s[j] != s[k]
  }

  predicate Ascending(s: seq<nat>) {
    forall j, k :: 0 <= j < k < |s| ==> s[j] < s[k]
  }

  function SessionsOf(sent: seq<Request>): seq<nat> {
    seq(|sent|, k requires 0 <= k < |sent| => sent[k].session)
  }

  method ListSessions(uc: UeSessions) returns (ids: seq<nat>)
    ensures Distinct(ids) && multiset(ids) == multiset(uc.sessions.Keys) && |ids| == |uc.sessions|
    ensures forall id :: id in ids <==> id in uc.sessions
  {
    ids := [];
    var left := uc.sessions.Keys;
    while left != {}
      invariant left <= uc.sessions.Keys && Distinct(ids)
      invariant multiset(ids) == multiset(uc.sessions.Keys - left)
      invariant forall id :: id in ids <==> id in uc.sessions && id !in left
    {
      var id :| id in left;
      assert uc.sessions.Keys - (left - {id}) == (uc.sessions.Keys - left) + {id};
      ids := ids + [id];
      left := left - {id};
    }
    KeysSize(uc.sessions, ids);
  }

  /** Each request's promise waits in the table under its identifier, and its future is kept under its key. */
  ghost predicate AllWaiting(t: Table<Promise>, pids: seq<nat>, keys: seq<nat>, futures: map<nat, Promise>)
    requires |keys| == |pids|
  {
    forall k :: 0 <= k < |keys| ==> keys[k] in futures && pids[k] in t.pending && t.pending[pids[k]] == futures[keys[k]]
  }

  lemma OneMoreWaiting(t: Table<Promise>, pids: seq<nat>, keys: seq<nat>, futures: map<nat, Promise>,
                       pid: nat, key: nat, p: Promise)
    requires |keys| == |pids| && AllWaiting(t, pids, keys, futures) && pid !in t.pending && key !in keys
    ensures AllWaiting(Next(t, Add(pid, p)), pids + [pid], keys + [key], futures[key := p])
  {
  }

  /** A new promise waits in the table, its future kept under a key. */
  method NewFuture(table: PromiseTable, ghost pids: seq<nat>, ghost keys: seq<nat>, pid: nat, key: nat,
                   futures: map<nat, Promise>)
    returns (futures': map<nat, Promise>)
    requires table.Valid() && |pids| == |keys| && AllWaiting(table.View(), pids, keys, futures)
    requires pid !in table.pending && key !in keys
    modifies table
    ensures table.Valid() && AllWaiting(table.View(), pids + [pid], keys + [key], futures')
    ensures futures'.Keys == futures.Keys + {key} && table.pending.Keys == old(table.pending.Keys) + {pid}
    ensures forall p :: p in table.pending.Values ==> fresh(p) || p in old(table.pending.Values)
  {
    var p := new Promise();
    OneMoreWaiting(table.View(), pids, keys, futures, pid, key, p);
    futures' := futures[key := p];
    table.AddPromise(pid, p);
  }

  function RequestsFor(pids: seq<nat>, ids: seq<nat>): seq<Request>
    requires |pids| == |ids|
  {
    seq(|ids|, k requires 0 <= k < |ids| => Request(pids[k], ids[k]))
  }

  /** Every session gets a request and a promise, whose future is kept under a key: its identifier, or the session's. */
  method SendRequests(table: PromiseTable, ids: seq<nat>, pids: seq<nat>, keys: seq<nat>)
    returns (sent: seq<Request>, futures: map<nat, Promise>)
    requires table.Valid() && |pids| == |ids| == |keys| && Distinct(pids) && Distinct(keys)
    requires forall k :: 0 <= k < |pids| ==> pids[k] !in table.pending
    modifies table
    ensures table.Valid() && AllWaiting(table.View(), pids, keys, futures)
    ensures sent == RequestsFor(pids, ids) && futures.Keys == IdSet(keys)
    ensures forall p :: p in table.pending.Values ==> fresh(p) || p in old(table.pending.Values)
  {
    sent, futures := [], map[];
    for i := 0 to |ids|
      invariant table.Valid() && forall k :: i <= k < |pids| ==> pids[k] !in table.pending
      invariant forall p :: p in table.pending.Values ==> fresh(p) || p in old(table.pending.Values)
      invariant AllWaiting(table.View(), pids[..i], keys[..i], futures)
      invariant sent == RequestsFor(pids[..i], ids[..i])
      invariant futures.Keys == IdSet(keys[..i])
    {
      OneMore(pids, i);
      OneMore(keys, i);
      OneMoreRequest(pids, ids, i);
      futures := NewFuture(table, pids[..i], keys[..i], pids[i], keys[i], futures);
      sent := sent + [Request(pids[i], ids[i])];
    }
    assert pids[..|ids|] == pids && keys[..|ids|] == keys && ids[..|ids|] == ids;
  }

  lemma OneMoreRequest(pids: seq<nat>, ids: seq<nat>, i: nat)
    requires i < |ids| == |pids|
    ensures RequestsFor(pids[..i + 1], ids[..i + 1]) == RequestsFor(pids[..i], ids[..i]) + [Request(pids[i], ids[i])]
  {
  }

  lemma OneMore(ids: seq<nat>, i: nat)
    requires Distinct(ids) && i < |ids|
    ensures ids[..i + 1] == ids[..i] + [ids[i]] && ids[i] !in ids[..i]
    ensures IdSet(ids[..i + 1]) == IdSet(ids[..i]) + {ids[i]}
  {
    assert ids[..i + 1] == ids[..i] + [ids[i]];
  }

  method RemoveSessions(uc: UeSessions, ids: seq<nat>)
    modifies uc`sessions
    ensures uc.sessions == old(uc.sessions) - (set id | id in ids)
  {
    for i := 0 to |ids|
      invariant uc.sessions == old(uc.sessions) - (set id | id in ids[..i])
    {
      assert ids[..i + 1] == ids[..i] + [ids[i]];
      uc.sessions := uc.sessions - {ids[i]};
    }
    assert ids[..|ids|] == ids;
  }

  // ---- Waiting ----

  /** All that has arrived up to and during a wait; what arrives during the k-th wait is the k-th batch. */
  function Joined(batches: seq<seq<Response>>): seq<Response> {
    if batches == [] then [] else Joined(batches[..|batches| - 1]) + batches[|batches| - 1]
  }

  /** The k-th wait, being on this identifier, finds an answer that carries the code 200 or 204. */
  predicate IsGood(batches: seq<seq<Response>>, k: nat, pid: nat)
    requires k < |batches|
  {
    var a := FirstAnswer(Joined(batches[..k + 1]), pid);
    a == Some(Some(200)) || a == Some(Some(204))
  }

  /** What is kept between two waits: the table has taken all that arrived. */
  ghost predicate IsDrained(t: Table<Promise>, t': Table<Promise>, batches: seq<seq<Response>>, i: nat)
    requires i <= |batches|
  {
    t' == Delivered(t, Joined(batches[..i]))
  }

  /** The i-th wait: the promise of an identifier, its answer taken to be in the table from the start. */
  method WaitNext(table: PromiseTable, ghost t: Table<Promise>, batches: seq<seq<Response>>, i: nat, ghost pid: nat,
                  p: Promise)
    returns (isGood: bool)
    requires table.Valid() && i < |batches| && Inv(t) && pid in t.pending && t.pending[pid] == p
    requires IsDrained(t, table.View(), batches, i)
    modifies table, table.pending.Values
    ensures table.Valid() && IsDrained(t, table.View(), batches, i + 1)
    ensures table.pending.Values <= old(table.pending.Values)
    ensures isGood <==> IsGood(batches, i, pid)
  {
    assert batches[..i + 1][..i] == batches[..i];
    FirstAnswerSettles(t, Joined(batches[..i]), pid);
    FirstAnswerSettles(t, Joined(batches[..i + 1]), pid);
    DeliveredInTwo(t, Joined(batches[..i]), batches[i]);
    var result := table.WaitForResult(p, batches[i]);
    isGood := result.Some? && Succeeded(result.value);
  }

  lemma {:induction false} Smallest(s: set<nat>) returns (m: nat)
    requires s != {}
    ensures m in s && forall x :: x in s ==> m <= x
  {
    var any :| any in s;
    if s == {any} {
      m := any;
    } else {
      var rest := s - {any};
      assert s == rest + {any};
      var m' := Smallest(rest);
      m := if m' < any then m' else any;
    }
  }

  /** The order in which the futures of an ordered map come up. */
  method InOrder(keys: set<nat>) returns (order: seq<nat>)
    ensures Ascending(order) && IdSet(order) == keys && |order| == |keys|
  {
    order := [];
    var left := keys;
    while left != {}
      invariant Ascending(order) && left <= keys && forall key :: key in order <==> key in keys && key !in left
      invariant |order| + |left| == |keys|
      invariant forall j, key :: 0 <= j < |order| && key in left ==> order[j] < key
      decreases |left|
    {
      ghost var m := Smallest(left);
      var key :| key in left && forall other :: other in left ==> key <= other;
      order := order + [key];
      left := left - {key};
    }
  }

  /** Some wait found an answer that says success. */
  ghost predicate AnyGood(batches: seq<seq<Response>>, awaited: seq<nat>)
    requires |awaited| <= |batches|
  {
    exists k :: 0 <= k < |awaited| && IsGood(batches, k, awaited[k])
  }

  lemma AnyGoodStep(batches: seq<seq<Response>>, awaited: seq<nat>, i: nat)
    requires i < |awaited| <= |batches|
    ensures AnyGood(batches, awaited[..i + 1]) <==> AnyGood(batches, awaited[..i]) || IsGood(batches, i, awaited[i])
  {
    if AnyGood(batches, awaited[..i]) {
      var k :| 0 <= k < i && IsGood(batches, k, awaited[..i][k]);
      assert awaited[..i + 1][k] == awaited[..i][k];
    }
    assert awaited[..i + 1][i] == awaited[i];
  }

  /** Waits on every promise once; the first success empties the table of sessions. */
  method AwaitRelease(uc: UeSessions, table: PromiseTable, ids: seq<nat>, order: seq<nat>, promises: map<nat, Promise>,
                      batches: seq<seq<Response>>)
    requires forall id :: id in uc.sessions ==> id in ids
    requires table.Valid() && |batches| == |order| && IdSet(order) == promises.Keys
    requires forall pid :: pid in promises ==> pid in table.pending && table.pending[pid] == promises[pid]
    modifies table, table.pending.Values, uc`sessions
    ensures table.Valid() && table.View() == Delivered(old(table.View()), Joined(batches))
    ensures uc.sessions == if AnyGood(batches, order) then map[] else old(uc.sessions)
  {
    ghost var t := table.View();
    for i := 0 to |order|
      invariant table.Valid() && table.pending.Values <= old(table.pending.Values)
      invariant IsDrained(t, table.View(), batches, i)
      invariant uc.sessions == if AnyGood(batches, order[..i]) then map[] else old(uc.sessions)
    {
      var pid := order[i];
      assert pid in IdSet(order);
      AnyGoodStep(batches, order, i);
      var isGood := WaitNext(table, t, batches, i, pid, promises[pid]);
      if isGood {
        RemoveSessions(uc, ids);
      }
    }
    assert order[..|order|] == order && batches[..|batches|] == batches;
  }

  /**
   trigger_pdu_session_release. `batches` are the answers that arrive at the table,
   for these promises and for others, wait by wait. Every session gets one request;
   all are gone afterwards if some promise was set to a success by the time it was
   waited on, and all kept otherwise.
   */
  method TriggerPduSessionRelease(uc: UeSessions, table: PromiseTable, pids: seq<nat>, batches: seq<seq<Response>>)
    returns (sent: seq<Request>, ghost awaited: seq<nat>)
    requires table.Valid() && |pids| == |uc.sessions| == |batches| && Distinct(pids)
    requires forall k :: 0 <= k < |pids| ==> pids[k] !in table.pending
    modifies table, table.pending.Values, uc`sessions
    ensures table.Valid()
    ensures multiset(SessionsOf(sent)) == multiset(old(uc.sessions).Keys)
    ensures |sent| == |pids| && forall k :: 0 <= k < |sent| ==> sent[k].promise == pids[k]
    ensures |awaited| == |batches| && Ascending(awaited) && IdSet(awaited) == IdSet(pids)
    ensures uc.sessions == if AnyGood(batches, awaited) then map[] else old(uc.sessions)
  {
    var ids := ListSessions(uc);
    var futures;
    sent, futures := SendRequests(table, ids, pids, pids);
    assert SessionsOf(sent) == ids;
    DistinctSize(pids);
    OwnKeys(table.View(), pids, futures);
    var order := InOrder(futures.Keys);
    awaited := order;
    AwaitRelease(uc, table, ids, order, futures, batches);
  }

  lemma OwnKeys(t: Table<Promise>, pids: seq<nat>, futures: map<nat, Promise>)
    requires AllWaiting(t, pids, pids, futures) && futures.Keys == IdSet(pids)
    ensures forall pid :: pid in futures ==> pid in t.pending && t.pending[pid] == futures[pid]
  {
    forall pid | pid in futures ensures pid in t.pending && t.pending[pid] == futures[pid] {
      assert pid in IdSet(pids);
      var k :| 0 <= k < |pids| && pids[k] == pid;
    }
  }

  // ---- User plane deactivation ----

  /** A session after its deactivation request: deactivated if that was answered with success. */
  function AfterDeactivation(s: Session, isGood: bool): Session {
    if isGood then s.(upCnxState := Deactivated) else s
  }

  method SetUpCnxState(uc: UeSessions, id: nat, upCnxState: UpCnxState)
    requires uc.Valid()
    modifies uc.sessions.Values
    ensures uc.Valid() && unchanged(uc)
    ensures uc.Table() == if id in uc.sessions then old(uc.Table())[id := old(uc.Table())[id].(upCnxState := upCnxState)]
                          else old(uc.Table())
  {
    if id in uc.sessions {
      var psc := uc.sessions[id];
      psc.upCnxState := upCnxState;
    }
  }

  /** Each session waited on is as its own wait left it, every other as it was. */
  ghost predicate AreDeactivated(before: map<nat, Session>, now: map<nat, Session>, batches: seq<seq<Response>>,
                                 awaited: seq<nat>, sent: seq<Request>)
    requires |awaited| <= |batches|
  {
    && now.Keys == before.Keys
    && (forall id :: id in before && id !in awaited ==> now[id] == before[id])
    && (forall k: nat, j: nat :: k < |awaited| && j < |sent| && awaited[k] == sent[j].session ==>
          && awaited[k] in before
          && now[awaited[k]] == if IsGood(batches, k, sent[j].promise) then before[awaited[k]].(upCnxState := Deactivated)
                                else before[awaited[k]])
  }

  lemma DeactivatedStep(before: map<nat, Session>, now: map<nat, Session>, batches: seq<seq<Response>>,
                        done: seq<nat>, id: nat, sent: seq<Request>, j: nat)
    requires |done| < |batches| && AreDeactivated(before, now, batches, done, sent)
    requires id in before && id !in done && j < |sent| && sent[j].session == id && Distinct(SessionsOf(sent))
    ensures var isGood := IsGood(batches, |done|, sent[j].promise);
            AreDeactivated(before, now[id := AfterDeactivation(now[id], isGood)], batches, done + [id], sent)
  {
    OneRequestEach(sent, j);
  }

  lemma OneRequestEach(sent: seq<Request>, j: nat)
    requires j < |sent| && Distinct(SessionsOf(sent))
    ensures forall other: nat :: other < |sent| && sent[other].session == sent[j].session ==> other == j
  {
    forall other: nat | other < |sent| && sent[other].session == sent[j].session ensures other == j {
      assert SessionsOf(sent)[other] == SessionsOf(sent)[j];
    }
  }

  lemma PrefixStep(order: seq<nat>, i: nat)
    requires Ascending(order) && i < |order|
    ensures order[..i + 1] == order[..i] + [order[i]] && order[i] !in order[..i]
  {
  }

  /** The future of each session is that of the promise its request waits for. */
  ghost predicate AllPromised(t: Table<Promise>, sent: seq<Request>, sessions: map<nat, Promise>) {
    forall k :: 0 <= k < |sent| ==>
      && sent[k].promise in t.pending && sent[k].session in sessions
      && t.pending[sent[k].promise] == sessions[sent[k].session]
  }

  /** One wait, and the mark on the session it was for. */
  method AwaitSession(uc: UeSessions, table: PromiseTable, ghost t: Table<Promise>, batches: seq<seq<Response>>, i: nat,
                      id: nat, ghost pid: nat, p: Promise)
    requires uc.Valid() && id in uc.sessions
    requires table.Valid() && i < |batches| && Inv(t) && pid in t.pending && t.pending[pid] == p
    requires IsDrained(t, table.View(), batches, i)
    modifies table, table.pending.Values, uc.sessions.Values
    ensures uc.Valid() && unchanged(uc) && table.Valid() && table.pending.Values <= old(table.pending.Values)
    ensures IsDrained(t, table.View(), batches, i + 1)
    ensures uc.Table() == old(uc.Table())[id := AfterDeactivation(old(uc.Table())[id], IsGood(batches, i, pid))]
  {
    var isGood := WaitNext(table, t, batches, i, pid, p);
    TableKept(uc);
    label Waited:
    Deactivate(uc, id, isGood);
    PromisesKept@Waited(table);
  }

  method Deactivate(uc: UeSessions, id: nat, isGood: bool)
    requires uc.Valid() && id in uc.sessions
    modifies uc.sessions.Values
    ensures uc.Valid() && unchanged(uc)
    ensures uc.Table() == old(uc.Table())[id := AfterDeactivation(old(uc.Table())[id], isGood)]
  {
    if isGood {
      SetUpCnxState(uc, id, Deactivated);
    }
  }

  /** The table of promises stays as it is while sessions change. */
  twostate lemma PromisesKept(table: PromiseTable)
    requires unchanged(table) && forall p :: p in table.settings ==> unchanged(p)
    ensures table.View() == old(table.View()) && table.Valid() == old(table.Valid())
  {
  }

  /** Sessions stay as they are while the table of promises changes. */
  twostate lemma TableKept(uc: UeSessions)
    requires unchanged(uc) && forall id :: id in uc.sessions ==> unchanged(uc.sessions[id])
    ensures uc.Table() == old(uc.Table())
  {
  }

  /** Waits on every promise once, and marks the sessions whose own request succeeded. */
  method AwaitDeactivation(uc: UeSessions, table: PromiseTable, sent: seq<Request>, order: seq<nat>,
                           sessions: map<nat, Promise>, batches: seq<seq<Response>>)
    requires uc.Valid() && table.Valid() && Distinct(SessionsOf(sent)) && Ascending(order) && |batches| == |order|
    requires forall k :: 0 <= k < |order| ==> order[k] in uc.sessions && order[k] in IdSet(SessionsOf(sent))
    requires AllPromised(table.View(), sent, sessions)
    modifies table, table.pending.Values, uc.sessions.Values
    ensures uc.Valid() && unchanged(uc) && table.Valid()
    ensures table.View() == Delivered(old(table.View()), Joined(batches))
    ensures AreDeactivated(old(uc.Table()), uc.Table(), batches, order, sent)
  {
    ghost var t := table.View();
    for i := 0 to |order|
      invariant uc.Valid() && unchanged(uc) && table.Valid() && table.pending.Values <= old(table.pending.Values)
      invariant IsDrained(t, table.View(), batches, i)
      invariant AreDeactivated(old(uc.Table()), uc.Table(), batches, order[..i], sent)
    {
      var id := order[i];
      ghost var j := RequestOf(sent, id);
      PrefixStep(order, i);
      DeactivatedStep(old(uc.Table()), uc.Table(), batches, order[..i], id, sent, j);
      AwaitSession(uc, table, t, batches, i, id, sent[j].promise, sessions[id]);
    }
    assert order[..|order|] == order && batches[..|batches|] == batches;
  }

  lemma RequestOf(sent: seq<Request>, id: nat) returns (j: nat)
    requires id in IdSet(SessionsOf(sent))
    ensures j < |sent| && sent[j].session == id
  {
    j :| j < |sent| && SessionsOf(sent)[j] == id;
  }

  /** The requests for all sessions, and the order their answers are waited for. */
  method RequestAll(uc: UeSessions, table: PromiseTable, pids: seq<nat>)
    returns (sent: seq<Request>, order: seq<nat>, futures: map<nat, Promise>)
    requires table.Valid() && |pids| == |uc.sessions| && Distinct(pids)
    requires forall k :: 0 <= k < |pids| ==> pids[k] !in table.pending
    modifies table
    ensures table.Valid() && AllPromised(table.View(), sent, futures)
    ensures forall p :: p in table.pending.Values ==> fresh(p) || p in old(table.pending.Values)
    ensures multiset(SessionsOf(sent)) == multiset(uc.sessions.Keys) && Distinct(SessionsOf(sent))
    ensures |sent| == |pids| && forall k :: 0 <= k < |sent| ==> sent[k].promise == pids[k]
    ensures |order| == |pids| && Ascending(order) && IdSet(order) == uc.sessions.Keys
    ensures forall k :: 0 <= k < |order| ==> order[k] in uc.sessions && order[k] in IdSet(SessionsOf(sent))
  {
    var ids := ListSessions(uc);
    sent, futures := SendRequests(table, ids, pids, ids);
    AllRequested(table.View(), pids, ids, futures);
    DistinctSize(ids);
    order := InOrder(futures.Keys);
    OrderIds(order, ids);
    assert IdSet(ids) == uc.sessions.Keys;
  }

  /** trigger_pdu_session_up_deactivation: exactly the sessions with a success of their own are deactivated. */
  method TriggerPduSessionUpDeactivation(uc: UeSessions, table: PromiseTable, pids: seq<nat>,
                                         batches: seq<seq<Response>>)
    returns (sent: seq<Request>, ghost awaited: seq<nat>)
    requires uc.Valid() && table.Valid() && |pids| == |uc.sessions| == |batches| && Distinct(pids)
    requires forall k :: 0 <= k < |pids| ==> pids[k] !in table.pending
    modifies table, table.pending.Values, uc.sessions.Values
    ensures uc.Valid() && unchanged(uc) && table.Valid()
    ensures multiset(SessionsOf(sent)) == multiset(uc.sessions.Keys)
    ensures |sent| == |pids| && forall k :: 0 <= k < |sent| ==> sent[k].promise == pids[k]
    ensures |awaited| == |batches| && Ascending(awaited) && IdSet(awaited) == uc.sessions.Keys
    ensures AreDeactivated(old(uc.Table()), uc.Table(), batches, awaited, sent)
  {
    var futures, order;
    sent, order, futures := RequestAll(uc, table, pids);
    TableKept(uc);
    awaited := order;
    AwaitDeactivation(uc, table, sent, order, futures, batches);
  }

  lemma AllRequested(t: Table<Promise>, pids: seq<nat>, ids: seq<nat>, futures: map<nat, Promise>)
    requires |pids| == |ids| && AllWaiting(t, pids, ids, futures)
    ensures AllPromised(t, RequestsFor(pids, ids), futures) && SessionsOf(RequestsFor(pids, ids)) == ids
  {
  }

  lemma OrderIds(order: seq<nat>, ids: seq<nat>)
    requires IdSet(order) == IdSet(ids)
    ensures forall k :: 0 <= k < |order| ==> order[k] in ids
  {
    forall k | 0 <= k < |order| ensures order[k] in ids {
      assert order[k] in IdSet(order);
    }
  }

  lemma KeysSize<T>(m: map<nat, T>, ids: seq<nat>)
    requires multiset(ids) == multiset(m.Keys)
    ensures |ids| == |m|
  {
    assert |multiset(ids)| == |ids| && |multiset(m.Keys)| == |m.Keys|;
  }

  lemma {:induction false} DistinctSize(ids: seq<nat>)
    requires Distinct(ids)
    ensures |IdSet(ids)| == |ids|
  {
    if ids != [] {
      var n := |ids| - 1;
      DistinctSize(ids[..n]);
      assert ids == ids[..n] + [ids[n]];
      assert IdSet(ids) == IdSet(ids[..n]) + {ids[n]};
    }
  }
}

/**
 The PDU session table of a UE and the loop that reactivates sessions on a
 Service Request or a Security Mode Complete (amf_n1.cpp), with the SMF
 exchange it starts (amf_app.cpp, trigger_pdu_session_up_activation).
 */
module PduSessions {
  import opened Wrappers
  import opened Octets
  import opened PduSessionStatus

  datatype UpCnxState = Unknown | Activated | Deactivated | Activating

  /** The value of a session context: its user plane state, and its N2 SM data when available. */
  datatype Session = Session(upCnxState: UpCnxState, n2sm: Option<OctetString>)

  /** What an update request brings: the response code in time or not, and N2 SM data or not. */
  datatype Reply = Reply(code: Option<nat>, n2sm: Option<OctetString>)

  predicate Succeeded(reply: Reply) {
    reply.code == Some(200) || reply.code == Some(204)
  }

  function AfterReply(s: Session, reply: Reply): Session {
    Session(if Succeeded(reply) then Activated else s.upCnxState,
            if reply.n2sm.Some? then reply.n2sm else s.n2sm)
  }

  /**
   A requested session before and after, and what is sent for it. The SMF is asked
   if the session is deactivated, or always: a 200 or 204 activates it, and N2 SM
   data that comes replaces what there was. Otherwise it stays as it is.
   */
  predicate IsAttempted(before: Session, after: Session, item: Option<OctetString>, always: bool, reply: Option<Reply>)
  {
    && item == after.n2sm
    && if (before.upCnxState == Deactivated || always) && reply.Some? then
         && after.upCnxState == (if reply.value.code == Some(200) || reply.value.code == Some(204) then Activated
                                 else before.upCnxState)
         && after.n2sm == (if reply.value.n2sm.Some? then reply.value.n2sm else before.n2sm)
       else after == before
  }

  /** A Service Request asks the SMF for deactivated sessions only, Security Mode Complete for all. */
  function AfterAttempt(s: Session, always: bool, reply: Reply): Session {
    if always || s.upCnxState == Deactivated then AfterReply(s, reply) else s
  }

  class PduSession {
    var upCnxState: UpCnxState
    var n2sm: Option<OctetString>

    function View(): Session
      reads this
    {
      Session(upCnxState, n2sm)
    }
  }

  class UeSessions {
    var sessions: map<nat, PduSession>

    /** No two identities share a context. */
    ghost predicate Valid()
      reads this
    {
      forall i, j :: i in sessions && j in sessions && i != j ==> sessions[i] != sessions[j]
    }

    ghost function Table(): map<nat, Session>
      reads this, sessions.Values
    {
      map id | id in sessions :: sessions[id].View()
    }

    method TriggerUpActivation(id: nat, reply: Reply) returns (ok: bool)
      requires Valid()
      modifies sessions.Values
      ensures Valid() && unchanged(this)
      ensures ok <==> id in sessions && Succeeded(reply)
      ensures Table() == if id in sessions then old(Table())[id := AfterReply(old(sessions[id].View()), reply)]
                         else old(Table())
    {
      if id !in sessions {
        return false;
      }
      var psc := sessions[id];
      if reply.n2sm.Some? {
        psc.n2sm := reply.n2sm;
      }
      if reply.code.Some? && (reply.code.value == 200 || reply.code.value == 204) {
        psc.upCnxState := Activated;
        return true;
      }
      return false;
    }

    /** One turn of the loop: the SMF exchange if it is due, then the data to send for the session. */
    method ReactivateOne(id: nat, always: bool, reply: Reply) returns (item: Option<OctetString>)
      requires Valid()
      modifies sessions.Values
      ensures Valid() && unchanged(this)
      ensures Table() == AttemptOne(old(Table()), id, always, reply)
      ensures item == ItemOf(Table(), id)
    {
      if id in sessions && (always || sessions[id].upCnxState == Deactivated) {
        var _ := TriggerUpActivation(id, reply);
      }
      item := if id in sessions && sessions[id].n2sm.Some? then sessions[id].n2sm else None;
    }

    /** The same turn, seen from the table the loop began with. */
    method ReactivateNext(ghost before: map<nat, Session>, ghost done: set<nat>, id: nat, always: bool,
                          replies: map<nat, Reply>)
      returns (item: Option<OctetString>)
      requires Valid() && id !in done
      requires Table() == TableAfter(before, done, always, replies)
      modifies sessions.Values
      ensures Valid() && unchanged(this)
      ensures Table() == TableAfter(before, done + {id}, always, replies)
      ensures ItemsOf(Table(), done + {id}) == ItemsOf(old(Table()), done)[id := item]
    {
      OneMoreSession(before, done, id, always, replies);
      item := ReactivateOne(id, always, ReplyFor(replies, id));
    }

    method Reactivate(uplinkData: Option<Bits>, status: Option<Bits>, always: bool, replies: map<nat, Reply>)
      returns (items: map<nat, Option<OctetString>>, reactivation: Option<Bits>, outStatus: Option<Bits>)
      requires Valid()
      modifies sessions.Values
      ensures Valid() && unchanged(this)
      ensures items.Keys == if uplinkData.Some? then Named(uplinkData.value)
                            else if status.Some? then Named(status.value) else {}
      ensures Table().Keys == old(Table()).Keys
      ensures forall id :: id in Table() && id !in items ==> Table()[id] == old(Table())[id]
      ensures forall id :: id in items && id !in Table() ==> items[id] == None
      ensures forall id :: id in items && id in Table() ==>
                IsAttempted(old(Table())[id], Table()[id], items[id], always,
                            if id in replies then Some(replies[id]) else None)
      ensures reactivation.Some? <==> uplinkData.Some?
      ensures reactivation.Some? ==> NamesExactly(reactivation.value, Unavailable(items))
      ensures outStatus.Some? <==> status.Some?
      ensures outStatus.Some? ==> IsWithout(outStatus.value, status.value, Unavailable(items))
    {
      var statusBits: Bits := status.GetOr(NO_BITS);
      var result: Bits := NO_BITS;
      var ids := SessionsToActivate(uplinkData, status);
      ghost var before := Table();
      items := map[];
      NothingNamed();
      assert TableAfter(before, {}, always, replies) == before;
      ghost var done := {};
      for i := 0 to |ids|
        invariant Valid() && unchanged(this)
        invariant done == IdSet(ids[..i])
        invariant Table() == TableAfter(before, done, always, replies)
        invariant items == ItemsOf(Table(), done)
        invariant uplinkData.Some? ==> NamesExactly(result, Unavailable(items))
        invariant status.Some? ==> IsWithout(statusBits, status.value, Unavailable(items))
      {
        var id := ids[i];
        assert id !in ids[..i] && id in IdSet(ids);
        assert IdSet(ids[..i + 1]) == done + {id};
        var item := ReactivateNext(before, done, id, always, replies);
        NoteItem(items, id, item, result, statusBits, status.GetOr(NO_BITS));
        if item.None? {
          if uplinkData.Some? {
            result := Mark(id, result);
          }
          if status.Some? {
            statusBits := Unmark(id, statusBits);
          }
        }
        items := items[id := item];
        done := done + {id};
      }
      assert ids[..|ids|] == ids;
      AllAttempted(before, Requested(uplinkData, status), always, replies);
      reactivation := if uplinkData.Some? then Some(result) else None;
      outStatus := if status.Some? then Some(statusBits) else None;
    }
  }

  function AttemptOne(table: map<nat, Session>, id: nat, always: bool, reply: Reply): map<nat, Session> {
    if id in table then table[id := AfterAttempt(table[id], always, reply)] else table
  }

  function ItemOf(table: map<nat, Session>, id: nat): Option<OctetString> {
    if id in table then table[id].n2sm else None
  }

  lemma OneMoreSession(before: map<nat, Session>, done: set<nat>, id: nat, always: bool, replies: map<nat, Reply>)
    requires id !in done
    ensures var table := TableAfter(before, done, always, replies);
            var table' := AttemptOne(table, id, always, ReplyFor(replies, id));
            && table' == TableAfter(before, done + {id}, always, replies)
            && ItemsOf(table', done + {id}) == ItemsOf(table, done)[id := ItemOf(table', id)]
  {
  }

  lemma AllAttempted(before: map<nat, Session>, requested: set<nat>, always: bool, replies: map<nat, Reply>)
    ensures var table := TableAfter(before, requested, always, replies);
            && table.Keys == before.Keys
            && (forall id :: id in table && id !in requested ==> table[id] == before[id])
            && (forall id :: id in requested && id !in table ==> ItemsOf(table, requested)[id] == None)
            && (forall id :: id in requested && id in table ==>
                  IsAttempted(before[id], table[id], ItemsOf(table, requested)[id], always,
                              if id in replies then Some(replies[id]) else None))
  {
  }

  lemma MarkOne(id: nat, w: Bits, ids: set<nat>)
    requires IsSession(id) && NamesExactly(w, ids)
    ensures NamesExactly(Mark(id, w), ids + {id})
  {
    MarkUnmark(id, w);
  }

  lemma UnmarkOne(id: nat, w: Bits, status: Bits, ids: set<nat>)
    requires IsWithout(w, status, ids)
    ensures IsWithout(Unmark(id, w), status, ids + {id})
  {
    MarkUnmark(id, w);
  }

  lemma NoteItem(items: map<nat, Option<OctetString>>, id: nat, item: Option<OctetString>,
                 result: Bits, statusBits: Bits, status: Bits)
    requires id !in items && IsSession(id)
    ensures NamesExactly(result, Unavailable(items)) ==>
              NamesExactly(if item.None? then Mark(id, result) else result, Unavailable(items[id := item]))
    ensures IsWithout(statusBits, status, Unavailable(items)) ==>
              IsWithout(if item.None? then Unmark(id, statusBits) else statusBits, status, Unavailable(items[id := item]))
  {
    UnavailableUpdate(items, id, item);
    if item.None? && NamesExactly(result, Unavailable(items)) {
      MarkOne(id, result, Unavailable(items));
    }
    if item.None? && IsWithout(statusBits, status, Unavailable(items)) {
      UnmarkOne(id, statusBits, status, Unavailable(items));
    }
  }

  lemma UnavailableUpdate(items: map<nat, Option<OctetString>>, id: nat, item: Option<OctetString>)
    requires id !in items
    ensures Unavailable(items[id := item]) == Unavailable(items) + (if item.None? then {id} else {})
  {
  }

  lemma NothingNamed()
    ensures Named(NO_BITS) == {} && !NO_BITS[8]
  {
  }

  /** The sessions to activate: those of Uplink Data Status, else those of PDU Session Status. */
  function Requested(uplinkData: Option<Bits>, status: Option<Bits>): set<nat> {
    if uplinkData.Some? then Named(uplinkData.value)
    else if status.Some? then Named(status.value)
    else {}
  }

  /** The sessions a Service Request asks to activate, in bit order, each once. */
  method SessionsToActivate(uplinkData: Option<Bits>, status: Option<Bits>) returns (ids: seq<nat>)
    ensures IdSet(ids) == Requested(uplinkData, status)
    ensures forall j, k :: 0 <= j < k < |ids| ==> BitOf(ids[j]) < BitOf(ids[k])
  {
    ids := [];
    if uplinkData.Some? {
      ids := GetPduSessionToBeActivated(uplinkData.value);
    } else if status.Some? {
      ids := GetPduSessionToBeActivated(status.value);
    }
  }

  function ReplyFor(replies: map<nat, Reply>, id: nat): Reply {
    if id in replies then replies[id] else Reply(None, None)
  }

  function IdSet(ids: seq<nat>): set<nat> {
    set id | id in ids
  }

  function TableAfter(table: map<nat, Session>, requested: set<nat>, always: bool, replies: map<nat, Reply>)
    : map<nat, Session>
  {
    map id | id in table :: if id in requested then AfterAttempt(table[id], always, ReplyFor(replies, id)) else table[id]
  }

  /** The N2 SM data sent for each requested session, None where there is none to send. */
  function ItemsOf(table: map<nat, Session>, requested: set<nat>): map<nat, Option<OctetString>> {
    map id | id in requested :: ItemOf(table, id)
  }

  function Unavailable(items: map<nat, Option<OctetString>>): set<nat> {
    set id | id in items && items[id].None?
  }

  /** A status that names these sessions and leaves the spare bit clear. */
  predicate NamesExactly(w: Bits, ids: set<nat>) {
    Named(w) == ids && !w[8]
  }

  /** A status with these sessions taken out and every other bit as it was. */
  predicate IsWithout(w': Bits, w: Bits, ids: set<nat>) {
    Named(w') == Named(w) - ids && w'[8] == w[8]
  }
}

/**
 Runs that reach the states a maintainer should know of: where the process ends
 on an uncaught exception, where a recorded pair of identities leads to no UE
 context, and where a GUTI changes hands; each with the exact condition under
 which it happens.
 */
module RegistrationRuns {
  import opened Wrappers
  import opened Octets
  import opened NasSecurity
  import opened NasFrame
  import opened NasUplink
  import opened NasChannel
  import opened AlgorithmPolicy
  import opened NasContexts
  import opened Registration
  import opened RegistrationSafety
  import RegistrationFlow
  import UintGenerator
  import Guti

  // ---- Runs and their parts ----

  lemma {:induction false} SplitRun<R>(e: AmfEnv, s: State<R>, evs: seq<Event<R>>, more: seq<Event<R>>)
    requires Possible(e, s, evs)
    ensures Possible(e, s, evs + more) <==> Possible(e, After(e, s, evs), more)
    ensures Possible(e, s, evs + more) ==> After(e, s, evs + more) == After(e, After(e, s, evs), more)
    decreases evs
  {
    if evs == [] {
      assert evs + more == more;
    } else {
      assert (evs + more)[1..] == evs[1..] + more;
      SplitRun(e, Next(e, s, evs[0]), evs[1..], more);
    }
  }

  /** A run is a run followed by a step. */
  lemma {:induction false} LastStep<R>(e: AmfEnv, s: State<R>, evs: seq<Event<R>>)
    requires Possible(e, s, evs) && evs != []
    ensures var n := |evs| - 1;
            && Possible(e, s, evs[..n]) && Enabled(After(e, s, evs[..n]), evs[n])
            && After(e, s, evs) == Next(e, After(e, s, evs[..n]), evs[n])
    decreases evs
  {
    var n := |evs| - 1;
    if n > 0 {
      LastStep(e, Next(e, s, evs[0]), evs[1..]);
      assert evs[..n][1..] == evs[1..][..n - 1];
    }
  }

  lemma OneEvent<R>(e: AmfEnv, s: State<R>, ev: Event<R>)
    ensures Possible(e, s, [ev]) <==> Enabled(s, ev)
    ensures Possible(e, s, [ev]) ==> After(e, s, [ev]) == Next(e, s, ev)
  {
    assert [ev][1..] == [];
  }

  lemma TwoEvents<R>(e: AmfEnv, s: State<R>, a: Event<R>, b: Event<R>)
    requires Enabled(s, a) && Enabled(Next(e, s, a), b)
    ensures Possible(e, s, [a, b]) && After(e, s, [a, b]) == Next(e, Next(e, s, a), b)
  {
    assert [a, b][1..] == [b];
    OneEvent(e, Next(e, s, a), b);
  }

  /**
   In every reachable state the N1 task can take the next message off its queue,
   whatever it is, while there are TMSIs left.
   */
  lemma QueueNeverStuck<R>(e: AmfEnv, evs: seq<Event<R>>, spare: R, a: Answers)
    requires Possible(e, Start<R>(), evs)
    ensures var s := After(e, Start<R>(), evs);
            !s.isDown && s.queue != [] && spare !in s.nas && |s.tmsis| < Guti.TMSI_MODULUS ==>
              exists t: Tmsi :: Enabled(s, Deliver(Inputs(spare, a, t)))
  {
    StartInv<R>(e);
    RunKept(e, Start<R>(), evs);
    var s := After(e, Start<R>(), evs);
    if !s.isDown && s.queue != [] && spare !in s.nas && |s.tmsis| < Guti.TMSI_MODULUS {
      var t := UintGenerator.SomeNext(s.tmsis, s.lastTmsi, Guti.TMSI_MODULUS);
      assert Enabled(s, Deliver(Inputs(spare, a, t)));
    }
  }

  // ---- The uncaught exception ----

  /**
   A Service Request that opens a connection names a GUTI whose context has no
   security context, and the context it is handled under has no GUTI of its own.
   */
  ghost predicate NamesUnsecured<R>(e: AmfEnv, s: State<R>, ind: Indication, q: ServiceRequest) {
    && ind.isEstablishment && ind.key in s.ues && q.isDecoded && q.sTmsi.Some?
    && (Lookup(s, ind).None? || (ind.guti.None? && At(s, Lookup(s, ind).value).id.guti.None?))
    && var g := ServiceGuti(e, s.ues[ind.key].plmn, q.sTmsi.value);
       g in s.byGuti && At(s, s.byGuti[g]).sec.None?
  }

  /** The message at the head of the queue gets through its protection and is such a Service Request. */
  ghost predicate Throws<R>(e: AmfEnv, s: State<R>, ev: Event<R>)
    requires Enabled(s, ev)
  {
    ev.Deliver?
    && var s0 := s.(queue := s.queue[1..]);
       var o := Opened(e, s0, s.queue[0], ev.inputs.answers.slack);
       o.Delivered? && e.decode(o.text).Service? && NamesUnsecured(e, s0, s.queue[0], e.decode(o.text).service)
  }

  /** The process ends in a step exactly when such a message is handled. */
  lemma CrashExactly<R>(e: AmfEnv, s: State<R>, ev: Event<R>)
    requires Inv(e, s) && Enabled(s, ev)
    ensures Next(e, s, ev).isDown <==> Throws(e, s, ev)
  {
    if ev.Deliver? {
      var s0 := s.(queue := s.queue[1..]);
      QueueGood(e, s, s0.queue, s.nextId);
      HandleUplinkCrash(e, s0, s.queue[0], ev.inputs);
    }
  }

  lemma HandleUplinkCrash<R>(e: AmfEnv, s: State<R>, ind: Indication, i: Inputs<R>)
    requires Inv(e, s) && i.spare !in s.nas && IsPlaced(s.ues, ind) && Readable(ind.nas) && !s.isDown
    ensures var o := Opened(e, s, ind, i.answers.slack);
            HandleUplink(e, s, ind, i).isDown <==>
              o.Delivered? && e.decode(o.text).Service? && NamesUnsecured(e, s, ind, e.decode(o.text).service)
  {
    var o := Opened(e, s, ind, i.answers.slack);
    SeenKeeps(s, ind);
    if o.Delivered? {
      if ind.isEstablishment {
        OpenedCrash(e, s, ind, e.decode(o.text), o.ulCount, i);
      } else {
        DispatchStaysUp(e, Seen(s, ind), ind.key, e.decode(o.text), i);
      }
    }
  }

  lemma OpenedCrash<R>(e: AmfEnv, s: State<R>, ind: Indication, m: Message, ulCount: Octet, i: Inputs<R>)
    requires Inv(e, s) && i.spare !in s.nas && IsPlaced(s.ues, ind) && Readable(ind.nas)
    requires !s.isDown && ind.isEstablishment
    ensures Establish(e, Seen(s, ind), Lookup(s, ind), ind.key, m, ulCount, i).isDown
            <==> m.Service? && NamesUnsecured(e, s, ind, m.service)
  {
    var s1 := Seen(s, ind);
    SeenQuiet(e, s, ind);
    SeenKeeps(s, ind);
    EstablishCrash(e, s1, Lookup(s, ind), ind.key, m, ulCount, i);
  }

  /** GUTIs, UE contexts, whether the process is up, and who has security are the same in both states. */
  ghost predicate SameNames<R>(s: State<R>, s': State<R>) {
    && s'.isDown == s.isDown && s'.byGuti == s.byGuti && s'.ues == s.ues
    && (forall r :: r in s.nas ==> At(s', r).sec.None? == At(s, r).sec.None?)
  }

  /** What finding the context keeps: all of that, and the GUTI of the context but where it is found by one. */
  lemma SeenKeeps<R>(s: State<R>, ind: Indication)
    requires WellFormed(s) && Readable(ind.nas)
    ensures var s1 := Seen(s, ind);
            && SameNames(s, s1)
            && (Lookup(s, ind).Some? ==>
                  At(s1, Lookup(s, ind).value).id.guti ==
                    if ind.guti.Some? then ind.guti else At(s, Lookup(s, ind).value).id.guti)
  {
    var s0 := Rebound(s, ind);
    ReboundKeeps(s, ind);
    if Lookup(s, ind).Some? {
      UplinkKeeps(At(s0, Lookup(s, ind).value), ind.nas);
      PutKeeps(s, s0, Lookup(s, ind).value, ContextAfterUplink(At(s0, Lookup(s, ind).value), ind.nas));
    }
  }

  lemma PutKeeps<R>(s: State<R>, s': State<R>, r: R, n: Nas)
    requires SameNames(s, s') && n.sec.None? == At(s', r).sec.None?
    ensures SameNames(s, Put(s', r, n)) && At(Put(s', r, n), r) == n
  {
  }

  lemma ReboundKeeps<R>(s: State<R>, ind: Indication)
    requires WellFormed(s)
    ensures SameNames(s, Rebound(s, ind))
    ensures Lookup(s, ind).Some? ==>
              At(Rebound(s, ind), Lookup(s, ind).value).id.guti ==
                if ind.guti.Some? then ind.guti else At(s, Lookup(s, ind).value).id.guti
  {
    if ind.guti.Some? && ind.guti.value in s.byGuti {
      var r := s.byGuti[ind.guti.value];
      var n := Moved(At(s, r), ind.guti.value, ind.key);
      ArrivalKeeps(s, r, n, ind.key, Guti.Supi(n.id.imsi));
    }
  }

  lemma ArrivalKeeps<R>(s: State<R>, r: R, n: Nas, k: Key, supi: string)
    requires At(s, r).sec.None? == n.sec.None?
    ensures var s' := BindSupi(BindIds(BindAmf(Put(s, r, n), k.amf, r), supi, k), supi, r);
            SameNames(s, s') && At(s', r) == n
  {
    var s1 := Put(s, r, n);
    assert SameNames(s, s1) && At(s1, r) == n;
    IndexesKeep(s1, r, k, supi);
  }

  lemma IndexesKeep<R>(s: State<R>, r: R, k: Key, supi: string)
    ensures var s' := BindSupi(BindIds(BindAmf(s, k.amf, r), supi, k), supi, r);
            s'.isDown == s.isDown && s'.byGuti == s.byGuti && s'.ues == s.ues && s'.nas == s.nas
  {
  }

  lemma UplinkKeeps(n: Nas, msg: OctetString)
    requires Readable(msg)
    ensures ContextAfterUplink(n, msg).id == n.id && ContextAfterUplink(n, msg).sec.None? == n.sec.None?
  {
    if n.sec.Some? {
      UplinkIsReceive(n.sec.value, msg);
    }
  }

  lemma RegisterStaysUp<R>(e: AmfEnv, s: State<R>, r: R, k: Key, q: RegistrationRequest, a: Answers)
    requires r in s.nas
    ensures Register(e, s, r, k, q, a).isDown == s.isDown && Register(e, s, r, k, q, a).nas.Keys == s.nas.Keys
  {
    var s1 := RegisterIdentity(s, r, k, q.identity);
    RegisterIdentityStaysUp(s, r, k, q.identity);
    ArriveStaysUp(s1, r, k);
    RegisterTypeStaysUp(e, Arrive(s1, r, k), r, q, a);
  }

  lemma RegisterIdentityStaysUp<R>(s: State<R>, r: R, k: Key, identity: MobileIdentity)
    requires r in s.nas
    ensures var s' := RegisterIdentity(s, r, k, identity); s'.isDown == s.isDown && s'.nas.Keys == s.nas.Keys
  {
  }

  lemma ArriveStaysUp<R>(s: State<R>, r: R, k: Key)
    requires r in s.nas
    ensures Arrive(s, r, k).isDown == s.isDown && Arrive(s, r, k).nas.Keys == s.nas.Keys
  {
  }

  lemma RegisterTypeStaysUp<R>(e: AmfEnv, s: State<R>, r: R, q: RegistrationRequest, a: Answers)
    requires r in s.nas
    ensures RegisterType(e, s, r, q, a).isDown == s.isDown && RegisterType(e, s, r, q, a).nas.Keys == s.nas.Keys
  {
  }

  lemma IdentifyStaysUp<R>(s: State<R>, k: Key, imsi: string, i: Inputs<R>)
    ensures Identify(s, k, imsi, i).isDown == s.isDown
  {
    var s1 := BindUe(s, k, Guti.Supi(imsi));
    assert s1.isDown == s.isDown;
    var r := if k.amf in s1.byAmf then s1.byAmf[k.amf] else i.spare;
    var s2 := if k.amf in s1.byAmf then s1 else BindAmf(Put(s1, r, NEW_NAS), k.amf, r);
    AdmitStaysUp(s1, r, k.amf);
    RecordStaysUp(s2, r, AfterIdentity(Identified(At(s2, r), k, imsi), i.answers), Guti.Supi(imsi), k);
  }

  lemma AdmitStaysUp<R>(s: State<R>, r: R, amf: nat)
    ensures BindAmf(Put(s, r, NEW_NAS), amf, r).isDown == s.isDown
  {
  }

  lemma RecordStaysUp<R>(s: State<R>, r: R, n: Nas, supi: string, k: Key)
    ensures BindIds(Put(s, r, n), supi, k).isDown == s.isDown
  {
  }

  lemma ServeConnectedStaysUp<R>(e: AmfEnv, s: State<R>, r: R, k: Key, q: ServiceRequest, a: Answers)
    ensures ServeConnected(e, s, r, k, q, a).isDown == s.isDown
  {
  }

  lemma CompleteStaysUp<R>(e: AmfEnv, s: State<R>, k: Key, i: Inputs<R>)
    ensures Complete(e, s, k, i).isDown == s.isDown
  {
  }

  lemma DeregisterStaysUp<R>(s: State<R>, k: Key, g: string, isSwitchOff: bool, a: Answers)
    ensures Deregister(s, k, g, isSwitchOff, a).isDown == s.isDown
  {
  }

  lemma AuthenticateStaysUp<R>(e: AmfEnv, s: State<R>, k: Key, cause: nat, a: Answers)
    ensures Authenticate(e, s, k, a).isDown == s.isDown && FailAuthentication(s, k, cause, a).isDown == s.isDown
  {
  }

  lemma DispatchStaysUp<R>(e: AmfEnv, s: State<R>, k: Key, m: Message, i: Inputs<R>)
    requires WellFormed(s)
    ensures Dispatch(e, s, k, m, i).isDown == s.isDown
  {
    match m
    case SecurityModeComplete => CompleteStaysUp(e, s, k, i);
    case IdentityResponse(imsi) => if imsi.Some? { IdentifyStaysUp(s, k, imsi.value, i); }
    case Deregistration(g, isSwitchOff) => DeregisterStaysUp(s, k, g, isSwitchOff, i.answers);
    case Registration(q) => if k.amf in s.byAmf { RegisterStaysUp(e, s, s.byAmf[k.amf], k, q, i.answers); }
    case Service(q) => if k.amf in s.byAmf { ServeConnectedStaysUp(e, s, s.byAmf[k.amf], k, q, i.answers); }
    case AuthenticationResponse => AuthenticateStaysUp(e, s, k, 0, i.answers);
    case AuthenticationFailure(cause) => AuthenticateStaysUp(e, s, k, cause, i.answers);
    case OtherMessage =>
  }

  lemma ServeWithStaysUp<R>(e: AmfEnv, s: State<R>, r: R, n: Nas, k: Key, q: ServiceRequest, a: Answers)
    ensures ServeWith(e, s, r, n, k, q, a).isDown == s.isDown
  {
  }

  lemma ServeInitialCrash<R>(e: AmfEnv, s: State<R>, r: R, k: Key, q: ServiceRequest, ulCount: Octet, a: Answers)
    requires !s.isDown
    ensures ServeInitial(e, s, r, k, q, ulCount, a).isDown <==>
              k in s.ues && OldContext(e, s, r, k, q).Some? && At(s, OldContext(e, s, r, k, q).value).sec.None?
  {
    if k in s.ues {
      var former := OldContext(e, s, r, k, q);
      if former.None? {
        ServeWithStaysUp(e, s, r, At(s, r), k, q, a);
      } else if At(s, former.value).sec.Some? {
        ServeWithStaysUp(e, s, r, Recalled(At(s, r), At(s, former.value), ulCount), k, q, a);
      }
    }
  }

  lemma AdmittedKeeps<R>(s: State<R>, found: Option<R>, k: Key, ulCount: Octet, i: Inputs<R>)
    requires i.spare !in s.nas && (found.Some? ==> found.value in s.nas)
    ensures var s1, r := Admitted(s, found, k, i.spare), found.GetOr(i.spare);
            var s2 := Put(s1, r, WithUplinkCount(At(s1, r), ulCount));
            && SameNames(s, s1) && SameNames(s, s2)
            && At(s2, r).id.guti == if found.None? then None else At(s, found.value).id.guti
  {
  }

  lemma EstablishCrash<R>(e: AmfEnv, s: State<R>, found: Option<R>, k: Key, m: Message, ulCount: Octet, i: Inputs<R>)
    requires WellFormed(s) && !s.isDown && i.spare !in s.nas && (found.Some? ==> found.value in s.nas)
    ensures Establish(e, s, found, k, m, ulCount, i).isDown <==>
              && m.Service? && k in s.ues && m.service.isDecoded && m.service.sTmsi.Some?
              && (found.None? || At(s, found.value).id.guti.None?)
              && var g := ServiceGuti(e, s.ues[k].plmn, m.service.sTmsi.value);
                 g in s.byGuti && At(s, s.byGuti[g]).sec.None?
  {
    var s1, r := Admitted(s, found, k, i.spare), found.GetOr(i.spare);
    AdmittedKeeps(s, found, k, ulCount, i);
    if m.Service? {
      ServeInitialCrash(e, Put(s1, r, WithUplinkCount(At(s1, r), ulCount)), r, k, m.service, ulCount, i.answers);
    } else if m.Registration? {
      RegisterStaysUp(e, s1, r, k, m.registration, i.answers);
    }
  }

  /** A run ends with the process down exactly when its last message threw; none goes on from there. */
  lemma DownExactly<R>(e: AmfEnv, evs: seq<Event<R>>)
    requires Possible(e, Start<R>(), evs)
    ensures evs == [] ==> !After(e, Start<R>(), evs).isDown
    ensures evs != [] ==>
              var n := |evs| - 1;
              && Possible(e, Start<R>(), evs[..n])
              && Enabled(After(e, Start<R>(), evs[..n]), evs[n])
              && (After(e, Start<R>(), evs).isDown <==> Throws(e, After(e, Start<R>(), evs[..n]), evs[n]))
  {
    if evs != [] {
      var n := |evs| - 1;
      LastStep(e, Start<R>(), evs);
      StartInv<R>(e);
      RunKept(e, Start<R>(), evs[..n]);
      CrashExactly(e, After(e, Start<R>(), evs[..n]), evs[n]);
    }
  }

  // ---- Pieces of the runs below ----

  predicate IsPlain(m: OctetString) {
    SecurityHeader(m) == Some(PLAIN)
  }

  /** The first TMSI of all; the generator counts before it hands out. */
  const FIRST_TMSI: Tmsi := 1

  /** No TMSI above the last one has been handed out. */
  ghost predicate IsCounted<R>(s: State<R>) {
    forall t :: t in s.tmsis ==> t <= s.lastTmsi
  }

  /** While the counter has not wrapped around, the next TMSI is the next number. */
  lemma NextNumber<R>(s: State<R>)
    requires IsCounted(s) && s.lastTmsi + 1 < Guti.TMSI_MODULUS
    ensures IsNextTmsi(s, s.lastTmsi + 1)
  {
    var uid := (s.lastTmsi + 1) % Guti.TMSI_MODULUS;
    assert uid == s.lastTmsi + 1;
    UintGenerator.RightAfterIsNext(s.tmsis, s.lastTmsi, Guti.TMSI_MODULUS);
  }

  /** A connection whose first message means nothing to the establishment handler leaves an unsecured context. */
  lemma OpeningRun<R>(e: AmfEnv, s: State<R>, ran: nat, plmn: string, m: OctetString, i: Inputs<R>)
    returns (evs: seq<Event<R>>)
    requires !s.isDown && s.queue == [] && Guti.IsPlmn(plmn) && IsPlain(m) && e.decode(m).SecurityModeComplete?
    requires s.nextId !in s.byAmf && i.spare !in s.nas && IsNextTmsi(s, i.tmsi)
    ensures Possible(e, s, evs)
    ensures var k := Key(ran, s.nextId);
            After(e, s, evs) == s.(nas := s.nas[i.spare := NewContext(k)], byAmf := s.byAmf[k.amf := i.spare],
                                   ues := PutUe(s, k, plmn, Some(true)).ues, nextId := (s.nextId + 1) % ID_MODULUS)
  {
    var connection: Event<R> := Connection(ran, plmn, true, None, m);
    var s1 := Next(e, s, connection);
    assert s1.queue == [Indication(Key(ran, s.nextId), true, None, m)];
    assert Enabled(s1, Deliver(i));
    TwoEvents(e, s, connection, Deliver(i));
    evs := [connection, Deliver(i)];
    assert s1.queue[1..] == s.queue;
  }

  /** A plain message on a connection is handled, and nothing else changes. */
  lemma PlainRun<R>(e: AmfEnv, s: State<R>, k: Key, r: R, m: OctetString, i: Inputs<R>) returns (evs: seq<Event<R>>)
    requires !s.isDown && s.queue == [] && k.amf in s.byAmf && s.byAmf[k.amf] == r && r in s.nas
    requires IsPlain(m) && i.spare !in s.nas && IsNextTmsi(s, i.tmsi)
    ensures Possible(e, s, evs) && After(e, s, evs) == Dispatch(e, s, k, e.decode(m), i)
  {
    var s1 := Next(e, s, Uplink(k, m));
    var ind := Indication(k, false, None, m);
    assert s1.queue == [ind] && s1.(queue := s1.queue[1..]) == s;
    assert Enabled(s1, Deliver(i));
    TwoEvents(e, s, Uplink(k, m), Deliver(i));
    evs := [Uplink(k, m), Deliver(i)];
    assert ContextAfterUplink(At(s, r), m) == At(s, r);
    assert s.nas[r := s.nas[r]] == s.nas;
    assert Seen(s, ind) == s;
  }

  /** The connection has its UE context on this PLMN, and leads to this NAS context. */
  ghost predicate IsConnected<R>(s: State<R>, k: Key, r: R, plmn: string) {
    k in s.ues && s.ues[k].plmn == plmn && k.amf in s.byAmf && s.byAmf[k.amf] == r && r in s.nas
  }

  /** The process is up and waits, its TMSI counter at this value and never wrapped around. */
  ghost predicate IsIdle<R>(s: State<R>, lastTmsi: nat) {
    !s.isDown && s.queue == [] && IsCounted(s) && s.lastTmsi == lastTmsi
  }

  ghost predicate SameConnections<R>(s: State<R>, s': State<R>) {
    && s'.nas.Keys == s.nas.Keys && s'.byAmf == s.byAmf && s'.ues.Keys == s.ues.Keys && s'.nextId == s.nextId
    && (forall k :: k in s.ues ==> s'.ues[k].plmn == s.ues[k].plmn)
    && (forall r :: r in s.nas ==> s'.nas[r].sec.None? == s.nas[r].sec.None?)
  }

  /** One more completion: the next TMSI, and the GUTI made from it. */
  lemma CountOne<R>(e: AmfEnv, s: State<R>, k: Key, r: R, plmn: string, m: OctetString, spare: R, a: Answers)
    returns (evs: seq<Event<R>>)
    requires IsIdle(s, s.lastTmsi) && IsConnected(s, k, r, plmn) && s.lastTmsi + 1 < Guti.TMSI_MODULUS
    requires IsPlain(m) && e.decode(m).SecurityModeComplete? && spare !in s.nas && !a.isRerouted
    ensures Possible(e, s, evs)
    ensures var s' := After(e, s, evs);
            && IsIdle(s', s.lastTmsi + 1) && SameConnections(s, s') && IsConnected(s', k, r, plmn)
            && s'.byGuti == s.byGuti[Guti.Allocated(plmn, e.amf, s.lastTmsi + 1) := r]
  {
    NextNumber(s);
    var i := Inputs(spare, a, s.lastTmsi + 1);
    evs := PlainRun(e, s, k, r, m, i);
    CompletedIdle(e, s, k, r, plmn, i);
  }

  /** A Security Mode Complete binds a GUTI to its context, with security or without. */
  lemma CompletedIdle<R>(e: AmfEnv, s: State<R>, k: Key, r: R, plmn: string, i: Inputs<R>)
    requires IsIdle(s, s.lastTmsi) && IsConnected(s, k, r, plmn) && i.tmsi == s.lastTmsi + 1 && !i.answers.isRerouted
    ensures var s' := Complete(e, s, k, i);
            && IsIdle(s', s.lastTmsi + 1) && SameConnections(s, s')
            && s'.byGuti == s.byGuti[Guti.Allocated(plmn, e.amf, s.lastTmsi + 1) := r]
  {
  }

  /** A Service Request on a new connection that names the GUTI of an unsecured context ends the process. */
  lemma ThrowingRun<R>(e: AmfEnv, s: State<R>, ran: nat, plmn: string, t: Tmsi, m: OctetString, i: Inputs<R>)
    returns (evs: seq<Event<R>>)
    requires !s.isDown && s.queue == [] && Guti.IsPlmn(plmn) && IsPlain(m) && e.decode(m).Service?
    requires e.decode(m).service.isDecoded
             && e.decode(m).service.sTmsi == Some(Registration.STmsi(e.amf.setId, e.amf.pointer, Guti.TmsiToString(t)))
    requires Guti.Allocated(plmn, e.amf, t) in s.byGuti && At(s, s.byGuti[Guti.Allocated(plmn, e.amf, t)]).sec.None?
    requires s.nextId !in s.byAmf && i.spare !in s.nas && IsNextTmsi(s, i.tmsi) && WellFormed(s)
    ensures Possible(e, s, evs) && After(e, s, evs).isDown
  {
    var connection: Event<R> := Connection(ran, plmn, true, None, m);
    var s1 := Next(e, s, connection);
    var ind := Indication(Key(ran, s.nextId), true, None, m);
    assert s1.queue == [ind];
    assert Enabled(s1, Deliver(i));
    TwoEvents(e, s, connection, Deliver(i));
    evs := [connection, Deliver(i)];
    assert Guti.AmfIdentity(e.amf.region, e.amf.setId, e.amf.pointer) == e.amf;
    EstablishCrash(e, Seen(s1.(queue := s1.queue[1..]), ind), None, ind.key, e.decode(m), 0, i);
  }

  /**
   The state is reachable: a connection that is never secured, a plain Security
   Mode Complete on it, and a Service Request on a second connection that names
   the GUTI the first was given. `r` and `r'` are storage for the two contexts.
   */
  lemma CrashIsReachable<R>(e: AmfEnv, r: R, r': R, m: OctetString, m': OctetString, plmn: string, a: Answers)
    returns (evs: seq<Event<R>>)
    requires r != r' && Guti.IsPlmn(plmn) && !a.isRerouted
    requires IsPlain(m) && e.decode(m).SecurityModeComplete? && IsPlain(m') && e.decode(m').Service?
    requires var tmsi := Guti.TmsiToString(FIRST_TMSI);
             && e.decode(m').service.isDecoded
             && e.decode(m').service.sTmsi == Some(Registration.STmsi(e.amf.setId, e.amf.pointer, tmsi))
    ensures Possible(e, Start<R>(), evs) && After(e, Start<R>(), evs).isDown
  {
    var one := UnsecuredRun(e, r, r', m, plmn, a);
    var s1 := After(e, Start<R>(), one);
    StartInv<R>(e);
    RunKept(e, Start<R>(), one);
    NextNumber(s1);
    var two := ThrowingRun(e, s1, 2, plmn, FIRST_TMSI, m', Inputs(r', a, FIRST_TMSI + 1));
    SplitRun(e, Start<R>(), one, two);
    evs := one + two;
  }

  /** A connection and a plain Security Mode Complete on it: a GUTI leads to a context without security. */
  lemma UnsecuredRun<R>(e: AmfEnv, r: R, r': R, m: OctetString, plmn: string, a: Answers) returns (evs: seq<Event<R>>)
    requires r != r' && Guti.IsPlmn(plmn) && !a.isRerouted && IsPlain(m) && e.decode(m).SecurityModeComplete?
    ensures Possible(e, Start<R>(), evs)
    ensures var s, g := After(e, Start<R>(), evs), Guti.Allocated(plmn, e.amf, FIRST_TMSI);
            && IsIdle(s, FIRST_TMSI) && s.nextId == 2
            && s.nas.Keys == {r} && s.byAmf.Keys == {1} && g in s.byGuti && s.byGuti[g] == r && At(s, r).sec.None?
  {
    var one := OneConnection(e, r, plmn, m, a);
    var s1 := After(e, Start<R>(), one);
    var two := CountOne(e, s1, Key(1, START_ID), r, plmn, m, r', a);
    SplitRun(e, Start<R>(), one, two);
    evs := one + two;
  }

  lemma OneConnection<R>(e: AmfEnv, r: R, plmn: string, m: OctetString, a: Answers) returns (evs: seq<Event<R>>)
    requires Guti.IsPlmn(plmn) && IsPlain(m) && e.decode(m).SecurityModeComplete?
    ensures Possible(e, Start<R>(), evs)
    ensures var s := After(e, Start<R>(), evs);
            && IsIdle(s, 0) && IsConnected(s, Key(1, START_ID), r, plmn) && s.nextId == 2
            && s.nas.Keys == {r} && s.byAmf.Keys == {1} && s.nas[r].sec.None?
  {
    NextNumber(Start<R>());
    evs := OpeningRun(e, Start<R>(), 1, plmn, m, Inputs(r, a, FIRST_TMSI));
  }

  // ---- A UE past its first 256 uplink messages ----

  /** The state in which the first message of the first connection is handled. */
  ghost function Connected<R>(e: AmfEnv, plmn: string, m: OctetString): State<R> {
    Connect(e, Start<R>(), 1, plmn, true, None, m).(queue := [])
  }

  lemma FirstMessageRun<R>(e: AmfEnv, plmn: string, m: OctetString, i: Inputs<R>) returns (evs: seq<Event<R>>)
    requires Guti.IsPlmn(plmn) && IsPlain(m) && i.tmsi == FIRST_TMSI
    ensures Possible(e, Start<R>(), evs)
    ensures After(e, Start<R>(), evs) == Establish(e, Connected(e, plmn, m), None, Key(1, START_ID), e.decode(m), 0, i)
  {
    var connection: Event<R> := Connection(1, plmn, true, None, m);
    var s1 := Next(e, Start<R>(), connection);
    var ind := Indication(Key(1, START_ID), true, None, m);
    assert s1.queue == [ind] && s1.(queue := s1.queue[1..]) == Connected(e, plmn, m);
    NextNumber(s1);
    TwoEvents(e, Start<R>(), connection, Deliver(i));
    evs := [connection, Deliver(i)];
    assert Seen(Connected<R>(e, plmn, m), ind) == Connected(e, plmn, m);
  }

  lemma ConnectedGood<R>(e: AmfEnv, plmn: string, m: OctetString)
    requires Guti.IsPlmn(plmn) && IsPlain(m)
    ensures var s := Connected<R>(e, plmn, m);
            Inv(e, s) && IsIdle(s, 0) && Key(1, START_ID) in s.ues && s.nas == map[]
  {
    StartInv<R>(e);
    ConnectGood(e, Start<R>(), 1, plmn, true, None, m);
    QueueGood(e, Connect(e, Start<R>(), 1, plmn, true, None, m), [], START_ID + 1);
  }

  /** An initial registration up to the authentication request. */
  lemma ChallengedRun<R>(e: AmfEnv, r: R, plmn: string, m: OctetString, imsi: string, a: Answers)
    returns (evs: seq<Event<R>>)
    requires Guti.IsPlmn(plmn) && IsPlain(m) && IsInitial(e, m, imsi) && a.vectors.Some?
    ensures Possible(e, Start<R>(), evs)
    ensures AtChallenge(e, After(e, Start<R>(), evs), r, Key(1, START_ID), e.decode(m).registration, imsi)
  {
    var i := Inputs(r, a, FIRST_TMSI);
    evs := FirstMessageRun(e, plmn, m, i);
    ConnectedGood<R>(e, plmn, m);
    Challenged(e, Connected(e, plmn, m), Key(1, START_ID), e.decode(m).registration, imsi, i);
  }

  /** An initial registration by SUCI. */
  predicate IsInitial(e: AmfEnv, m: OctetString, imsi: string) {
    && e.decode(m).Registration? && e.decode(m).registration.identity == Suci(Some(imsi))
    && e.decode(m).registration.regType == Some(INITIAL) && e.decode(m).registration.ngksi.Some?
  }

  /** Idle but for a first connection, which waits for its authentication response. */
  ghost predicate AtChallenge<R>(e: AmfEnv, s: State<R>, r: R, k: Key, q: RegistrationRequest, imsi: string) {
    && IsIdle(s, 0) && Inv(e, s) && s.nas.Keys == {r}
    && RegistrationFlow.IsChallenged(s, r, k, imsi, RegistrationFlow.KnownCapability(NewContext(k), q))
  }

  lemma Challenged<R>(e: AmfEnv, s: State<R>, k: Key, q: RegistrationRequest, imsi: string, i: Inputs<R>)
    requires Inv(e, s) && IsIdle(s, 0) && k in s.ues && s.nas == map[] && i.answers.vectors.Some?
    requires q.identity == Suci(Some(imsi)) && q.regType == Some(INITIAL) && q.ngksi.Some?
    ensures AtChallenge(e, Establish(e, s, None, k, Message.Registration(q), 0, i), i.spare, k, q, imsi)
  {
    EstablishIdle(e, s, k, q, i);
    RegistrationFlow.RequestChallenges(e, s, None, k, q, imsi, 0, i);
  }

  lemma EstablishIdle<R>(e: AmfEnv, s: State<R>, k: Key, q: RegistrationRequest, i: Inputs<R>)
    requires Inv(e, s) && IsIdle(s, 0) && i.spare !in s.nas
    ensures var s' := Establish(e, s, None, k, Message.Registration(q), 0, i);
            IsIdle(s', 0) && Inv(e, s') && s'.nas.Keys == s.nas.Keys + {i.spare}
  {
    EstablishQuiet(e, s, None, k, Message.Registration(q), 0, i);
    EstablishKeys(e, s, k, q, i);
  }

  lemma EstablishKeys<R>(e: AmfEnv, s: State<R>, k: Key, q: RegistrationRequest, i: Inputs<R>)
    ensures var s' := Establish(e, s, None, k, Message.Registration(q), 0, i);
            s'.isDown == s.isDown && s'.nas.Keys == s.nas.Keys + {i.spare}
  {
    RegisterStaysUp(e, Admitted(s, None, k, i.spare), i.spare, k, q, i.answers);
  }

  /** And on to the security mode command. */
  lemma CommandedRun<R>(e: AmfEnv, s: State<R>, r: R, k: Key, imsi: string, capability: (Octet, Octet), m: OctetString,
                        spare: R, a: Answers)
    returns (evs: seq<Event<R>>)
    requires Inv(e, s) && IsIdle(s, 0) && RegistrationFlow.IsChallenged(s, r, k, imsi, capability)
    requires IsPlain(m) && e.decode(m).AuthenticationResponse? && spare !in s.nas && a.isConfirmed
    ensures Possible(e, s, evs) && AtCommand(e, s, After(e, s, evs), r, k, imsi, capability)
  {
    NextNumber(s);
    var i := Inputs(spare, a, FIRST_TMSI);
    evs := PlainRun(e, s, k, r, m, i);
    Commanded(e, s, r, k, imsi, capability, i);
  }

  /** Idle but for a connection that waits for its security mode completion. */
  ghost predicate AtCommand<R>(e: AmfEnv, s: State<R>, s': State<R>, r: R, k: Key, imsi: string,
                               capability: (Octet, Octet))
  {
    IsIdle(s', 0) && RegistrationFlow.IsCommanded(e, s', r, k, imsi, capability) && s'.nas.Keys == s.nas.Keys
  }

  lemma Commanded<R>(e: AmfEnv, s: State<R>, r: R, k: Key, imsi: string, capability: (Octet, Octet), i: Inputs<R>)
    requires Inv(e, s) && IsIdle(s, 0) && RegistrationFlow.IsChallenged(s, r, k, imsi, capability)
    requires i.answers.isConfirmed
    ensures AtCommand(e, s, Dispatch(e, s, k, AuthenticationResponse, i), r, k, imsi, capability)
  {
    AuthenticateIdle(e, s, k, i.answers);
    RegistrationFlow.ResponseCommands(e, s, r, k, imsi, capability, i);
  }

  lemma AuthenticateIdle<R>(e: AmfEnv, s: State<R>, k: Key, a: Answers)
    requires IsIdle(s, s.lastTmsi) && k.amf in s.byAmf && s.byAmf[k.amf] in s.nas
    ensures IsIdle(Authenticate(e, s, k, a), s.lastTmsi) && Authenticate(e, s, k, a).nas.Keys == s.nas.Keys
  {
  }

  /** A message the UE protects under this count on this connection is dropped, and only its sequence number stays. */
  ghost predicate IsLost<R>(e: AmfEnv, s: State<R>, r: R, k: Key, t: Octet, count: Count, text: OctetString,
                            i: Inputs<R>)
    requires r in s.nas && s.nas[r].sec.Some? && IsChecked(t)
  {
    var n := s.nas[r];
    var evs := [Uplink(k, StandardMessage(e.channel.primitives, n.sec.value, t, count, text)), Deliver(i)];
    && Possible(e, s, evs)
    && After(e, s, evs) == Put(s, r, n.(sec := Some(Received(n.sec.value, count.seqNum))))
  }

  lemma LostRun<R>(e: AmfEnv, s: State<R>, r: R, k: Key, t: Octet, count: Count, text: OctetString, i: Inputs<R>)
    requires IsIdle(s, 0) && k.amf in s.byAmf && s.byAmf[k.amf] == r && r in s.nas && s.nas[r].sec.Some?
    requires i.spare !in s.nas && i.tmsi == FIRST_TMSI && IsChecked(t)
    requires IsIntegrityProtected(s.nas[r].sec.value) && count.overflow != 0
    requires e.channel.primitives == TellingCodes(CountWord(count))
    ensures IsLost(e, s, r, k, t, count, text, i)
  {
    var sec := s.nas[r].sec.value;
    var msg := StandardMessage(e.channel.primitives, sec, t, count, text);
    PeerIsRefused(sec, t, count, text, i.answers.slack);
    PeerMessageOutcome(e.channel.primitives, sec, t, count, CountWord(count), text, i.answers.slack);
    var s1 := Next(e, s, Uplink(k, msg));
    var ind := Indication(k, false, None, msg);
    assert s1.queue == [ind] && s1.(queue := s1.queue[1..]) == s;
    NextNumber(s1);
    TwoEvents(e, s, Uplink(k, msg), Deliver(i));
    assert Opened(e, s, ind, i.answers.slack) == Dropped;
  }

  /**
   The states are reachable: after an initial registration up to a security mode
   command that selects a MAC, a UE whose uplink overflow counter is no longer
   zero is not heard any more, if the MAC tells its COUNT from others.
   */
  lemma LatePeerIsLost<R>(e: AmfEnv, r: R, spare: R, plmn: string, m: OctetString, m': OctetString, imsi: string,
                          a: Answers, t: Octet, count: Count, text: OctetString)
    returns (evs: seq<Event<R>>)
    requires r != spare && Guti.IsPlmn(plmn) && a.vectors.Some? && a.isConfirmed && IsChecked(t)
    requires IsPlain(m) && IsInitial(e, m, imsi) && IsPlain(m') && e.decode(m').AuthenticationResponse?
    requires var capability := RegistrationFlow.KnownCapability(NewContext(Key(1, START_ID)), e.decode(m).registration);
             1 <= FirstSupported(e.channel.integrity, capability.1).GetOr(0) <= 2
    requires count.overflow != 0 && e.channel.primitives == TellingCodes(CountWord(count))
    ensures Possible(e, Start<R>(), evs)
    ensures var s := After(e, Start<R>(), evs);
            && r in s.nas && s.nas[r].sec.Some?
            && IsLost(e, s, r, Key(1, START_ID), t, count, text, Inputs(spare, a, FIRST_TMSI))
  {
    var k := Key(1, START_ID);
    var capability := RegistrationFlow.KnownCapability(NewContext(k), e.decode(m).registration);
    var one := ChallengedRun(e, r, plmn, m, imsi, a);
    var s := After(e, Start<R>(), one);
    var two := CommandedRun(e, s, r, k, imsi, capability, m', spare, a);
    SplitRun(e, Start<R>(), one, two);
    evs := one + two;
    LostRun(e, After(e, s, two), r, k, t, count, text, Inputs(spare, a, FIRST_TMSI));
  }

  // ---- Pairs that lead nowhere ----

  /**
   A recorded pair that leads to no UE context is reachable: a connection, and an
   Identity Response under its RAN identity and another AMF identity.
   */
  lemma MisrecordIsReachable<R>(e: AmfEnv, r: R, r': R, m: OctetString, m': OctetString, plmn: string, a: Answers)
    returns (evs: seq<Event<R>>)
    requires r != r' && Guti.IsPlmn(plmn) && IsPlain(m) && e.decode(m).SecurityModeComplete?
    requires IsPlain(m') && e.decode(m').IdentityResponse? && e.decode(m').imsi.Some?
    ensures Possible(e, Start<R>(), evs) && !Resolves(After(e, Start<R>(), evs))
  {
    NextNumber(Start<R>());
    var one := OpeningRun(e, Start<R>(), 1, plmn, m, Inputs(r, a, FIRST_TMSI));
    var s1 := After(e, Start<R>(), one);
    StartInv<R>(e);
    RunKept(e, Start<R>(), one);
    var two := MisplacedRun(e, s1, Key(1, 2), m', Inputs(r', a, FIRST_TMSI));
    SplitRun(e, Start<R>(), one, two);
    evs := one + two;
  }

  lemma MisplacedRun<R>(e: AmfEnv, s: State<R>, k: Key, m: OctetString, i: Inputs<R>) returns (evs: seq<Event<R>>)
    requires Inv(e, s) && !s.isDown && s.queue == [] && k !in s.ues && i.spare !in s.nas && IsNextTmsi(s, i.tmsi)
    requires IsPlain(m) && e.decode(m).IdentityResponse? && e.decode(m).imsi.Some?
    ensures Possible(e, s, evs) && !Resolves(After(e, s, evs))
  {
    var s1 := Next(e, s, Uplink(k, m));
    assert s1.queue == [Indication(k, false, None, m)];
    assert Enabled(s1, Deliver(i));
    TwoEvents(e, s, Uplink(k, m), Deliver(i));
    NextKept(e, s, Uplink(k, m));
    NextKept(e, s1, Deliver(i));
    evs := [Uplink(k, m), Deliver(i)];
  }

  // ---- GUTIs that change hands ----

  /** Over all runs from the start, a bound GUTI leads to its context, or to none once a deregistration named it. */
  ghost predicate GutisStable<R(!new)>(e: AmfEnv) {
    forall evs: seq<Event<R>>, more: seq<Event<R>>, g: string ::
      Possible(e, Start<R>(), evs) && Possible(e, After(e, Start<R>(), evs), more) ==>
        IsStable(e, After(e, Start<R>(), evs), more, g)
  }

  ghost predicate IsStable<R>(e: AmfEnv, s: State<R>, more: seq<Event<R>>, g: string)
    requires Possible(e, s, more)
  {
    g in s.byGuti ==>
      var s' := After(e, s, more);
      if g in s'.byGuti then s'.byGuti[g] == s.byGuti[g] else IsNamed(e, s, more, g)
  }

  /**
   GUTIs are stable over all runs exactly if the AMF's identity is not one nonzero
   decimal digit six times over, whenever the codec reads some plain message as a Security
   Mode Complete and there is storage for three contexts.
   */
  lemma GutiStabilityExactly<R(!new)>(e: AmfEnv, r: R, r': R, r'': R, m: OctetString, a: Answers)
    requires r != r' && r != r'' && r' != r'' && IsPlain(m) && e.decode(m).SecurityModeComplete? && !a.isRerouted
    ensures GutisStable<R>(e) <==> !Guti.Repeats(e.amf.Text())
  {
    if Guti.Repeats(e.amf.Text()) {
      var evs, more, g := GutiMoves(e, r, r', r'', m, a);
      assert !IsStable(e, After(e, Start<R>(), evs), more, g);
    } else {
      forall evs: seq<Event<R>>, more: seq<Event<R>>, g: string
        | Possible(e, Start<R>(), evs) && Possible(e, After(e, Start<R>(), evs), more)
        ensures IsStable(e, After(e, Start<R>(), evs), more, g)
      {
        if g in After(e, Start<R>(), evs).byGuti {
          GutiStableFromStart(e, evs, more, g);
        }
      }
    }
  }

  /** Completion after completion on one connection, up to any value of the counter. */
  lemma {:induction false} CountUp<R>(e: AmfEnv, s: State<R>, k: Key, r: R, plmn: string, m: OctetString, spare: R,
                                      a: Answers, goal: Tmsi)
    returns (evs: seq<Event<R>>)
    requires IsIdle(s, s.lastTmsi) && IsConnected(s, k, r, plmn) && s.lastTmsi <= goal
    requires IsPlain(m) && e.decode(m).SecurityModeComplete? && spare !in s.nas && !a.isRerouted
    ensures Possible(e, s, evs)
    ensures var s', g := After(e, s, evs), Guti.Allocated(plmn, e.amf, goal);
            && IsIdle(s', goal) && SameConnections(s, s')
            && if s.lastTmsi == goal then s' == s else g in s'.byGuti && s'.byGuti[g] == r
    decreases goal - s.lastTmsi
  {
    if s.lastTmsi == goal {
      evs := [];
    } else {
      var one := CountOne(e, s, k, r, plmn, m, spare, a);
      var more := CountUp(e, After(e, s, one), k, r, plmn, m, spare, a, goal);
      SplitRun(e, s, one, more);
      evs := one + more;
    }
  }

  /**
   A completion on a six-digit PLMN under a small TMSI, and completions on a
   five-digit PLMN until the counter has come to the colliding one: the second
   context takes the GUTI of the first.
   */
  lemma GutiMoves<R>(e: AmfEnv, r: R, r': R, r'': R, m: OctetString, a: Answers)
    returns (evs: seq<Event<R>>, more: seq<Event<R>>, g: string)
    requires r != r' && r != r'' && r' != r'' && IsPlain(m) && e.decode(m).SecurityModeComplete? && !a.isRerouted
    requires Guti.Repeats(e.amf.Text())
    ensures Possible(e, Start<R>(), evs) && Possible(e, After(e, Start<R>(), evs), more)
    ensures var s, s' := After(e, Start<R>(), evs), After(e, After(e, Start<R>(), evs), more);
            g in s.byGuti && s.byGuti[g] == r && g in s'.byGuti && s'.byGuti[g] == r'
  {
    var five := "00101";
    var six := five + [e.amf.Text()[0]];
    var t, t' := Guti.CollidingTmsis(e.amf.Text());
    g := Guti.Allocated(six, e.amf, t');
    assert g == Guti.Allocated(five, e.amf, t);
    var opening := TwoConnections(e, r, r', six, five, m, a);
    var s := After(e, Start<R>(), opening);
    var first := FirstCompletion(e, s, r, r', six, five, m, r'', a, t');
    SplitRun(e, Start<R>(), opening, first);
    evs := opening + first;
    more := CountUp(e, After(e, s, first), Key(2, 2), r', five, m, r'', a, t);
  }

  /** The counter comes to one before a TMSI on the second connection, and to that TMSI on the first. */
  lemma FirstCompletion<R>(e: AmfEnv, s: State<R>, r: R, r': R, plmn: string, plmn': string, m: OctetString, spare: R,
                           a: Answers, t: Tmsi)
    returns (evs: seq<Event<R>>)
    requires IsIdle(s, 0) && IsConnected(s, Key(1, 1), r, plmn) && IsConnected(s, Key(2, 2), r', plmn') && t > 0
    requires IsPlain(m) && e.decode(m).SecurityModeComplete? && spare !in s.nas && !a.isRerouted
    ensures Possible(e, s, evs)
    ensures var s', g := After(e, s, evs), Guti.Allocated(plmn, e.amf, t);
            && IsIdle(s', t) && IsConnected(s', Key(2, 2), r', plmn') && s'.nas.Keys == s.nas.Keys
            && g in s'.byGuti && s'.byGuti[g] == r
  {
    var up := CountUp(e, s, Key(2, 2), r', plmn', m, spare, a, t - 1);
    var one := CountOne(e, After(e, s, up), Key(1, 1), r, plmn, m, spare, a);
    SplitRun(e, s, up, one);
    evs := up + one;
  }

  lemma TwoConnections<R>(e: AmfEnv, r: R, r': R, plmn: string, plmn': string, m: OctetString, a: Answers)
    returns (evs: seq<Event<R>>)
    requires r != r' && Guti.IsPlmn(plmn) && Guti.IsPlmn(plmn') && IsPlain(m) && e.decode(m).SecurityModeComplete?
    ensures Possible(e, Start<R>(), evs)
    ensures var s := After(e, Start<R>(), evs);
            && IsIdle(s, 0) && s.nas.Keys == {r, r'}
            && IsConnected(s, Key(1, 1), r, plmn) && IsConnected(s, Key(2, 2), r', plmn')
  {
    var s0 := Start<R>();
    NextNumber(s0);
    var one := OpeningRun(e, s0, 1, plmn, m, Inputs(r, a, FIRST_TMSI));
    var s1 := After(e, s0, one);
    NextNumber(s1);
    var two := OpeningRun(e, s1, 2, plmn', m, Inputs(r', a, FIRST_TMSI));
    SplitRun(e, s0, one, two);
    evs := one + two;
  }
}

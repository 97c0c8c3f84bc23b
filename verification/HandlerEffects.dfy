/**
 What the handling of each message does, told by fields and octets: which index
 entries change, what a context holds afterwards, and what is sent under it
 (amf_n1.cpp; amf_app.cpp and amf_n2.cpp for the other events).
 */
module HandlerEffects {
  import opened Wrappers
  import opened Octets
  import opened NasSecurity
  import opened NasFrame
  import opened NasDownlink
  import opened NasUplink
  import opened NasChannel
  import opened NasContexts
  import opened NasWire
  import opened AlgorithmPolicy
  import opened PduSessionStatus
  import opened Registration
  import PduSessions
  import Guti

  // ---- Messages under a context ----

  /** One more message went out under the context, of type 2, and moved its downlink number and nothing else of it. */
  ghost predicate SendsOne(e: Env, n: Nas, n': Nas, text: NasText) {
    && n.sec.Some? && n'.sec.Some? && |n'.sent| == |n.sent| + 1 && n'.sent[..|n.sent|] == n.sent
    && n'.sent[|n.sent|].text == text
    && IsOnWire(e.primitives, n.sec.value, 2, text, n'.sent[|n.sent|].nas)
    && n'.sec.value == n.sec.value.(dl := Count(n.sec.value.dl.overflow, n.sec.value.dl.seqNum + 1))
  }

  /** Nothing was sent under the context. */
  predicate IsSilent(n: Nas, n': Nas) {
    n'.sec == n.sec && n'.sent == n.sent
  }

  lemma SendEffects(e: Env, n: Nas, a: Answers)
    ensures var n' := AfterSend(e, n, a);
            && n' == n.(sec := n'.sec, sent := n'.sent)
            && if n.sec.Some? then SendsOne(e, n, n', a.text) else n' == n
  {
    if n.sec.Some? {
      SmcFits(n.sec.value, a.text);
      DownlinkOnWire(e.primitives, n.sec.value, false, 2, a.text, a.stale, a.slack);
      NewHeaderEarlyReturn();
    }
  }

  // ---- Common procedures ----

  /**
   The registration procedure, for an available context: with the subscriber known
   and vectors at hand or brought now, they are taken, a security context is made
   if there was none, and authentication is marked running unless a common
   procedure is; with a GUTI only, the vectors no longer count as present.
   */
  lemma ProcedureEffects(n: Nas, a: Answers)
    ensures var n' := AfterRunRegistration(n, a);
            if n.isAvailable && n.id.isImsiPresent && (n.material.isAuthVectorsPresent || a.vectors.Some?) then
              && n'.id == n.id && n'.state == n.state && n'.isAvailable
              && n'.material.isAuthVectorsPresent && n'.material.ea == n.material.ea && n'.material.ia == n.material.ia
              && n'.material.kamf == (if n.material.isAuthVectorsPresent then n.material.kamf else a.vectors.value)
              && n'.material.ngksi == (if n.sec.None? then (n.id.amf + 1) % 7
                                       else if n.material.ngksi != 7 then (n.id.amf + 1) % 256 else 0)
              && n'.running == (if AnyMarked(n) then n.running else n.running.(authentication := true))
              && (if n.sec.Some? then IsSilent(n, n') else n'.sec == Some(EMPTY_CTX) && n'.sent == [])
            else if n.isAvailable && !n.id.isImsiPresent && n.id.isGutiPresent then
              n' == n.(material := n.material.(isAuthVectorsPresent := false))
            else n' == n
  {
  }

  /** Some common procedure is marked running. */
  predicate AnyMarked(n: Nas) {
    n.running.authentication || n.running.identification || n.running.securityMode || n.running.transport
  }

  /**
   After the procedure of a registration type: an initial registration (1), and a
   mobility update (2) without a security context, run the registration procedure;
   a mobility update with one, and a periodic update (3), send an accept if it
   encodes; other types do nothing.
   */
  lemma RegistrationTypeEffects(e: Env, n: Nas, regType: nat, a: Answers)
    ensures var n' := AfterRegistrationType(e, n, regType, a);
            if regType == 1 || (regType == 2 && n.sec.None?) then n' == AfterRunRegistration(n, a)
            else if (regType == 2 || regType == 3) && n.sec.Some? && a.encodes then
              SendsOne(e, n, n', a.text) && n' == n.(sec := n'.sec, sent := n'.sent)
            else n' == n
  {
    SendEffects(e, n, a);
  }

  /** The Security Mode Command that makes the first message of a context: algorithms, keys, text, and octets. */
  ghost predicate SendsCommand(e: Env, n: Nas, n': Nas) {
    && n'.sec.Some? && |n'.sent| == 1
    && n'.sent[0].text == e.smcText(SecurityModeCommand(n'.sec.value.encryption, n'.sec.value.integrity,
                                                        n.material.ngksi % 8))
    && IsOnWire(e.primitives, n'.sec.value.(dl := Count(0, 0)), 3, n'.sent[0].text, n'.sent[0].nas)
    && n'.sec.value.dl == Count(0, 1) && n'.sec.value.ul == Count(0, 0)
    && IsSelected(e.ciphering, n.material.ea, n'.sec.value.encryption)
    && IsSelected(e.integrity, n.material.ia, n'.sec.value.integrity)
    && n'.sec.value.scType == FullNative && n'.sec.value.ngksi == n.material.ngksi
    && n'.sec.value.knasInt == e.knas(NasInt, n'.sec.value.integrity, n'.material.kamf)
    && n'.sec.value.knasEnc == e.knas(NasEnc, n'.sec.value.encryption, n'.material.kamf)
  }

  /**
   An authentication response ends authentication and takes over the KAMF of the
   confirmation; confirmed, it marks security mode control, and with a security
   context that is not available yet sends the command under keys from that KAMF.
   */
  lemma AuthenticationResponseEffects(e: Env, n: Nas, a: Answers)
    ensures var n' := AfterAuthenticationResponse(e, n, a);
            && n'.id == n.id && n'.state == n.state && n'.isAvailable == n.isAvailable
            && n'.material == n.material.(kamf := a.confirmedKamf)
            && n'.running == n.running.(authentication := false,
                                        securityMode := a.isConfirmed || n.running.securityMode)
            && if a.isConfirmed && n.sec.Some? && n.sec.value.scType == NotAvailable then SendsCommand(e, n, n')
               else IsSilent(n, n')
  {
    if a.isConfirmed && n.sec.Some? && n.sec.value.scType == NotAvailable {
      var n1 := WithKamf(AuthenticationEnded(n), a.confirmedKamf);
      CommandEffects(e, n1.(running := n1.running.(securityMode := true)), a);
    }
  }

  lemma CommandEffects(e: Env, n: Nas, a: Answers)
    requires n.sec.Some? && n.sec.value.scType == NotAvailable
    ensures var n' := Operated(e, n, Smc(SmcInputOf(n.material), a.stale, a.slack));
            SendsCommand(e, n, n') && n' == n.(sec := n'.sec, sent := n'.sent)
  {
    var i := SmcInputOf(n.material);
    SmcAnnouncesInstalled(e, n.sec.value, i, a.stale, a.slack);
    var t := Installed(e, n.sec.value, i);
    SelectionByWeights(e.ciphering, e.integrity, i.ea, i.ia);
    var text := e.smcText(SecurityModeCommand(t.encryption, t.integrity, n.material.ngksi % 8));
    SmcFits(t, text);
    DownlinkOnWire(e.primitives, t, true, 3, text, a.stale, a.slack);
  }

  /**
   A failure ends authentication. New vectors after a synchronisation failure (21)
   are taken over with their KAMF; a key set identifier in use (71) is replaced by
   the next one of seven; FailureRestarts says when authentication runs again.
   */
  lemma AuthenticationFailureEffects(n: Nas, cause: nat, a: Answers)
    ensures var n' := AfterAuthenticationFailure(n, cause, a);
            && n'.id == n.id && n'.state == n.state && n'.isAvailable == n.isAvailable
            && n'.material.ea == n.material.ea && n'.material.ia == n.material.ia
            && n'.material.kamf == (if cause == 21 && a.vectors.Some? then a.vectors.value else n.material.kamf)
            && n'.material.ngksi ==
                 (if cause == 71 then (n.material.ngksi + 1) % 7
                  else if cause == 21 && a.vectors.Some? && n.sec.None? then
                    (if n.material.ngksi != 7 then (n.id.amf + 1) % 7 else 0)
                  else n.material.ngksi)
            && n'.material.isAuthVectorsPresent == (n.material.isAuthVectorsPresent || (cause == 21 && a.vectors.Some?))
            && if n.sec.None? && cause == 21 && a.vectors.Some? then n'.sec == Some(EMPTY_CTX) && n'.sent == []
               else IsSilent(n, n')
  {
  }

  // ---- Service Request ----

  /** Some session 1 to 15 is named by Uplink Data Status, or without one by PDU Session Status. */
  ghost predicate NamesSession(q: ServiceRequest) {
    exists id: nat :: 1 <= id <= 15 &&
      if q.uplinkData.Some? then id in Named(q.uplinkData.value) else q.status.Some? && id in Named(q.status.value)
  }

  lemma NamesSessionIsActivates(q: ServiceRequest)
    ensures NamesSession(q) <==> Activates(q)
  {
    if Activates(q) {
      var id :| id in PduSessions.Requested(q.uplinkData, q.status);
      assert 1 <= id <= 15;
    }
  }

  /** A context after a Service Reject: deregistered exactly if that was encoded and sent. */
  ghost predicate IsRejected(n: Nas, n': Nas, a: Answers) {
    n' == n.(state := if a.encodes && a.isSent then MmState.Deregistered else n.state)
  }

  /** Only this context changes, and becomes that. */
  ghost predicate OnlyBecomes<R>(s: State<R>, s': State<R>, r: R, n': Nas) {
    s' == s.(nas := s.nas[r := n'])
  }

  /** A context after a Service Request on its connection: answered if sessions are named, else rejected. */
  ghost predicate IsAnswered(e: Env, n: Nas, n': Nas, q: ServiceRequest, a: Answers) {
    if n.sec.Some? && q.isDecoded && NamesSession(q) then
      SendsOne(e, n, n', a.text) && n' == n.(sec := n'.sec, sent := n'.sent)
    else IsRejected(n, n', a)
  }

  /**
   A Service Request on a connection. Without security, or undecoded, it is
   rejected. Else one that names sessions is answered under protection, without
   a change of state, and one that names none is rejected; a container that is too
   short, and a missing UE context, leave everything as it was.
   */
  lemma ServiceRequestEffects<R>(e: AmfEnv, s: State<R>, k: Key, q: ServiceRequest, i: Inputs<R>)
    requires k.amf in s.byAmf && s.byAmf[k.amf] in s.nas
    ensures var s', r := Dispatch(e, s, k, Service(q), i), s.byAmf[k.amf];
            if k !in s.ues || (s.nas[r].sec.Some? && q.isDecoded && q.isContainerShort) then s' == s
            else OnlyBecomes(s, s', r, At(s', r)) && IsAnswered(e.channel, s.nas[r], At(s', r), q, i.answers)
  {
    SameEntry(s.byAmf, k.amf);
    AnsweredEffects(e.channel, s.nas[s.byAmf[k.amf]], q, i.answers);
  }

  lemma AnsweredEffects(e: Env, n: Nas, q: ServiceRequest, a: Answers)
    ensures n.sec.Some? && q.isDecoded && Activates(q) ==> IsAnswered(e, n, AfterSend(e, n, a), q, a)
    ensures n.sec.None? || !q.isDecoded || !Activates(q) ==> IsAnswered(e, n, AfterServiceReject(n, a), q, a)
  {
    NamesSessionIsActivates(q);
    SendEffects(e, n, a);
  }

  lemma SameEntry<K, V>(m: map<K, V>, k: K)
    requires k in m
    ensures m[k := m[k]] == m
  {
  }

  /**
   A context after a Service Request on a new connection was served under it:
   rejected without security or undecoded, as it was if the container is too
   short, and else with one message sent and, if sessions were named or the
   message was sent, registered.
   */
  ghost predicate IsServed(e: Env, n: Nas, n': Nas, q: ServiceRequest, a: Answers) {
    if n.sec.None? || !q.isDecoded then IsRejected(n, n', a)
    else if q.isContainerShort then n' == n
    else
      && SendsOne(e, n, n', a.text)
      && n' == n.(sec := n'.sec, sent := n'.sent, state := n'.state)
      && n'.state == (if (NamesSession(q) || a.isSent) && n.sec.value.vectorPointer < 1 then MmState.Registered
                      else n.state)
  }

  lemma ServedEffects(e: Env, n: Nas, q: ServiceRequest, a: Answers)
    ensures var n' := if n.sec.None? || !q.isDecoded then AfterServiceReject(n, a) else AfterServiceAccept(e, n, q, a);
            IsServed(e, n, n', q, a)
  {
    NamesSessionIsActivates(q);
    SendEffects(e, n, a);
  }

  /** What a context takes over from the one its Service Request names; the rest it keeps. */
  lemma RecallEffects(n: Nas, former: Nas, ulCount: Octet)
    requires former.sec.Some?
    ensures var n' := Recalled(n, former, ulCount);
            && n'.sec == Some(former.sec.value.(ul := Count(former.sec.value.ul.overflow, ulCount)))
            && n'.sent == former.sent && n'.id.imsi == former.id.imsi
            && n'.id.oldAmf == former.id.amf && n'.id.oldRan == former.id.ran
            && n'.material.kamf == former.material.kamf
            && n'.material.ea == former.material.ea && n'.material.ia == former.material.ia
            && n'.material == n.material.(kamf := n'.material.kamf, ea := n'.material.ea, ia := n'.material.ia)
            && n'.id == n.id.(imsi := n'.id.imsi, oldAmf := n'.id.oldAmf, oldRan := n'.id.oldRan)
            && n'.running == n.running && n'.state == n.state && n'.isAvailable == n.isAvailable
  {
  }

  /**
   A Service Request on a new connection: served under the context's own security,
   or what it takes over from the context of the GUTI it names; then found under
   the new identities in every index. A gNB key is derived with the accept.
   */
  lemma InitialServiceEffects<R>(e: AmfEnv, s: State<R>, r: R, k: Key, q: ServiceRequest, ulCount: Octet, a: Answers)
    requires r in s.nas && k in s.ues
    requires var former := OldContext(e, s, r, k, q); former.None? || At(s, former.value).sec.Some?
    ensures var former, s' := OldContext(e, s, r, k, q), ServeInitial(e, s, r, k, q, ulCount, a);
            var n := if former.None? then s.nas[r] else Recalled(s.nas[r], At(s, former.value), ulCount);
            && IsServed(e.channel, n, At(s', r), q, a)
            && (if n.sec.None? || !q.isDecoded then OnlyBecomes(s, s', r, At(s', r))
                else IsIndexed(s, s', r, At(s', r), k, "imsi-" + n.id.imsi))
            && (ServeInitialKgnb(e, s, r, k, q, ulCount).Some? <==>
                  n.sec.Some? && q.isDecoded && !q.isContainerShort && n.sec.value.vectorPointer < 1)
  {
    var former := OldContext(e, s, r, k, q);
    var n := if former.None? then s.nas[r] else Recalled(s.nas[r], At(s, former.value), ulCount);
    ServeRecalled(e, s, r, n, k, q, ulCount, a);
    ServedEffects(e.channel, n, q, a);
    ServeWithEffects(e, s, r, n, k, q, a);
  }

  /** The context changes, is found under its AMF identity, and its SUPI leads to the pair and the UE context. */
  ghost predicate IsIndexed<R>(s: State<R>, s': State<R>, r: R, n': Nas, k: Key, supi: string)
    requires k in s.ues
  {
    s' == s.(nas := s.nas[r := n'], byAmf := s.byAmf[k.amf := r],
             supiAmf := s.supiAmf[supi := k.amf], supiRan := s.supiRan[supi := k.ran],
             ues := s.ues[k := s.ues[k].(supi := supi)], supiUe := s.supiUe[supi := k])
  }

  lemma ServeWithEffects<R>(e: AmfEnv, s: State<R>, r: R, n: Nas, k: Key, q: ServiceRequest, a: Answers)
    requires k in s.ues
    ensures var s' := ServeWith(e, s, r, n, k, q, a);
            if n.sec.None? || !q.isDecoded then
              At(s', r) == AfterServiceReject(n, a) && OnlyBecomes(s, s', r, At(s', r))
            else
              At(s', r) == AfterServiceAccept(e.channel, n, q, a)
              && IsIndexed(s, s', r, At(s', r), k, "imsi-" + n.id.imsi)
  {
  }

  // ---- Registration Request ----

  /** A context after the identity in the message: a SUCI names the subscriber, a GUTI asks for one. */
  function AfterNamed(n: Nas, q: RegistrationRequest): Nas {
    if q.identity.Suci? && q.identity.imsi.Some? then
      n.(id := n.id.(imsi := q.identity.imsi.value, isImsiPresent := true), state := CommonProcedureInitiated)
    else if q.identity.FiveGGuti? then n.(id := n.id.(isGutiPresent := true, toBeRegisteredByNewSuci := true))
    else n
  }

  /**
   A context as its registration type finds it: with the new pair, its security
   context armed for a new command, and, if the message has type and key set
   identifier, available and with that identifier and the capability it brings.
   */
  ghost predicate IsArrived(n: Nas, n': Nas, k: Key, q: RegistrationRequest) {
    && n'.id == n.id.(amf := k.amf, ran := k.ran) && n'.state == n.state && n'.running == n.running && n'.sent == n.sent
    && n'.sec == (if n.sec.Some? then Some(n.sec.value.(scType := ScType.NotAvailable)) else None)
    && if q.regType.None? || q.ngksi.None? then n'.material == n.material && n'.isAvailable == n.isAvailable
       else
         && n'.isAvailable
         && n'.material == n.material.(ngksi := q.ngksi.value, ea := n'.material.ea, ia := n'.material.ia)
         && (n'.material.ea, n'.material.ia) == q.capability.GetOr((n.material.ea, n.material.ia))
  }

  /** What is left is the procedure of the registration type; without type or identifier, nothing. */
  ghost predicate IsRegistering(e: Env, n: Nas, n': Nas, k: Key, q: RegistrationRequest, a: Answers) {
    exists n1 :: IsArrived(AfterNamed(n, q), n1, k, q)
                 && n' == if q.regType.None? || q.ngksi.None? then n1
                          else AfterRegistrationType(e, n1, q.regType.value, a)
  }

  /**
   The context changes and is found under the AMF identity, and under the SUPI if
   the message named it; the UE context has the SUPI.
   */
  ghost predicate IsIndexedAs<R>(s: State<R>, s': State<R>, r: R, n': Nas, k: Key, supi: string, isNamed: bool)
    requires k in s.ues
  {
    s' == s.(nas := s.nas[r := n'], byAmf := s.byAmf[k.amf := r],
             bySupi := if isNamed then s.bySupi[supi := r] else s.bySupi,
             supiAmf := if isNamed then s.supiAmf[supi := k.amf] else s.supiAmf,
             supiRan := if isNamed then s.supiRan[supi := k.ran] else s.supiRan,
             ues := s.ues[k := s.ues[k].(supi := supi)], supiUe := s.supiUe[supi := k])
  }

  /**
   A Registration Request, where there is a UE context: the context is found under
   the AMF identity, and under the SUPI if the message names it, which then leads
   to the pair; the UE context has the SUPI of the context.
   */
  lemma RegistrationEffects<R>(e: AmfEnv, s: State<R>, r: R, k: Key, q: RegistrationRequest, a: Answers)
    requires r in s.nas
    ensures var s' := Register(e, s, r, k, q, a);
            if k !in s.ues then s' == s
            else
              && IsRegistering(e.channel, s.nas[r], At(s', r), k, q, a)
              && IsIndexedAs(s, s', r, At(s', r), k, "imsi-" + AfterNamed(s.nas[r], q).id.imsi,
                             q.identity.Suci? && q.identity.imsi.Some?)
  {
    if k in s.ues {
      var s1 := RegisterIdentity(s, r, k, q.identity);
      var s2 := Arrive(s1, r, k);
      IdentityInMessage(s, r, k, q);
      ArriveEffects(s1, r, k);
      TypeEffects(e, s2, r, q, a);
      TypedContext(e.channel, s.nas[r], k, q, a);
    }
  }

  /** The context through the three steps. */
  lemma TypedContext(e: Env, n: Nas, k: Key, q: RegistrationRequest, a: Answers)
    ensures var n1 := Arriving(AfterNamed(n, q), k);
            IsRegistering(e, n, if q.regType.None? || q.ngksi.None? then n1
                                else AfterRegistrationType(e, Requesting(n1, q.ngksi.value, q.capability),
                                                           q.regType.value, a), k, q, a)
  {
    var n1 := Arriving(AfterNamed(n, q), k);
    var n2 := if q.regType.None? || q.ngksi.None? then n1 else Requesting(n1, q.ngksi.value, q.capability);
    assert IsArrived(AfterNamed(n, q), n2, k, q);
  }

  lemma IdentityInMessage<R>(s: State<R>, r: R, k: Key, q: RegistrationRequest)
    requires r in s.nas
    ensures var s', n' := RegisterIdentity(s, r, k, q.identity), AfterNamed(s.nas[r], q);
            var supi, isNamed := "imsi-" + n'.id.imsi, q.identity.Suci? && q.identity.imsi.Some?;
            && At(s', r) == n'
            && s' == s.(nas := s.nas[r := n'],
                        bySupi := if isNamed then s.bySupi[supi := r] else s.bySupi,
                        supiAmf := if isNamed then s.supiAmf[supi := k.amf] else s.supiAmf,
                        supiRan := if isNamed then s.supiRan[supi := k.ran] else s.supiRan)
  {
    if q.identity.Suci? && q.identity.imsi.Some? {
      SuciInMessage(s, r, k, q.identity.imsi.value);
    } else {
      SameEntry(s.nas, r);
    }
  }

  lemma SuciInMessage<R>(s: State<R>, r: R, k: Key, imsi: string)
    requires r in s.nas
    ensures var n := s.nas[r];
            var n' := n.(id := n.id.(imsi := imsi, isImsiPresent := true), state := CommonProcedureInitiated);
            RegisterIdentity(s, r, k, Suci(Some(imsi))) ==
              s.(nas := s.nas[r := n'], bySupi := s.bySupi["imsi-" + imsi := r],
                 supiAmf := s.supiAmf["imsi-" + imsi := k.amf], supiRan := s.supiRan["imsi-" + imsi := k.ran])
  {
  }

  lemma ArriveEffects<R>(s: State<R>, r: R, k: Key)
    requires r in s.nas && k in s.ues
    ensures var n' := Arriving(s.nas[r], k);
            Arrive(s, r, k) == s.(nas := s.nas[r := n'], byAmf := s.byAmf[k.amf := r],
                                  ues := s.ues[k := s.ues[k].(supi := "imsi-" + n'.id.imsi)],
                                  supiUe := s.supiUe["imsi-" + n'.id.imsi := k])
  {
  }

  lemma TypeEffects<R>(e: AmfEnv, s: State<R>, r: R, q: RegistrationRequest, a: Answers)
    requires r in s.nas
    ensures var s' := RegisterType(e, s, r, q, a);
            && s' == s.(nas := s.nas[r := At(s', r)])
            && At(s', r) == if q.regType.None? || q.ngksi.None? then s.nas[r]
                            else AfterRegistrationType(e.channel, Requesting(s.nas[r], q.ngksi.value, q.capability),
                                                       q.regType.value, a)
  {
    SameEntry(s.nas, r);
  }

  // ---- Security Mode Complete ----

  /**
   A context after its Security Mode Complete: it has the GUTI and security mode
   control has ended; with security, and if the accept encodes, the accept has gone
   out, and it is registered unless a KAMF is needed and missing.
   */
  ghost predicate IsCompleted(e: Env, n: Nas, n': Nas, g: string, isContextRequested: bool, a: Answers) {
    && n'.id == n.id.(guti := Some(g)) && n'.material == n.material && n'.isAvailable == n.isAvailable
    && n'.running == n.running.(securityMode := false)
    && if n.sec.Some? && a.encodes then
         && SendsOne(e, n, n', a.text)
         && n'.state == (if isContextRequested && n.sec.value.vectorPointer >= 1 then n.state else MmState.Registered)
       else IsSilent(n, n') && n'.state == n.state
  }

  /**
   A Security Mode Complete, where there is a UE context and a NAS context and the
   UE is not rerouted: the TMSI goes to the UE context and its GUTI leads to the
   NAS context. A gNB key is derived with an accept that asks for a UE context.
   */
  lemma CompletionEffects<R>(e: AmfEnv, s: State<R>, k: Key, i: Inputs<R>)
    requires k.amf in s.byAmf ==> s.byAmf[k.amf] in s.nas
    ensures var s', a := Dispatch(e, s, k, SecurityModeComplete, i), i.answers;
            if k !in s.ues || k.amf !in s.byAmf || a.isRerouted then s' == s && CompleteKgnb(s, k, a).None?
            else
              var r, u := s.byAmf[k.amf], s.ues[k];
              var n, g := s.nas[r], Guti.Allocated(u.plmn, e.amf, i.tmsi);
              && IsCompleted(e.channel, n, At(s', r), g, u.isContextRequested, a)
              && s' == s.(nas := s.nas[r := At(s', r)], ues := s.ues[k := u.(tmsi := i.tmsi)],
                          byGuti := s.byGuti[g := r], tmsis := s.tmsis + {i.tmsi}, lastTmsi := i.tmsi)
              && (CompleteKgnb(s, k, a).Some? <==>
                    n.sec.Some? && a.encodes && u.isContextRequested && n.sec.value.vectorPointer < 1)
  {
    if k in s.ues && k.amf in s.byAmf {
      var g := Guti.Allocated(s.ues[k].plmn, e.amf, i.tmsi);
      CompletedEffects(e.channel, s.nas[s.byAmf[k.amf]], g, s.ues[k].isContextRequested, i.answers);
    }
  }

  lemma CompletedEffects(e: Env, n: Nas, g: string, isContextRequested: bool, a: Answers)
    ensures var n' := AfterRegistrationAccept(e, Completed(n, g), isContextRequested, a);
            IsCompleted(e, n, n', g, isContextRequested, a)
  {
    SendEffects(e, Completed(n, g), a);
  }

  // ---- Identity Response ----

  /**
   A context after an Identity Response: available, and with the subscriber and the
   identities of the message; if it waits to be registered by its SUCI, the
   registration procedure has run.
   */
  ghost predicate IsIdentified(n: Nas, n': Nas, k: Key, imsi: string, a: Answers) {
    var n1 := n.(id := n.id.(amf := k.amf, ran := k.ran, imsi := imsi, isImsiPresent := true), isAvailable := true);
    n' == if n.id.toBeRegisteredByNewSuci then AfterRunRegistration(n1.(state := CommonProcedureInitiated), a) else n1
  }

  /**
   An Identity Response: the context under the AMF identity, or a new one, takes the
   subscriber, whose SUPI then leads to the pair and to its UE context, if any.
   */
  lemma IdentityEffects<R>(e: AmfEnv, s: State<R>, k: Key, imsi: string, i: Inputs<R>)
    requires k.amf in s.byAmf ==> s.byAmf[k.amf] in s.nas
    ensures var s', supi := Dispatch(e, s, k, IdentityResponse(Some(imsi)), i), "imsi-" + imsi;
            var r := if k.amf in s.byAmf then s.byAmf[k.amf] else i.spare;
            && IsIdentified(if k.amf in s.byAmf then s.nas[r] else NEW_NAS, At(s', r), k, imsi, i.answers)
            && s' == s.(nas := s.nas[r := At(s', r)], byAmf := s.byAmf[k.amf := r],
                        supiAmf := s.supiAmf[supi := k.amf], supiRan := s.supiRan[supi := k.ran],
                        ues := if k in s.ues then s.ues[k := s.ues[k].(supi := supi)] else s.ues,
                        supiUe := if k in s.ues then s.supiUe[supi := k] else s.supiUe)
  {
    var s1, supi := BindUe(s, k, Guti.Supi(imsi)), Guti.Supi(imsi);
    NamedEffects(s, k, supi);
    var r := if k.amf in s.byAmf then s.byAmf[k.amf] else i.spare;
    FoundEffects(s1, k, r);
    var s2 := if k.amf in s1.byAmf then s1 else BindAmf(Put(s1, r, NEW_NAS), k.amf, r);
    LastEntry(s.nas, r, NEW_NAS, AfterIdentity(Identified(At(s2, r), k, imsi), i.answers));
    RecordEffects(s2, r, AfterIdentity(Identified(At(s2, r), k, imsi), i.answers), supi, k);
  }

  lemma NamedEffects<R>(s: State<R>, k: Key, supi: string)
    ensures BindUe(s, k, supi) == s.(ues := if k in s.ues then s.ues[k := s.ues[k].(supi := supi)] else s.ues,
                                     supiUe := if k in s.ues then s.supiUe[supi := k] else s.supiUe)
  {
  }

  lemma FoundEffects<R>(s: State<R>, k: Key, r: R)
    requires if k.amf in s.byAmf then s.byAmf[k.amf] == r && r in s.nas else true
    ensures var s2 := if k.amf in s.byAmf then s else BindAmf(Put(s, r, NEW_NAS), k.amf, r);
            && s2 == s.(nas := if k.amf in s.byAmf then s.nas else s.nas[r := NEW_NAS], byAmf := s.byAmf[k.amf := r])
            && At(s2, r) == (if k.amf in s.byAmf then s.nas[r] else NEW_NAS)
  {
    if k.amf in s.byAmf {
      SameEntry(s.byAmf, k.amf);
    }
  }

  lemma LastEntry<K, V>(m: map<K, V>, k: K, v: V, v': V)
    ensures m[k := v][k := v'] == m[k := v']
  {
  }

  lemma RecordEffects<R>(s: State<R>, r: R, n: Nas, supi: string, k: Key)
    ensures BindIds(Put(s, r, n), supi, k)
            == s.(nas := s.nas[r := n], supiAmf := s.supiAmf[supi := k.amf], supiRan := s.supiRan[supi := k.ran])
  {
  }

  lemma NoIdentityEffects<R>(e: AmfEnv, s: State<R>, k: Key, i: Inputs<R>)
    ensures Dispatch(e, s, k, IdentityResponse(None), i) == s && Dispatch(e, s, k, OtherMessage, i) == s
  {
  }

  // ---- Authentication ----

  /** Responses and failures concern the context under the AMF identity, and nothing else. */
  lemma AuthenticationEffects<R>(e: AmfEnv, s: State<R>, k: Key, cause: nat, i: Inputs<R>)
    ensures var s' := Dispatch(e, s, k, AuthenticationResponse, i);
            var s'' := Dispatch(e, s, k, AuthenticationFailure(cause), i);
            if k.amf !in s.byAmf then s' == s && s'' == s
            else
              var r := s.byAmf[k.amf];
              && OnlyBecomes(s, s', r, AfterAuthenticationResponse(e.channel, At(s, r), i.answers))
              && OnlyBecomes(s, s'', r, AfterAuthenticationFailure(At(s, r), cause, i.answers))
  {
  }

  // ---- Deregistration ----

  /**
   A deregistration, where the context's own pair has a UE context and the accept
   encodes or is not needed: the context is deregistered, and no longer found
   under the AMF identity, its SUPI or the named GUTI text.
   */
  lemma DeregistrationEffects<R>(e: AmfEnv, s: State<R>, k: Key, g: string, isSwitchOff: bool, i: Inputs<R>)
    requires k.amf in s.byAmf ==> s.byAmf[k.amf] in s.nas
    ensures var s' := Dispatch(e, s, k, Deregistration(g, isSwitchOff), i);
            if k.amf !in s.byAmf then s' == s
            else
              var r := s.byAmf[k.amf];
              var n := s.nas[r];
              if Key(n.id.ran, n.id.amf) !in s.ues || (!isSwitchOff && !i.answers.encodes) then s' == s
              else
                s' == s.(nas := s.nas[r := n.(state := MmState.Deregistered)], byAmf := s.byAmf - {k.amf},
                         bySupi := s.bySupi - {"imsi-" + n.id.imsi}, byGuti := s.byGuti - {g})
  {
  }

  // ---- Where messages are taken ----

  /**
   The context a message is for: that of the GUTI it came with, and else that of
   its AMF identity. One found by GUTI takes the new pair, keeps the former one
   beside it, and is found under the new AMF identity and its SUPI.
   */
  lemma FindingEffects<R>(s: State<R>, ind: Indication)
    requires ind.guti.Some? && ind.guti.value in s.byGuti ==> s.byGuti[ind.guti.value] in s.nas
    ensures ind.guti.None? ==>
              && Rebound(s, ind) == s
              && Lookup(s, ind) == if ind.key.amf in s.byAmf then Some(s.byAmf[ind.key.amf]) else None
    ensures ind.guti.Some? && ind.guti.value !in s.byGuti ==> Rebound(s, ind) == s && Lookup(s, ind) == None
    ensures ind.guti.Some? && ind.guti.value in s.byGuti ==>
              var r, k := s.byGuti[ind.guti.value], ind.key;
              var n := s.nas[r];
              var n' := n.(id := n.id.(guti := ind.guti, amf := k.amf, ran := k.ran,
                                       oldAmf := n.id.amf, oldRan := n.id.ran));
              && Lookup(s, ind) == Some(r)
              && Rebound(s, ind) == IndexedBySupi(s.(nas := s.nas[r := n'], byAmf := s.byAmf[k.amf := r]),
                                                  r, k, "imsi-" + n.id.imsi)
  {
  }

  /** The SUPI leads to the context and to the pair. */
  ghost function IndexedBySupi<R>(s: State<R>, r: R, k: Key, supi: string): State<R> {
    s.(bySupi := s.bySupi[supi := r], supiAmf := s.supiAmf[supi := k.amf], supiRan := s.supiRan[supi := k.ran])
  }

  /**
   The context that a Service Request names: if it is decoded and the context it
   came for has no GUTI, the one under the PLMN of the UE context, the region of
   the AMF, and set, pointer and TMSI of the message.
   */
  lemma FormerEffects<R>(e: AmfEnv, s: State<R>, r: R, k: Key, q: ServiceRequest)
    requires r in s.nas && k in s.ues
    ensures if q.isDecoded && s.nas[r].id.guti == None && q.sTmsi.Some? then
              var t := q.sTmsi.value;
              var g := s.ues[k].plmn + Guti.AmfIdentity(e.amf.region, t.setId, t.pointer).Text() + t.tmsi;
              OldContext(e, s, r, k, q) == if g in s.byGuti then Some(s.byGuti[g]) else None
            else OldContext(e, s, r, k, q) == None
  {
  }

  /** Without a UE context a Service Request is not served, and a former context without security ends the process. */
  lemma UnservedEffects<R>(e: AmfEnv, s: State<R>, r: R, k: Key, q: ServiceRequest, ulCount: Octet, a: Answers)
    ensures k !in s.ues ==> ServeInitial(e, s, r, k, q, ulCount, a) == s
    ensures k in s.ues && OldContext(e, s, r, k, q).Some? && At(s, OldContext(e, s, r, k, q).value).sec.None? ==>
              ServeInitial(e, s, r, k, q, ulCount, a) == s.(isDown := true)
    ensures k !in s.ues || (OldContext(e, s, r, k, q).Some? && At(s, OldContext(e, s, r, k, q).value).sec.None?) ==>
              ServeInitialKgnb(e, s, r, k, q, ulCount) == None
  {
  }

  /** On a connection, requests concern the context under the AMF identity; without one nothing is done. */
  lemma ConnectedEffects<R>(e: AmfEnv, s: State<R>, k: Key, q: RegistrationRequest, service: ServiceRequest,
                            i: Inputs<R>)
    ensures Dispatch(e, s, k, Message.Registration(q), i)
            == if k.amf in s.byAmf then Register(e, s, s.byAmf[k.amf], k, q, i.answers) else s
    ensures k.amf !in s.byAmf ==> Dispatch(e, s, k, Service(service), i) == s
  {
  }

  /**
   A new connection's first message: a context is made if none was found, with
   nothing but the pair; either is found under the AMF identity. Registration and
   Service Request go on from there, the latter with the uplink count of the
   message; nothing else does.
   */
  lemma EstablishEffects<R>(e: AmfEnv, s: State<R>, found: Option<R>, k: Key, m: Message, ulCount: Octet, i: Inputs<R>)
    ensures var r := found.GetOr(i.spare);
            var n := if found.Some? then At(s, r) else NEW_NAS.(id := NEW_NAS.id.(amf := k.amf, ran := k.ran));
            var s1 := s.(nas := if found.Some? then s.nas else s.nas[r := n], byAmf := s.byAmf[k.amf := r]);
            Establish(e, s, found, k, m, ulCount, i) ==
              if m.Registration? then Register(e, s1, r, k, m.registration, i.answers)
              else if m.Service? then
                var n1 := if n.sec.None? then n
                          else n.(sec := Some(n.sec.value.(ul := Count(n.sec.value.ul.overflow, ulCount))));
                ServeInitial(e, s1.(nas := s1.nas[r := n1]), r, k, m.service, ulCount, i.answers)
              else s1
    ensures !m.Service? ==> EstablishKgnb(e, s, found, k, m, ulCount, i) == None
  {
  }

  // ---- The other events ----

  /** A new connection: the next identity, a UE context for the pair, and an indication behind all others. */
  lemma ConnectionEffects<R>(e: AmfEnv, s: State<R>, ran: nat, plmn: string, isContextRequested: bool,
                             sTmsi: Option<string>, nas: OctetString)
    requires Enabled(s, Connection(ran, plmn, isContextRequested, sTmsi, nas))
    ensures var s' := Next(e, s, Connection(ran, plmn, isContextRequested, sTmsi, nas));
            var k := Key(ran, s.nextId);
            && s'.nextId == (s.nextId + 1) % 0x1_0000_0000
            && (k !in s.ues ==> s'.ues == s.ues[k := UeContext(ran, s.nextId, plmn, 0, "", isContextRequested)])
            && (k in s.ues ==> s'.ues == s.ues[k := s.ues[k].(ran := ran, amf := s.nextId, plmn := plmn,
                                                              isContextRequested := isContextRequested)])
            && |s'.queue| == |s.queue| + 1 && s'.queue[..|s.queue|] == s.queue
            && s'.queue[|s.queue|].key == k && s'.queue[|s.queue|].isEstablishment && s'.queue[|s.queue|].nas == nas
            && s'.queue[|s.queue|].guti == (if sTmsi.None? then None
                                            else Some(Guti.Reattached(plmn, e.amf.region, sTmsi.value)))
            && s' == s.(nextId := s'.nextId, ues := s'.ues, queue := s'.queue)
  {
  }

  /** An uplink message is queued under its pair; no other field of the state changes. */
  lemma UplinkEffects<R>(e: AmfEnv, s: State<R>, k: Key, nas: OctetString)
    requires Enabled(s, Uplink(k, nas))
    ensures Next(e, s, Uplink(k, nas)) == s.(queue := s.queue + [Indication(k, false, None, nas)])
  {
  }

  /** The message that has waited longest is handled. */
  lemma DeliveryEffects<R>(e: AmfEnv, s: State<R>, ind: Indication, rest: seq<Indication>, i: Inputs<R>)
    requires s.queue == [ind] + rest && Enabled(s, Deliver(i))
    ensures Readable(ind.nas) && Next(e, s, Deliver(i)) == HandleUplink(e, s.(queue := rest), ind, i)
  {
    assert s.queue[1..] == rest;
  }

  /** A downlink transfer is sent under the context of the AMF identity, if that has security. */
  lemma TransferEffects<R>(e: AmfEnv, s: State<R>, amf: nat, a: Answers)
    requires Enabled(s, DownlinkTransfer(amf, a)) && (amf in s.byAmf ==> s.byAmf[amf] in s.nas)
    ensures var s' := Next(e, s, DownlinkTransfer(amf, a));
            if amf !in s.byAmf || s.nas[s.byAmf[amf]].sec.None? then s' == s
            else
              var r := s.byAmf[amf];
              && OnlyBecomes(s, s', r, At(s', r)) && SendsOne(e.channel, s.nas[r], At(s', r), a.text)
              && At(s', r) == s.nas[r].(sec := At(s', r).sec, sent := At(s', r).sent)
  {
    if amf in s.byAmf {
      SendEffects(e.channel, s.nas[s.byAmf[amf]], a);
      SameEntry(s.nas, s.byAmf[amf]);
    }
  }

  /** A released UE is no longer found under its AMF identity and its SUPI; its context and its GUTI stay. */
  lemma ReleaseEffects<R>(e: AmfEnv, s: State<R>, amf: nat)
    requires Enabled(s, ContextRelease(amf)) && (amf in s.byAmf ==> s.byAmf[amf] in s.nas)
    ensures Next(e, s, ContextRelease(amf)) ==
              if amf !in s.byAmf then s
              else s.(byAmf := s.byAmf - {amf}, bySupi := s.bySupi - {"imsi-" + s.nas[s.byAmf[amf]].id.imsi})
  {
    assert s.byGuti - {} == s.byGuti;
  }

  /**
   After a handover the new pair has its UE context, the one there was or a new
   one, on the PLMN of the message, and the NAS context has the new RAN identity.
   */
  lemma HandoverEffects<R>(e: AmfEnv, s: State<R>, k: Key, plmn: string)
    requires Enabled(s, HandoverNotify(k, plmn)) && (k.amf in s.byAmf ==> s.byAmf[k.amf] in s.nas)
    ensures Next(e, s, HandoverNotify(k, plmn)) ==
              if k.amf !in s.byAmf then s
              else
                var r := s.byAmf[k.amf];
                var u := if k in s.ues then s.ues[k].(ran := k.ran, amf := k.amf, plmn := plmn)
                         else UeContext(k.ran, k.amf, plmn, 0, "", false);
                s.(nas := s.nas[r := s.nas[r].(id := s.nas[r].id.(ran := k.ran))], ues := s.ues[k := u])
  {
  }

  // ---- The uplink handler ----

  /** A message as the UE sent it plain, or integrity protected under whatever code. */
  ghost predicate Carries(nas: OctetString, text: OctetString, seqNum: Octet) {
    || (nas == text && seqNum == 0 && |text| >= 2 && text[0] == 0x7e && text[1] & 0x0f == 0)
    || exists mac: MacOctets :: nas == [0x7e, 1] + mac + [seqNum] + text
  }

  /**
   A message that is not ciphered is handled as exactly the text it carries, and a
   new connection with exactly its sequence octet as uplink count; no context is
   touched on the way, but that one found by GUTI takes the new identities.
   */
  lemma UncipheredIsHandled<R>(e: AmfEnv, s: State<R>, ind: Indication, text: OctetString, seqNum: Octet, i: Inputs<R>)
    requires Carries(ind.nas, text, seqNum) && (Lookup(s, ind).Some? ==> Lookup(s, ind).value in Rebound(s, ind).nas)
    ensures Readable(ind.nas)
    ensures HandleUplink(e, s, ind, i) ==
              if ind.isEstablishment then
                Establish(e, Rebound(s, ind), Lookup(s, ind), ind.key, e.decode(text), seqNum, i)
              else Dispatch(e, Rebound(s, ind), ind.key, e.decode(text), i)
    ensures HandledKgnb(e, s, ind, i) ==
              if ind.isEstablishment then
                EstablishKgnb(e, Rebound(s, ind), Lookup(s, ind), ind.key, e.decode(text), seqNum, i)
              else if e.decode(text).SecurityModeComplete? then CompleteKgnb(Rebound(s, ind), ind.key, i.answers)
              else None
  {
    var sec := if Lookup(s, ind).Some? then At(Rebound(s, ind), Lookup(s, ind).value).sec else None;
    CarriedText(e.channel.primitives, sec, ind.nas, text, seqNum, i.answers.slack);
    if Lookup(s, ind).Some? {
      SameEntry(Rebound(s, ind).nas, Lookup(s, ind).value);
    }
    assert Seen(s, ind) == Rebound(s, ind);
  }

  /**
   A ciphered message moves the uplink number of the context it is for, delivered
   or not; without a context that has security it is dropped. What it delivers is
   handled then, with uplink count 0.
   */
  lemma CipheredIsHandled<R>(e: AmfEnv, s: State<R>, ind: Indication, i: Inputs<R>)
    requires |ind.nas| >= 7 && ind.nas[0] == 0x7e && 2 <= ind.nas[1] & 0x0f <= 4
    requires Lookup(s, ind).Some? ==> Lookup(s, ind).value in Rebound(s, ind).nas
    ensures Readable(ind.nas)
    ensures var s1, r := Rebound(s, ind), Lookup(s, ind);
            if r.None? || s1.nas[r.value].sec.None? then HandleUplink(e, s, ind, i) == s1
            else
              var n := s1.nas[r.value];
              var sec := n.sec.value.(ul := Count(n.sec.value.ul.overflow, ind.nas[6]));
              var s2 := s1.(nas := s1.nas[r.value := n.(sec := Some(sec))]);
              var o := Unprotected(e.channel.primitives, n.sec, ind.nas, i.answers.slack);
              HandleUplink(e, s, ind, i) ==
                if o.Dropped? then s2
                else if ind.isEstablishment then Establish(e, s2, r, ind.key, e.decode(o.text), 0, i)
                else Dispatch(e, s2, ind.key, e.decode(o.text), i)
  {
    CheckedTypes(ind.nas[1] & 0x0f);
    var s1, r := Rebound(s, ind), Lookup(s, ind);
    if r.Some? && s1.nas[r.value].sec.Some? {
      UplinkCode(e.channel.primitives, s1.nas[r.value].sec.value, ind.nas, i.answers.slack);
    } else {
      UplinkDropped(e.channel.primitives, None, ind.nas, i.answers.slack);
      if r.Some? {
        SameEntry(s1.nas, r.value);
      }
      assert Seen(s, ind) == s1;
    }
  }

  lemma CarriedText(c: Primitives, ctx: Option<SecCtx>, nas: OctetString, text: OctetString, seqNum: Octet, slack: Slack)
    requires Carries(nas, text, seqNum)
    ensures Readable(nas) && Unprotected(c, ctx, nas, slack) == Delivered(text, seqNum) && AfterUplink(ctx, nas) == ctx
  {
    if mac: MacOctets :| nas == [0x7e, 1] + mac + [seqNum] + text {
      IntegrityProtectedIsDelivered(c, ctx, mac, seqNum, text, slack);
    }
  }
}

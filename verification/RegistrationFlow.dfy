/**
 Whole procedures, from the first message to the last: an initial registration
 by SUCI, and the return of a UE with its 5G-S-TMSI.
 */
module RegistrationFlow {
  import opened Wrappers
  import opened Octets
  import opened NasSecurity
  import opened NasFrame
  import opened NasChannel
  import opened NasDownlink
  import opened NasContexts
  import opened Registration
  import opened RegistrationSafety
  import opened AlgorithmPolicy
  import Guti

  // ---- The NAS context through an initial registration ----

  /** The UE's capability as the context knows it after the request. */
  function KnownCapability(n: Nas, q: RegistrationRequest): (Octet, Octet) {
    if q.capability.Some? then q.capability.value else (n.material.ea, n.material.ia)
  }

  function Requested(e: Env, n: Nas, k: Key, q: RegistrationRequest, imsi: string, a: Answers): Nas
    requires q.ngksi.Some?
  {
    AfterRegistrationType(e, Requesting(Arriving(WithSuci(n, imsi), k), q.ngksi.value, q.capability), INITIAL, a)
  }

  /** The request leads to authentication, with a context armed for a Security Mode Command. */
  lemma RequestStartsAuthentication(e: Env, n: Nas, k: Key, q: RegistrationRequest, imsi: string, a: Answers)
    requires q.ngksi.Some? && !AnyRunning(n.running) && (a.vectors.Some? || n.material.isAuthVectorsPresent)
    requires n.sec.Some? ==> n.sec.value.vectorPointer == 0
    ensures var n' := Requested(e, n, k, q, imsi, a);
            && n'.running == NONE_RUNNING.(authentication := true)
            && n'.sec.Some? && n'.sec.value.scType.NotAvailable? && n'.sec.value.vectorPointer == 0
            && n'.id == WithSuci(n, imsi).id.(amf := k.amf, ran := k.ran)
            && (n'.material.ea, n'.material.ia) == KnownCapability(n, q)
  {
  }

  /** The confirmed response leads to a Security Mode Command with the preferred algorithms the UE supports. */
  lemma ResponseStartsSecurityMode(e: Env, n: Nas, a: Answers)
    requires n.running == NONE_RUNNING.(authentication := true) && a.isConfirmed
    requires n.sec.Some? && n.sec.value.scType.NotAvailable?
    ensures var n' := AfterAuthenticationResponse(e, n, a);
            && n'.running == NONE_RUNNING.(securityMode := true) && n'.id == n.id
            && n'.sec.Some? && IsInstalled(e, n'.sec.value, n.material.ea, n.material.ia)
            && n'.sec.value.vectorPointer == n.sec.value.vectorPointer && n'.sec.value.dl == Count(0, 1)
            && |n'.sent| == 1
  {
    var from := SmcInputOf(WithKamf(n, a.confirmedKamf).material);
    SmcAnnouncesInstalled(e, n.sec.value, from, a.stale, a.slack);
  }

  /** A native context whose algorithms are the first preferred ones the UE supports. */
  predicate IsInstalled(e: Env, s: SecCtx, ea: Octet, ia: Octet) {
    && s.scType.FullNative? && s.ul == ZERO_COUNT
    && s.encryption == FirstSupported(e.ciphering, ea).GetOr(0)
    && s.integrity == FirstSupported(e.integrity, ia).GetOr(0)
  }

  /** The completion leads to a registered context, its accept being message number 1. */
  lemma CompletionRegisters(e: Env, n: Nas, g: string, isContextRequested: bool, a: Answers, ea: Octet, ia: Octet)
    requires n.running == NONE_RUNNING.(securityMode := true) && a.encodes
    requires n.sec.Some? && IsInstalled(e, n.sec.value, ea, ia) && n.sec.value.vectorPointer == 0
    requires n.sec.value.dl == Count(0, 1)
    ensures var n' := AfterRegistrationAccept(e, Completed(n, g), isContextRequested, a);
            && n'.running == NONE_RUNNING && n'.state == Registered && n'.id == n.id.(guti := Some(g))
            && n'.sec.Some? && IsInstalled(e, n'.sec.value, ea, ia) && n'.sec.value.dl == Count(0, 2)
            && n'.sent == n.sent + [Sent(a.text, Protected(e, n.sec.value, a.text, a.stale, a.slack))]
  {
    AfterProtectIs(n.sec.value);
    OneAndOne();
  }

  lemma OneAndOne()
    ensures (1 as bv8) + 1 == 2
  {
  }

  // ---- The shared state through an initial registration ----

  /** The context the request is handled for, before it. */
  ghost function Starting<R>(s: State<R>, found: Option<R>, k: Key): Nas {
    if found.None? then NewContext(k) else At(s, found.value)
  }

  lemma RequestHandled<R>(e: AmfEnv, s: State<R>, found: Option<R>, k: Key, q: RegistrationRequest, imsi: string,
                          ulCount: Octet, i: Inputs<R>)
    requires k in s.ues && q.identity == Suci(Some(imsi)) && q.regType == Some(INITIAL) && q.ngksi.Some?
    requires found.Some? ==> found.value in s.nas
    ensures var r, supi := found.GetOr(i.spare), Guti.Supi(imsi);
            var s' := Establish(e, s, found, k, Message.Registration(q), ulCount, i);
            && At(s', r) == Requested(e.channel, Starting(s, found, k), k, q, imsi, i.answers)
            && k.amf in s'.byAmf && s'.byAmf[k.amf] == r && supi in s'.bySupi && s'.bySupi[supi] == r
            && supi in s'.supiAmf && s'.supiAmf[supi] == k.amf && supi in s'.supiRan && s'.supiRan[supi] == k.ran
            && k in s'.ues && s'.ues[k] == s.ues[k].(supi := supi) && supi in s'.supiUe && s'.supiUe[supi] == k
  {
    var s1, r := Admitted(s, found, k, i.spare), found.GetOr(i.spare);
    assert At(s1, r) == Starting(s, found, k);
    var s2 := RegisterIdentity(s1, r, k, q.identity);
    assert At(s2, r) == WithSuci(Starting(s, found, k), imsi);
    var s3 := Arrive(s2, r, k);
    assert At(s3, r) == Arriving(WithSuci(Starting(s, found, k), imsi), k);
  }

  /** The context is found under its AMF identity and SUPI, and they lead to the UE context. */
  ghost predicate IsIndexed<R>(s: State<R>, r: R, k: Key, imsi: string) {
    var supi := Guti.Supi(imsi);
    && k.amf in s.byAmf && s.byAmf[k.amf] == r && supi in s.bySupi && s.bySupi[supi] == r
    && supi in s.supiAmf && s.supiAmf[supi] == k.amf && supi in s.supiRan && s.supiRan[supi] == k.ran
    && k in s.ues && s.ues[k].supi == supi
    && At(s, r).id.amf == k.amf && At(s, r).id.ran == k.ran && At(s, r).id.imsi == imsi
  }

  /** Waiting for the authentication response. */
  ghost predicate IsChallenged<R>(s: State<R>, r: R, k: Key, imsi: string, capability: (Octet, Octet)) {
    var n := At(s, r);
    && IsIndexed(s, r, k, imsi) && n.running == NONE_RUNNING.(authentication := true)
    && n.sec.Some? && n.sec.value.scType.NotAvailable? && n.sec.value.vectorPointer == 0
    && (n.material.ea, n.material.ia) == capability
  }

  /** Waiting for the security mode completion, the Security Mode Command having been message number 0. */
  ghost predicate IsCommanded<R>(e: AmfEnv, s: State<R>, r: R, k: Key, imsi: string, capability: (Octet, Octet)) {
    var n := At(s, r);
    && IsIndexed(s, r, k, imsi) && n.running == NONE_RUNNING.(securityMode := true)
    && n.sec.Some? && IsInstalled(e.channel, n.sec.value, capability.0, capability.1)
    && n.sec.value.vectorPointer == 0 && n.sec.value.dl == Count(0, 1) && |n.sent| == 1
  }

  /** Registered under a GUTI, the Registration Accept having been message number 1. */
  ghost predicate IsRegistered<R>(e: AmfEnv, s: State<R>, r: R, k: Key, imsi: string, capability: (Octet, Octet),
                                  g: string) {
    var n := At(s, r);
    && IsIndexed(s, r, k, imsi) && n.running == NONE_RUNNING && n.state == Registered
    && n.sec.Some? && IsInstalled(e.channel, n.sec.value, capability.0, capability.1)
    && n.sec.value.dl == Count(0, 2) && |n.sent| == 2
    && n.id.guti == Some(g) && g in s.byGuti && s.byGuti[g] == r
  }

  lemma RequestChallenges<R>(e: AmfEnv, s: State<R>, found: Option<R>, k: Key, q: RegistrationRequest, imsi: string,
                             ulCount: Octet, i: Inputs<R>)
    requires Inv(e, s) && k in s.ues && (found.Some? ==> found.value in s.nas)
    requires q.identity == Suci(Some(imsi)) && q.regType == Some(INITIAL) && q.ngksi.Some?
    requires !AnyRunning(Starting(s, found, k).running) && i.answers.vectors.Some?
    ensures var s' := Establish(e, s, found, k, Message.Registration(q), ulCount, i);
            && IsChallenged(s', found.GetOr(i.spare), k, imsi, KnownCapability(Starting(s, found, k), q))
            && s'.ues[k] == s.ues[k].(supi := Guti.Supi(imsi))
  {
    if found.Some? {
      AtSound(e, s, found.value);
    }
    RequestHandled(e, s, found, k, q, imsi, ulCount, i);
    RequestStartsAuthentication(e.channel, Starting(s, found, k), k, q, imsi, i.answers);
  }

  lemma ResponseCommands<R>(e: AmfEnv, s: State<R>, r: R, k: Key, imsi: string, capability: (Octet, Octet),
                            i: Inputs<R>)
    requires IsChallenged(s, r, k, imsi, capability) && i.answers.isConfirmed
    ensures var s' := Dispatch(e, s, k, AuthenticationResponse, i);
            IsCommanded(e, s', r, k, imsi, capability) && s'.ues == s.ues
  {
    ResponseStartsSecurityMode(e.channel, At(s, r), i.answers);
  }

  lemma CompletionRegistered<R>(e: AmfEnv, s: State<R>, r: R, k: Key, imsi: string, capability: (Octet, Octet),
                                i: Inputs<R>)
    requires IsCommanded(e, s, r, k, imsi, capability) && i.answers.encodes && !i.answers.isRerouted
    ensures var s' := Dispatch(e, s, k, SecurityModeComplete, i);
            && IsRegistered(e, s', r, k, imsi, capability, Guti.Allocated(s.ues[k].plmn, e.amf, i.tmsi))
            && s'.ues == s.ues[k := s.ues[k].(tmsi := i.tmsi)] && s'.tmsis == s.tmsis + {i.tmsi}
  {
    CompletionRegisters(e.channel, At(s, r), Guti.Allocated(s.ues[k].plmn, e.amf, i.tmsi), s.ues[k].isContextRequested,
                        i.answers, capability.0, capability.1);
  }

  /**
   An initial registration by SUCI succeeds from every reachable state: if the UE
   context is there, no common procedure is running, and every answer is the good
   one, then after the request, the authentication response and the security
   mode completion the context is registered, is found under AMF identity, SUPI
   and the new GUTI, and protects messages with the preferred algorithms the UE
   supports, the Security Mode Command and the Registration Accept having been
   its messages 0 and 1.
   */
  lemma RegistrationSucceeds<R>(e: AmfEnv, s: State<R>, found: Option<R>, k: Key, q: RegistrationRequest, imsi: string,
                                ulCount: Octet, request: Inputs<R>, response: Inputs<R>, completion: Inputs<R>)
    requires Inv(e, s) && k in s.ues && (found.Some? ==> found.value in s.nas)
    requires q.identity == Suci(Some(imsi)) && q.regType == Some(INITIAL) && q.ngksi.Some?
    requires !AnyRunning(Starting(s, found, k).running) && request.answers.vectors.Some?
    requires response.answers.isConfirmed && completion.answers.encodes && !completion.answers.isRerouted
    ensures var s1 := Establish(e, s, found, k, Message.Registration(q), ulCount, request);
            var s2 := Dispatch(e, s1, k, AuthenticationResponse, response);
            var s3 := Dispatch(e, s2, k, SecurityModeComplete, completion);
            && IsRegistered(e, s3, found.GetOr(request.spare), k, imsi, KnownCapability(Starting(s, found, k), q),
                            Guti.Allocated(s.ues[k].plmn, e.amf, completion.tmsi))
            && s3.ues[k].tmsi == completion.tmsi
  {
    var r, capability := found.GetOr(request.spare), KnownCapability(Starting(s, found, k), q);
    RequestChallenges(e, s, found, k, q, imsi, ulCount, request);
    var s1 := Establish(e, s, found, k, Message.Registration(q), ulCount, request);
    ResponseCommands(e, s1, r, k, imsi, capability, response);
    var s2 := Dispatch(e, s1, k, AuthenticationResponse, response);
    CompletionRegistered(e, s2, r, k, imsi, capability, completion);
  }

  // ---- Return with a 5G-S-TMSI ----

  /**
   A UE that was given a GUTI and comes back on the same PLMN with the 5G-S-TMSI
   in it is queued under that GUTI; when its message is looked at, the context it
   had is found, and it and its SUPI are rebound to the identities of the new
   connection.
   */
  lemma ReattachmentFindsContext<R>(e: AmfEnv, s: State<R>, ran: nat, plmn: string, isContextRequested: bool,
                                    t: Tmsi, nas: OctetString)
    requires Inv(e, s) && Guti.Allocated(plmn, e.amf, t) in s.byGuti
    ensures var s1 := Connect(e, s, ran, plmn, isContextRequested, Some(Guti.STmsi(e.amf, t)), nas);
            var r, k := s.byGuti[Guti.Allocated(plmn, e.amf, t)], Key(ran, s.nextId);
            && |s1.queue| == |s.queue| + 1
            && var ind := s1.queue[|s.queue|];
               var s2 := Rebound(s1, ind);
               var supi := Guti.Supi(At(s, r).id.imsi);
               && ind.key == k && ind.isEstablishment && Lookup(s1, ind) == Some(r)
               && At(s2, r).id.amf == k.amf && At(s2, r).id.ran == k.ran
               && At(s2, r).id.oldAmf == At(s, r).id.amf && At(s2, r).id.oldRan == At(s, r).id.ran
               && At(s2, r).sec == At(s, r).sec && At(s2, r).id.imsi == At(s, r).id.imsi
               && k.amf in s2.byAmf && s2.byAmf[k.amf] == r && supi in s2.bySupi && s2.bySupi[supi] == r
               && supi in s2.supiAmf && s2.supiAmf[supi] == k.amf && supi in s2.supiRan && s2.supiRan[supi] == k.ran
  {
    Guti.ReattachFindsAllocated(plmn, e.amf, t);
  }

  // ---- Service Request from a new connection ----

  /**
   A Service Request on a new connection, naming the GUTI of an older context,
   goes on where that context was: same keys, algorithms and overflow counter,
   the accept carrying the next downlink number; the SUPI now leads to the new
   connection, and the older context is left as it was.
   */
  lemma ServiceRequestResumes<R>(e: AmfEnv, s: State<R>, r: R, k: Key, q: ServiceRequest, ulCount: Octet, a: Answers,
                                 t: Tmsi)
    requires Inv(e, s) && r in s.nas && k in s.ues && At(s, r).id.guti.None?
    requires q.isDecoded && !q.isContainerShort && (Activates(q) || a.isSent)
    requires q.sTmsi == Some(Registration.STmsi(e.amf.setId, e.amf.pointer, Guti.TmsiToString(t)))
    requires var g := Guti.Allocated(s.ues[k].plmn, e.amf, t);
             g in s.byGuti && s.byGuti[g] != r && At(s, s.byGuti[g]).sec.Some?
    ensures var former := s.byGuti[Guti.Allocated(s.ues[k].plmn, e.amf, t)];
            var s' := ServeInitial(e, s, r, k, q, ulCount, a);
            var n, o, supi := At(s', r), At(s, former), Guti.Supi(At(s, former).id.imsi);
            && n.state == Registered && n.id.imsi == o.id.imsi && n.sec.Some?
            && SharesDownlink(n.sec.value, o.sec.value)
            && n.sec.value.dl.seqNum == o.sec.value.dl.seqNum + 1 && n.sec.value.ul.seqNum == ulCount
            && k.amf in s'.byAmf && s'.byAmf[k.amf] == r
            && supi in s'.supiAmf && s'.supiAmf[supi] == k.amf && supi in s'.supiRan && s'.supiRan[supi] == k.ran
            && s'.ues[k].supi == supi && At(s', former) == o
  {
    var former := s.byGuti[Guti.Allocated(s.ues[k].plmn, e.amf, t)];
    AtSound(e, s, former);
    assert OldContext(e, s, r, k, q) == Some(former) by { ServiceGutiIsAllocated(e, s.ues[k].plmn, t); }
    ResumedContext(e.channel, At(s, r), At(s, former), q, ulCount, a);
  }

  lemma ServiceGutiIsAllocated(e: AmfEnv, plmn: string, t: Tmsi)
    ensures ServiceGuti(e, plmn, Registration.STmsi(e.amf.setId, e.amf.pointer, Guti.TmsiToString(t)))
            == Guti.Allocated(plmn, e.amf, t)
  {
    assert Guti.AmfIdentity(e.amf.region, e.amf.setId, e.amf.pointer) == e.amf;
  }

  lemma ResumedContext(e: Env, n: Nas, former: Nas, q: ServiceRequest, ulCount: Octet, a: Answers)
    requires former.sec.Some? && former.sec.value.vectorPointer == 0
    requires !q.isContainerShort && (Activates(q) || a.isSent)
    ensures var n' := AfterServiceAccept(e, Recalled(n, former, ulCount), q, a);
            && n'.state == Registered && n'.id.imsi == former.id.imsi
            && n'.sec == Some(AfterProtect(Received(former.sec.value, ulCount)))
            && n'.sec.value.dl.seqNum == former.sec.value.dl.seqNum + 1 && n'.sec.value.ul.seqNum == ulCount
            && SharesDownlink(n'.sec.value, former.sec.value)
  {
    AfterProtectIs(Received(former.sec.value, ulCount));
  }

  /** A message protected under a security context. */
  function SentUnder(e: Env, s: SecCtx, a: Answers): Sent {
    Sent(a.text, Protected(e, s, a.text, a.stale, a.slack))
  }

  /**
   What the copy does to the numbering: the new context's log is the older one's
   and the accept, and the next message under the older context is protected with
   the same keys under the same COUNT as the accept.
   */
  lemma CopiedContextsShareCount<R>(e: AmfEnv, s: State<R>, r: R, former: R, k: Key, q: ServiceRequest, ulCount: Octet,
                                    a: Answers, b: Answers)
    requires k in s.ues && OldContext(e, s, r, k, q) == Some(former) && former != r && At(s, former).sec.Some?
    requires !q.isContainerShort
    ensures var s' := ServeInitial(e, s, r, k, q, ulCount, a);
            var n, o, o' := At(s', r), At(s', former), AfterSend(e.channel, At(s', former), b);
            && o == At(s, former) && n.sec.Some? && o'.sec.Some?
            && n.sent == o.sent + [SentUnder(e.channel, Received(o.sec.value, ulCount), a)]
            && o'.sent == o.sent + [SentUnder(e.channel, o.sec.value, b)]
            && SharesDownlink(n.sec.value, o'.sec.value) && n.sec.value.dl == o'.sec.value.dl
    ensures IsOneCount(e.channel, At(s, former).sec.value, ulCount, a, b)
  {
    var n := Recalled(At(s, r), At(s, former), ulCount);
    ServeRecalled(e, s, r, n, k, q, ulCount, a);
    ServedOnly(e, s, r, n, former, k, q, a);
    SendIsLogged(e.channel, n, a);
    SendIsLogged(e.channel, At(s, former), b);
    ReceivedSharesCount(e.channel, At(s, former).sec.value, ulCount, a, b);
  }

  /** Keystreams and sequence octets of two messages agree. */
  ghost predicate IsOneCount(e: Env, s: SecCtx, ulCount: Octet, a: Answers, b: Answers) {
    var m, m' := SentUnder(e, Received(s, ulCount), a).nas, SentUnder(e, s, b).nas;
    && CipherStream(Received(s, ulCount), DOWNLINK) == CipherStream(s, DOWNLINK)
    && (s.integrity != 0 ==>
          && |m| >= HEADER_LENGTH && |m'| >= HEADER_LENGTH
          && m[SEQUENCE_NUMBER_OCTET] == m'[SEQUENCE_NUMBER_OCTET] == s.dl.seqNum)
  }

  lemma ReceivedSharesCount(e: Env, s: SecCtx, ulCount: Octet, a: Answers, b: Answers)
    ensures IsOneCount(e, s, ulCount, a, b)
  {
    ProtectedHeader(e, Received(s, ulCount), a.text, a.stale, a.slack);
    ProtectedHeader(e, s, b.text, b.stale, b.slack);
  }

  lemma SendIsLogged(e: Env, n: Nas, a: Answers)
    requires n.sec.Some?
    ensures var n' := AfterSend(e, n, a);
            && n'.sec == Some(n.sec.value.(dl := Count(n.sec.value.dl.overflow, n.sec.value.dl.seqNum + 1)))
            && n'.sent == n.sent + [SentUnder(e, n.sec.value, a)]
  {
    AfterProtectIs(n.sec.value);
  }

  /** An accepted Service Request changes no other context. */
  lemma ServedOnly<R>(e: AmfEnv, s: State<R>, r: R, n: Nas, other: R, k: Key, q: ServiceRequest, a: Answers)
    requires n.sec.Some? && q.isDecoded && other != r
    ensures var s' := ServeWith(e, s, r, n, k, q, a);
            && At(s', r) == AfterServiceAccept(e.channel, n, q, a) && At(s', other) == At(s, other)
            && (!q.isContainerShort ==>
                  At(s', r).sec == AfterSend(e.channel, n, a).sec && At(s', r).sent == AfterSend(e.channel, n, a).sent)
  {
  }

  // ---- Deregistration ----

  /**
   A UE that deregisters with the GUTI it was given is no longer found under its
   AMF identity or SUPI, but its GUTI entry outlives it: the text the request
   names is never the text the entry is stored under.
   */
  lemma DeregistrationLeavesGuti<R>(e: AmfEnv, s: State<R>, k: Key, plmn: string, t: Tmsi, isSwitchOff: bool,
                                    i: Inputs<R>)
    requires Inv(e, s) && k.amf in s.byAmf && (isSwitchOff || i.answers.encodes)
    requires Guti.Allocated(plmn, e.amf, t) in s.byGuti
    requires var n := At(s, s.byAmf[k.amf]); Key(n.id.ran, n.id.amf) in s.ues
    ensures var r, g := s.byAmf[k.amf], Guti.Allocated(plmn, e.amf, t);
            var s' := Dispatch(e, s, k, Deregistration(Guti.Named(plmn, e.amf, t), isSwitchOff), i);
            && At(s', r).state == Deregistered
            && k.amf !in s'.byAmf && Guti.Supi(At(s, r).id.imsi) !in s'.bySupi
            && g in s'.byGuti && s'.byGuti[g] == s.byGuti[g]
  {
    Guti.NamedIsNotAllocated(plmn, e.amf, t);
  }
}

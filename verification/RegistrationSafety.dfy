/**
 What every event keeps, and what therefore holds in every state the AMF can
 reach: exclusion of the common procedures, security of registered contexts,
 resolution of the recorded identities, and stability of GUTIs.
 */
module RegistrationSafety {
  import opened Wrappers
  import opened Octets
  import opened NasSecurity
  import opened NasFrame
  import opened NasUplink
  import opened NasChannel
  import opened NasContexts
  import opened Registration
  import Guti

  ghost predicate AllSound<R>(e: AmfEnv, s: State<R>) {
    forall r :: r in s.nas ==> Sound(e.channel, s.nas[r])
  }

  /**
   Both identities are recorded for a SUPI or none; UE contexts carry the
   identities of their key; SUPIs of UE contexts and new connections lead to one.
   */
  ghost predicate Routed<R>(s: State<R>) {
    && s.supiAmf.Keys == s.supiRan.Keys
    && (forall k :: k in s.ues ==> s.ues[k].ran == k.ran && s.ues[k].amf == k.amf)
    && (forall supi :: supi in s.supiUe ==> s.supiUe[supi] in s.ues)
    && (forall j :: 0 <= j < |s.queue| ==> IsPlaced(s.ues, s.queue[j]))
  }

  /** A new connection has its UE context, and only a new connection names a GUTI. */
  ghost predicate IsPlaced(ues: map<Key, UeContext>, ind: Indication) {
    (ind.isEstablishment ==> ind.key in ues) && (ind.guti.Some? ==> ind.isEstablishment)
  }

  /** The pair recorded for a SUPI leads to a UE context. */
  ghost predicate Resolves<R>(s: State<R>) {
    forall supi :: supi in s.supiAmf && supi in s.supiRan ==> Key(s.supiRan[supi], s.supiAmf[supi]) in s.ues
  }

  ghost predicate IsIssued(e: AmfEnv, tmsis: set<nat>, g: string) {
    exists plmn: string, t: Tmsi :: Guti.IsPlmn(plmn) && t in tmsis && g == Guti.Allocated(plmn, e.amf, t)
  }

  /** Every bound GUTI was made from an issued TMSI. */
  ghost predicate AllIssued<R>(e: AmfEnv, s: State<R>) {
    && (forall g :: g in s.byGuti ==> IsIssued(e, s.tmsis, g))
    && (forall k :: k in s.ues ==> Guti.IsPlmn(s.ues[k].plmn))
  }

  ghost predicate Inv<R>(e: AmfEnv, s: State<R>) {
    WellFormed(s) && AllSound(e, s) && Routed(s) && AllIssued(e, s) && AllReadable(s)
  }

  /** Nothing is forgotten: contexts and their security, UE contexts, recorded SUPIs, issued TMSIs. */
  ghost predicate Evolves<R>(s: State<R>, s': State<R>) {
    && (forall r :: r in s.nas ==> r in s'.nas && KeepsSecurity(s.nas[r], s'.nas[r]))
    && (forall k :: k in s.ues ==> k in s'.ues)
    && (forall supi :: supi in s.supiAmf ==> supi in s'.supiAmf)
    && s.tmsis <= s'.tmsis
  }

  /** The invariant is kept and nothing forgotten. */
  ghost predicate Kept<R>(e: AmfEnv, s: State<R>, s': State<R>) {
    Inv(e, s') && Evolves(s, s')
  }

  /** GUTIs, TMSIs and the queue are left alone. */
  ghost predicate LeavesGutis<R>(s: State<R>, s': State<R>) {
    s'.byGuti == s.byGuti && s'.tmsis == s.tmsis && s'.lastTmsi == s.lastTmsi && s'.queue == s.queue
  }

  /** A step after which recorded pairs still resolve. */
  ghost predicate Good<R>(e: AmfEnv, s: State<R>, s': State<R>) {
    Kept(e, s, s') && (Resolves(s) ==> Resolves(s'))
  }

  /** A good step that leaves GUTIs and the queue alone. */
  ghost predicate Quiet<R>(e: AmfEnv, s: State<R>, s': State<R>) {
    Good(e, s, s') && LeavesGutis(s, s')
  }

  lemma KeptTrans<R>(e: AmfEnv, s: State<R>, s1: State<R>, s2: State<R>)
    requires Kept(e, s, s1) && Kept(e, s1, s2)
    ensures Kept(e, s, s2)
  {
  }

  lemma QuietTrans<R>(e: AmfEnv, s: State<R>, s1: State<R>, s2: State<R>)
    requires Quiet(e, s, s1) && Quiet(e, s1, s2)
    ensures Quiet(e, s, s2)
  {
  }

  // ---- The updates handlers are made of ----

  lemma PutQuiet<R>(e: AmfEnv, s: State<R>, r: R, n: Nas)
    requires Inv(e, s) && Sound(e.channel, n) && (r in s.nas ==> KeepsSecurity(s.nas[r], n))
    ensures Quiet(e, s, Put(s, r, n)) && r in Put(s, r, n).nas
  {
  }

  lemma BindAmfQuiet<R>(e: AmfEnv, s: State<R>, amf: nat, r: R)
    requires Inv(e, s) && r in s.nas
    ensures Quiet(e, s, BindAmf(s, amf, r))
  {
  }

  lemma BindSupiQuiet<R>(e: AmfEnv, s: State<R>, supi: string, r: R)
    requires Inv(e, s) && r in s.nas
    ensures Quiet(e, s, BindSupi(s, supi, r))
  {
  }

  lemma BindIdsQuiet<R>(e: AmfEnv, s: State<R>, supi: string, k: Key)
    requires Inv(e, s) && k in s.ues
    ensures Quiet(e, s, BindIds(s, supi, k))
  {
  }

  /** A pair recorded for a SUPI resolves exactly if it has a UE context. */
  lemma BindIdsKept<R>(e: AmfEnv, s: State<R>, supi: string, k: Key)
    requires Inv(e, s)
    ensures Kept(e, s, BindIds(s, supi, k)) && LeavesGutis(s, BindIds(s, supi, k))
    ensures k !in s.ues ==> !Resolves(BindIds(s, supi, k))
  {
    var s' := BindIds(s, supi, k);
    assert supi in s'.supiAmf && supi in s'.supiRan && Key(s'.supiRan[supi], s'.supiAmf[supi]) == k;
  }

  lemma BindUeQuiet<R>(e: AmfEnv, s: State<R>, k: Key, supi: string)
    requires Inv(e, s)
    ensures Quiet(e, s, BindUe(s, k, supi))
  {
    if k in s.ues {
      BindUeRouted(s, k, supi);
      BindUeIssued(e, s, k, supi);
    }
  }

  lemma BindUeRouted<R>(s: State<R>, k: Key, supi: string)
    requires Routed(s) && k in s.ues
    ensures Routed(BindUe(s, k, supi)) && Evolves(s, BindUe(s, k, supi))
  {
  }

  lemma BindUeIssued<R>(e: AmfEnv, s: State<R>, k: Key, supi: string)
    requires AllIssued(e, s) && k in s.ues
    ensures AllIssued(e, BindUe(s, k, supi))
  {
  }

  lemma AtSound<R>(e: AmfEnv, s: State<R>, r: R)
    requires Inv(e, s)
    ensures Sound(e.channel, At(s, r))
    ensures r in s.nas ==> At(s, r) == s.nas[r]
  {
  }

  /** A put and the index entries that go with a subscriber's arrival. */
  lemma ArrivalQuiet<R>(e: AmfEnv, s: State<R>, r: R, n: Nas, k: Key, supi: string)
    requires Inv(e, s) && SoundStep(e.channel, At(s, r), n) && r in s.nas && k in s.ues
    ensures Quiet(e, s, BindSupi(BindIds(Put(s, r, n), supi, k), supi, r))
    ensures Quiet(e, s, BindSupi(BindIds(BindAmf(Put(s, r, n), k.amf, r), supi, k), supi, r))
  {
    var s1 := Put(s, r, n);
    PutQuiet(e, s, r, n);
    ArrivalIndexes(e, s, s1, r, k, supi);
    BindAmfQuiet(e, s1, k.amf, r);
    QuietTrans(e, s, s1, BindAmf(s1, k.amf, r));
    ArrivalIndexes(e, s, BindAmf(s1, k.amf, r), r, k, supi);
  }

  lemma ArrivalIndexes<R>(e: AmfEnv, s: State<R>, s1: State<R>, r: R, k: Key, supi: string)
    requires Quiet(e, s, s1) && r in s1.nas && k in s1.ues
    ensures Quiet(e, s, BindSupi(BindIds(s1, supi, k), supi, r))
  {
    var s2 := BindIds(s1, supi, k);
    BindIdsQuiet(e, s1, supi, k);
    BindSupiQuiet(e, s2, supi, r);
    QuietTrans(e, s, s1, s2);
    QuietTrans(e, s, s2, BindSupi(s2, supi, r));
  }

  // ---- Handlers ----

  lemma ReboundQuiet<R>(e: AmfEnv, s: State<R>, ind: Indication)
    requires Inv(e, s) && IsPlaced(s.ues, ind)
    ensures Quiet(e, s, Rebound(s, ind))
  {
    if ind.guti.Some? && ind.guti.value in s.byGuti {
      var r := s.byGuti[ind.guti.value];
      var n := Moved(At(s, r), ind.guti.value, ind.key);
      AtSound(e, s, r);
      SameSecurity(e.channel, At(s, r), n);
      ArrivalQuiet(e, s, r, n, ind.key, Guti.Supi(n.id.imsi));
    }
  }

  lemma ReboundKeys<R>(s: State<R>, ind: Indication)
    requires WellFormed(s)
    ensures Rebound(s, ind).nas.Keys == s.nas.Keys
    ensures Lookup(s, ind).Some? ==> Lookup(s, ind).value in s.nas
  {
  }

  /** Receiving and rearming are operations that leave the log alone. */
  lemma ReceiveSound(e: Env, n: Nas, seqNum: Octet)
    requires Sound(e, n) && n.sec.Some?
    ensures SoundStep(e, n, n.(sec := Some(Received(n.sec.value, seqNum))))
    ensures SoundStep(e, n, n.(sec := Some(Rearmed(n.sec.value))))
  {
    OperatedKeepsSound(e, n, Receive(seqNum));
    OperatedKeepsSound(e, n, Rearm);
  }

  lemma UplinkSound(e: AmfEnv, n: Nas, msg: OctetString)
    requires Sound(e.channel, n) && Readable(msg)
    ensures SoundStep(e.channel, n, ContextAfterUplink(n, msg))
  {
    if n.sec.Some? {
      UplinkIsReceive(n.sec.value, msg);
      if SecurityHeader(msg).Some? && IsChecked(SecurityHeader(msg).value) {
        ReceiveSound(e.channel, n, msg[SEQUENCE_NUMBER_OCTET]);
      }
    }
  }

  lemma RegisterIdentityQuiet<R>(e: AmfEnv, s: State<R>, r: R, k: Key, identity: MobileIdentity)
    requires Inv(e, s) && r in s.nas && k in s.ues
    ensures Quiet(e, s, RegisterIdentity(s, r, k, identity))
  {
    AtSound(e, s, r);
    match identity
    case Suci(imsi) =>
      if imsi.Some? {
        SameSecurity(e.channel, At(s, r), WithSuci(At(s, r), imsi.value));
        ArrivalQuiet(e, s, r, WithSuci(At(s, r), imsi.value), k, Guti.Supi(imsi.value));
      }
    case FiveGGuti =>
      SameSecurity(e.channel, At(s, r), WithGuti(At(s, r)));
      PutQuiet(e, s, r, WithGuti(At(s, r)));
    case OtherIdentity =>
  }

  lemma ArrivingSound(e: Env, n: Nas, k: Key)
    requires Sound(e, n)
    ensures SoundStep(e, n, Arriving(n, k))
  {
    if n.sec.Some? {
      ReceiveSound(e, n, 0);
    }
  }

  lemma RegisterQuiet<R>(e: AmfEnv, s: State<R>, r: R, k: Key, q: RegistrationRequest, a: Answers)
    requires Inv(e, s) && r in s.nas
    ensures Quiet(e, s, Register(e, s, r, k, q, a))
  {
    if k in s.ues {
      var s1 := RegisterIdentity(s, r, k, q.identity);
      var s2 := Arrive(s1, r, k);
      RegisterIdentityQuiet(e, s, r, k, q.identity);
      ArriveQuiet(e, s1, r, k);
      QuietTrans(e, s, s1, s2);
      RegisterTypeQuiet(e, s2, r, q, a);
      QuietTrans(e, s, s2, RegisterType(e, s2, r, q, a));
    }
  }

  lemma RegisterTypeQuiet<R>(e: AmfEnv, s: State<R>, r: R, q: RegistrationRequest, a: Answers)
    requires Inv(e, s) && r in s.nas
    ensures Quiet(e, s, RegisterType(e, s, r, q, a))
  {
    if q.regType.Some? && q.ngksi.Some? {
      var n := Requesting(At(s, r), q.ngksi.value, q.capability);
      AtSound(e, s, r);
      SameSecurity(e.channel, At(s, r), n);
      RegistrationTypeKeepsSound(e.channel, n, q.regType.value, a);
      PutQuiet(e, s, r, AfterRegistrationType(e.channel, n, q.regType.value, a));
    }
  }

  lemma ArriveQuiet<R>(e: AmfEnv, s: State<R>, r: R, k: Key)
    requires Inv(e, s) && r in s.nas
    ensures Quiet(e, s, Arrive(s, r, k)) && r in Arrive(s, r, k).nas
  {
    var n := Arriving(At(s, r), k);
    var s1 := BindAmf(s, k.amf, r);
    var s2 := Put(s1, r, n);
    BindAmfQuiet(e, s, k.amf, r);
    AtSound(e, s, r);
    ArrivingSound(e.channel, At(s, r), k);
    PutQuiet(e, s1, r, n);
    QuietTrans(e, s, s1, s2);
    BindUeQuiet(e, s2, k, Guti.Supi(n.id.imsi));
    QuietTrans(e, s, s2, BindUe(s2, k, Guti.Supi(n.id.imsi)));
  }

  lemma NewSound(e: Env, n: Nas)
    requires n.running == NONE_RUNNING && n.state == Invalid && n.sec.None?
    ensures Sound(e, n)
  {
  }

  /** An Identity Response under a pair without a UE context records that pair all the same. */
  lemma IdentifyKept<R>(e: AmfEnv, s: State<R>, k: Key, imsi: string, i: Inputs<R>)
    requires Inv(e, s) && i.spare !in s.nas
    ensures Kept(e, s, Identify(s, k, imsi, i)) && LeavesGutis(s, Identify(s, k, imsi, i))
    ensures if k in s.ues then Good(e, s, Identify(s, k, imsi, i)) else !Resolves(Identify(s, k, imsi, i))
  {
    var supi := Guti.Supi(imsi);
    var s1 := BindUe(s, k, supi);
    BindUeQuiet(e, s, k, supi);
    SameUes(s, k, supi);
    FindQuiet(e, s, s1, k, i.spare);
    var r := if k.amf in s1.byAmf then s1.byAmf[k.amf] else i.spare;
    var s2 := if k.amf in s1.byAmf then s1 else BindAmf(Put(s1, r, NEW_NAS), k.amf, r);
    IdentifyContext(e, s, s2, r, k, imsi, i.answers);
    RecordKept(e, s, Put(s2, r, AfterIdentity(Identified(At(s2, r), k, imsi), i.answers)), supi, k);
  }

  lemma SameUes<R>(s: State<R>, k: Key, supi: string)
    ensures BindUe(s, k, supi).ues.Keys == s.ues.Keys && BindUe(s, k, supi).nas == s.nas
  {
  }

  lemma FindQuiet<R>(e: AmfEnv, s: State<R>, s1: State<R>, k: Key, spare: R)
    requires Quiet(e, s, s1) && spare !in s1.nas
    ensures var r := if k.amf in s1.byAmf then s1.byAmf[k.amf] else spare;
            var s2 := if k.amf in s1.byAmf then s1 else BindAmf(Put(s1, r, NEW_NAS), k.amf, r);
            Quiet(e, s, s2) && r in s2.nas && s2.ues == s1.ues
  {
    if k.amf !in s1.byAmf {
      NewSound(e.channel, NEW_NAS);
      AdmitQuiet(e, s1, spare, NEW_NAS, k);
      QuietTrans(e, s, s1, BindAmf(Put(s1, spare, NEW_NAS), k.amf, spare));
    }
  }

  lemma RecordKept<R>(e: AmfEnv, s: State<R>, s1: State<R>, supi: string, k: Key)
    requires Quiet(e, s, s1) && (k in s.ues <==> k in s1.ues)
    ensures var s' := BindIds(s1, supi, k);
            && Kept(e, s, s') && LeavesGutis(s, s')
            && if k in s.ues then Good(e, s, s') else !Resolves(s')
  {
    BindIdsKept(e, s1, supi, k);
    if k in s.ues {
      BindIdsQuiet(e, s1, supi, k);
    }
  }

  /** A new context, found under the AMF identity of the message. */
  lemma AdmitQuiet<R>(e: AmfEnv, s: State<R>, r: R, n: Nas, k: Key)
    requires Inv(e, s) && r !in s.nas && Sound(e.channel, n)
    ensures Quiet(e, s, BindAmf(Put(s, r, n), k.amf, r))
  {
    PutQuiet(e, s, r, n);
    BindAmfQuiet(e, Put(s, r, n), k.amf, r);
    QuietTrans(e, s, Put(s, r, n), BindAmf(Put(s, r, n), k.amf, r));
  }

  lemma IdentifyContext<R>(e: AmfEnv, s: State<R>, s2: State<R>, r: R, k: Key, imsi: string, a: Answers)
    requires Quiet(e, s, s2) && r in s2.nas
    ensures var s3 := Put(s2, r, AfterIdentity(Identified(At(s2, r), k, imsi), a));
            Quiet(e, s, s3) && s3.ues == s2.ues
  {
    var n1 := Identified(At(s2, r), k, imsi);
    AtSound(e, s2, r);
    SameSecurity(e.channel, At(s2, r), n1);
    var n2 := n1.(state := CommonProcedureInitiated);
    SameSecurity(e.channel, n1, n2);
    RunRegistrationKeepsSound(e.channel, n2, a);
    PutQuiet(e, s2, r, AfterIdentity(n1, a));
    QuietTrans(e, s, s2, Put(s2, r, AfterIdentity(n1, a)));
  }

  // ---- Service Request ----

  lemma ServiceAcceptSound(e: Env, n: Nas, q: ServiceRequest, a: Answers)
    requires Sound(e, n) && n.sec.Some?
    ensures SoundStep(e, n, AfterServiceAccept(e, n, q, a))
  {
    SendKeepsSound(e, n, a);
  }

  lemma RecalledSound(e: Env, n: Nas, former: Nas, ulCount: Octet)
    requires Sound(e, n) && Sound(e, former) && former.sec.Some?
    ensures SoundStep(e, n, Recalled(n, former, ulCount))
  {
    ReceiveSound(e, former, ulCount);
  }

  lemma ServiceRejectSound(e: Env, n: Nas, a: Answers)
    requires Sound(e, n)
    ensures SoundStep(e, n, AfterServiceReject(n, a))
  {
  }

  lemma UplinkCountSound(e: Env, n: Nas, ulCount: Octet)
    requires Sound(e, n)
    ensures SoundStep(e, n, WithUplinkCount(n, ulCount))
  {
    if n.sec.Some? {
      ReceiveSound(e, n, ulCount);
    }
  }

  /** Even the state a crash leaves is a good one. */
  lemma DownQuiet<R>(e: AmfEnv, s: State<R>)
    requires Inv(e, s)
    ensures Quiet(e, s, s.(isDown := true))
  {
  }

  lemma ServeInitialQuiet<R>(e: AmfEnv, s: State<R>, r: R, k: Key, q: ServiceRequest, ulCount: Octet, a: Answers)
    requires Inv(e, s) && r in s.nas
    ensures Quiet(e, s, ServeInitial(e, s, r, k, q, ulCount, a))
  {
    if k in s.ues {
      var former := OldContext(e, s, r, k, q);
      AtSound(e, s, r);
      if former.None? {
        ServeWithQuiet(e, s, r, At(s, r), k, q, a);
      } else if At(s, former.value).sec.Some? {
        AtSound(e, s, former.value);
        RecalledSound(e.channel, At(s, r), At(s, former.value), ulCount);
        ServeWithQuiet(e, s, r, Recalled(At(s, r), At(s, former.value), ulCount), k, q, a);
      } else {
        DownQuiet(e, s);
      }
    }
  }

  lemma ServeWithQuiet<R>(e: AmfEnv, s: State<R>, r: R, n: Nas, k: Key, q: ServiceRequest, a: Answers)
    requires Inv(e, s) && r in s.nas && k in s.ues && SoundStep(e.channel, At(s, r), n)
    ensures Quiet(e, s, ServeWith(e, s, r, n, k, q, a))
  {
    AtSound(e, s, r);
    if n.sec.None? || !q.isDecoded {
      ServiceRejectSound(e.channel, n, a);
      PutQuiet(e, s, r, AfterServiceReject(n, a));
    } else {
      ServiceAcceptSound(e.channel, n, q, a);
      AcceptedQuiet(e, s, r, AfterServiceAccept(e.channel, n, q, a), k, Guti.Supi(n.id.imsi));
    }
  }

  lemma AcceptedQuiet<R>(e: AmfEnv, s: State<R>, r: R, n: Nas, k: Key, supi: string)
    requires Inv(e, s) && r in s.nas && k in s.ues && SoundStep(e.channel, At(s, r), n)
    ensures Quiet(e, s, BindUe(BindIds(BindAmf(Put(s, r, n), k.amf, r), supi, k), k, supi))
  {
    var s1 := Put(s, r, n);
    var s2 := BindAmf(s1, k.amf, r);
    var s3 := BindIds(s2, supi, k);
    PutQuiet(e, s, r, n);
    BindAmfQuiet(e, s1, k.amf, r);
    QuietTrans(e, s, s1, s2);
    BindIdsQuiet(e, s2, supi, k);
    QuietTrans(e, s, s2, s3);
    BindUeQuiet(e, s3, k, supi);
    QuietTrans(e, s, s3, BindUe(s3, k, supi));
  }

  lemma ServeConnectedQuiet<R>(e: AmfEnv, s: State<R>, r: R, k: Key, q: ServiceRequest, a: Answers)
    requires Inv(e, s) && r in s.nas
    ensures Quiet(e, s, ServeConnected(e, s, r, k, q, a))
  {
    if k in s.ues {
      var n := At(s, r);
      AtSound(e, s, r);
      ServiceRejectSound(e.channel, n, a);
      SendKeepsSound(e.channel, n, a);
      PutQuiet(e, s, r, AfterServiceReject(n, a));
      var s1 := BindAmf(s, k.amf, r);
      BindAmfQuiet(e, s, k.amf, r);
      var n1 := if Activates(q) then AfterSend(e.channel, n, a) else AfterServiceReject(n, a);
      PutQuiet(e, s1, r, n1);
      QuietTrans(e, s, s1, Put(s1, r, n1));
    }
  }

  // ---- Common procedures ----

  lemma AuthenticateQuiet<R>(e: AmfEnv, s: State<R>, k: Key, cause: nat, a: Answers)
    requires Inv(e, s)
    ensures Quiet(e, s, Authenticate(e, s, k, a)) && Quiet(e, s, FailAuthentication(s, k, cause, a))
  {
    if k.amf in s.byAmf {
      var r := s.byAmf[k.amf];
      AtSound(e, s, r);
      AuthenticationResponseKeepsSound(e.channel, At(s, r), a);
      PutQuiet(e, s, r, AfterAuthenticationResponse(e.channel, At(s, r), a));
      AuthenticationFailureKeepsSound(e.channel, At(s, r), cause, a);
      PutQuiet(e, s, r, AfterAuthenticationFailure(At(s, r), cause, a));
    }
  }

  // ---- Establishment ----

  lemma EstablishQuiet<R>(e: AmfEnv, s: State<R>, found: Option<R>, k: Key, m: Message, ulCount: Octet, i: Inputs<R>)
    requires Inv(e, s) && i.spare !in s.nas && (found.Some? ==> found.value in s.nas)
    ensures Quiet(e, s, Establish(e, s, found, k, m, ulCount, i))
  {
    var s1, r := Admitted(s, found, k, i.spare), found.GetOr(i.spare);
    if found.None? {
      NewSound(e.channel, NewContext(k));
      AdmitQuiet(e, s, r, NewContext(k), k);
    } else {
      BindAmfQuiet(e, s, k.amf, r);
    }
    if m.Registration? {
      RegisterQuiet(e, s1, r, k, m.registration, i.answers);
      QuietTrans(e, s, s1, Register(e, s1, r, k, m.registration, i.answers));
    } else if m.Service? {
      ServeEstablished(e, s1, r, k, m.service, ulCount, i.answers);
      QuietTrans(e, s, s1, Establish(e, s, found, k, m, ulCount, i));
    }
  }

  lemma ServeEstablished<R>(e: AmfEnv, s: State<R>, r: R, k: Key, q: ServiceRequest, ulCount: Octet, a: Answers)
    requires Inv(e, s) && r in s.nas
    ensures Quiet(e, s, ServeInitial(e, Put(s, r, WithUplinkCount(At(s, r), ulCount)), r, k, q, ulCount, a))
  {
    var s1 := Put(s, r, WithUplinkCount(At(s, r), ulCount));
    AtSound(e, s, r);
    UplinkCountSound(e.channel, At(s, r), ulCount);
    PutQuiet(e, s, r, WithUplinkCount(At(s, r), ulCount));
    ServeInitialQuiet(e, s1, r, k, q, ulCount, a);
    QuietTrans(e, s, s1, ServeInitial(e, s1, r, k, q, ulCount, a));
  }

  // ---- Steps that change GUTIs or the queue ----

  lemma GoodTrans<R>(e: AmfEnv, s: State<R>, s1: State<R>, s2: State<R>)
    requires Good(e, s, s1) && Good(e, s1, s2)
    ensures Good(e, s, s2)
  {
  }

  lemma AllocateGood<R>(e: AmfEnv, s: State<R>, r: R, k: Key, t: Tmsi)
    requires Inv(e, s) && r in s.nas && k in s.ues
    ensures Good(e, s, Allocate(s, r, k, t, Guti.Allocated(s.ues[k].plmn, e.amf, t)))
  {
    var g := Guti.Allocated(s.ues[k].plmn, e.amf, t);
    var s' := Allocate(s, r, k, t, g);
    assert IsIssued(e, s'.tmsis, g);
    forall g' | g' in s.byGuti ensures IsIssued(e, s'.tmsis, g') {
      var plmn: string, t': Tmsi :| Guti.IsPlmn(plmn) && t' in s.tmsis && g' == Guti.Allocated(plmn, e.amf, t');
    }
    AllocateRouted(s, r, k, t, g);
  }

  lemma AllocateRouted<R>(s: State<R>, r: R, k: Key, t: Tmsi, g: string)
    requires Routed(s) && k in s.ues
    ensures Routed(Allocate(s, r, k, t, g)) && Evolves(s, Allocate(s, r, k, t, g))
  {
  }

  lemma AcceptSound(e: Env, n: Nas, g: string, isContextRequested: bool, a: Answers)
    requires Sound(e, n)
    ensures SoundStep(e, n, AfterRegistrationAccept(e, Completed(n, g), isContextRequested, a))
  {
    SendKeepsSound(e, Completed(n, g), a);
  }

  lemma CompleteGood<R>(e: AmfEnv, s: State<R>, k: Key, i: Inputs<R>)
    requires Inv(e, s)
    ensures Good(e, s, Complete(e, s, k, i)) && Complete(e, s, k, i).queue == s.queue
  {
    if k in s.ues && k.amf in s.byAmf && !i.answers.isRerouted {
      var r := s.byAmf[k.amf];
      var g := Guti.Allocated(s.ues[k].plmn, e.amf, i.tmsi);
      var s1 := Allocate(s, r, k, i.tmsi, g);
      AllocateGood(e, s, r, k, i.tmsi);
      AtSound(e, s, r);
      AcceptSound(e.channel, At(s, r), g, s.ues[k].isContextRequested, i.answers);
      var n := AfterRegistrationAccept(e.channel, Completed(At(s, r), g), s.ues[k].isContextRequested, i.answers);
      PutQuiet(e, s1, r, n);
      GoodTrans(e, s, s1, Put(s1, r, n));
    }
  }

  lemma UnbindGood<R>(e: AmfEnv, s: State<R>, amf: nat, supi: string, gutis: set<string>)
    requires Inv(e, s)
    ensures Good(e, s, Unbind(s, amf, supi, gutis))
  {
  }

  lemma DeregisterGood<R>(e: AmfEnv, s: State<R>, k: Key, g: string, isSwitchOff: bool, a: Answers)
    requires Inv(e, s)
    ensures Good(e, s, Deregister(s, k, g, isSwitchOff, a)) && Deregister(s, k, g, isSwitchOff, a).queue == s.queue
  {
    if k.amf in s.byAmf {
      var r := s.byAmf[k.amf];
      var n := At(s, r);
      AtSound(e, s, r);
      SameSecurity(e.channel, n, n.(state := Deregistered));
      var s1 := Put(s, r, n.(state := Deregistered));
      PutQuiet(e, s, r, n.(state := Deregistered));
      UnbindGood(e, s1, k.amf, Guti.Supi(n.id.imsi), {g});
      GoodTrans(e, s, s1, Unbind(s1, k.amf, Guti.Supi(n.id.imsi), {g}));
    }
  }

  lemma PutUeGood<R>(e: AmfEnv, s: State<R>, k: Key, plmn: string, isContextRequested: Option<bool>)
    requires Inv(e, s) && Guti.IsPlmn(plmn)
    ensures Quiet(e, s, PutUe(s, k, plmn, isContextRequested))
  {
    PutUeRouted(s, k, plmn, isContextRequested);
  }

  lemma PutUeRouted<R>(s: State<R>, k: Key, plmn: string, isContextRequested: Option<bool>)
    requires Routed(s)
    ensures Routed(PutUe(s, k, plmn, isContextRequested)) && Evolves(s, PutUe(s, k, plmn, isContextRequested))
  {
  }

  lemma QueueGood<R>(e: AmfEnv, s: State<R>, queue: seq<Indication>, nextId: nat)
    requires Inv(e, s) && forall j :: 0 <= j < |queue| ==> IsPlaced(s.ues, queue[j]) && Readable(queue[j].nas)
    ensures Good(e, s, s.(queue := queue, nextId := nextId))
  {
  }

  lemma HandOverGood<R>(e: AmfEnv, s: State<R>, k: Key, plmn: string)
    requires Inv(e, s) && Guti.IsPlmn(plmn)
    ensures Good(e, s, HandOver(s, k, plmn))
  {
    if k.amf in s.byAmf {
      var r := s.byAmf[k.amf];
      var n := At(s, r).(id := At(s, r).id.(ran := k.ran));
      var s1 := PutUe(s, k, plmn, None);
      PutUeGood(e, s, k, plmn, None);
      AtSound(e, s, r);
      SameSecurity(e.channel, At(s, r), n);
      PutQuiet(e, s1, r, n);
      GoodTrans(e, s, s1, Put(s1, r, n));
    }
  }

  lemma ConnectGood<R>(e: AmfEnv, s: State<R>, ran: nat, plmn: string, isContextRequested: bool,
                       sTmsi: Option<string>, nas: OctetString)
    requires Inv(e, s) && Guti.IsPlmn(plmn) && Readable(nas)
    ensures Good(e, s, Connect(e, s, ran, plmn, isContextRequested, sTmsi, nas))
  {
    var k := Key(ran, s.nextId);
    var s1 := PutUe(s, k, plmn, Some(isContextRequested));
    PutUeGood(e, s, k, plmn, Some(isContextRequested));
    var s2 := Connect(e, s, ran, plmn, isContextRequested, sTmsi, nas);
    QueueGood(e, s1, s2.queue, s2.nextId);
    GoodTrans(e, s, s1, s2);
  }

  lemma TransferQuiet<R>(e: AmfEnv, s: State<R>, amf: nat, a: Answers)
    requires Inv(e, s)
    ensures Quiet(e, s, Transfer(e, s, amf, a))
  {
    if amf in s.byAmf {
      var r := s.byAmf[amf];
      AtSound(e, s, r);
      SendKeepsSound(e.channel, At(s, r), a);
      PutQuiet(e, s, r, AfterSend(e.channel, At(s, r), a));
    }
  }

  // ---- The N1 task ----

  lemma SeenQuiet<R>(e: AmfEnv, s: State<R>, ind: Indication)
    requires Inv(e, s) && IsPlaced(s.ues, ind) && Readable(ind.nas)
    ensures Quiet(e, s, Seen(s, ind))
    ensures Seen(s, ind).nas.Keys == s.nas.Keys
    ensures Lookup(s, ind).Some? ==> Lookup(s, ind).value in s.nas
  {
    ReboundQuiet(e, s, ind);
    ReboundKeys(s, ind);
    if Lookup(s, ind).Some? {
      UplinkQuiet(e, Rebound(s, ind), Lookup(s, ind).value, ind.nas);
      QuietTrans(e, s, Rebound(s, ind), Seen(s, ind));
    }
  }

  lemma UplinkQuiet<R>(e: AmfEnv, s: State<R>, r: R, msg: OctetString)
    requires Inv(e, s) && r in s.nas && Readable(msg)
    ensures Quiet(e, s, Put(s, r, ContextAfterUplink(At(s, r), msg)))
    ensures Put(s, r, ContextAfterUplink(At(s, r), msg)).nas.Keys == s.nas.Keys
  {
    AtSound(e, s, r);
    UplinkSound(e, At(s, r), msg);
    PutQuiet(e, s, r, ContextAfterUplink(At(s, r), msg));
  }

  /** The message records a pair without a UE context for its SUPI. */
  ghost predicate IsMisplaced<R>(s: State<R>, k: Key, m: Message) {
    m.IdentityResponse? && m.imsi.Some? && k !in s.ues
  }

  lemma DispatchKept<R>(e: AmfEnv, s: State<R>, k: Key, m: Message, i: Inputs<R>)
    requires Inv(e, s) && i.spare !in s.nas
    ensures var s' := Dispatch(e, s, k, m, i);
            && Kept(e, s, s')
            && (if IsMisplaced(s, k, m) then !Resolves(s') else Good(e, s, s'))
            && (!m.SecurityModeComplete? && !m.Deregistration? ==> LeavesGutis(s, s'))
  {
    match m
    case SecurityModeComplete => CompleteGood(e, s, k, i);
    case IdentityResponse(imsi) => if imsi.Some? { IdentifyKept(e, s, k, imsi.value, i); }
    case Deregistration(g, isSwitchOff) => DeregisterGood(e, s, k, g, isSwitchOff, i.answers);
    case Registration(q) => if k.amf in s.byAmf { RegisterQuiet(e, s, s.byAmf[k.amf], k, q, i.answers); }
    case Service(q) => if k.amf in s.byAmf { ServeConnectedQuiet(e, s, s.byAmf[k.amf], k, q, i.answers); }
    case AuthenticationResponse => AuthenticateQuiet(e, s, k, 0, i.answers);
    case AuthenticationFailure(cause) => AuthenticateQuiet(e, s, k, cause, i.answers);
    case OtherMessage =>
  }

  /** The message of an indication gets through, and is such a one. */
  ghost predicate Misrecords<R>(e: AmfEnv, s: State<R>, ind: Indication, slack: Slack)
    requires Readable(ind.nas)
  {
    var o := Opened(e, s, ind, slack);
    o.Delivered? && !ind.isEstablishment && IsMisplaced(s, ind.key, e.decode(o.text))
  }

  lemma HandleUplinkKept<R>(e: AmfEnv, s: State<R>, ind: Indication, i: Inputs<R>)
    requires Inv(e, s) && i.spare !in s.nas && IsPlaced(s.ues, ind) && Readable(ind.nas)
    ensures var s' := HandleUplink(e, s, ind, i);
            && Kept(e, s, s')
            && if Misrecords(e, s, ind, i.answers.slack) then !Resolves(s') else Good(e, s, s')
  {
    var s1 := Seen(s, ind);
    SeenQuiet(e, s, ind);
    var o := Opened(e, s, ind, i.answers.slack);
    if o.Delivered? {
      if ind.isEstablishment {
        EstablishQuiet(e, s1, Lookup(s, ind), ind.key, e.decode(o.text), o.ulCount, i);
      } else {
        SeenUes(s, ind);
        DispatchKept(e, s1, ind.key, e.decode(o.text), i);
      }
      KeptTrans(e, s, s1, HandleUplink(e, s, ind, i));
    }
  }

  lemma SeenUes<R>(s: State<R>, ind: Indication)
    requires Readable(ind.nas)
    ensures Seen(s, ind).ues == s.ues
  {
    assert Rebound(s, ind).ues == s.ues;
  }

  /** The step handles a message that records a pair without a UE context. */
  ghost predicate IsMisrecord<R>(e: AmfEnv, s: State<R>, ev: Event<R>)
    requires Enabled(s, ev)
  {
    ev.Deliver? && Misrecords(e, s.(queue := s.queue[1..]), s.queue[0], ev.inputs.answers.slack)
  }

  /**
   The invariant is kept, and nothing forgotten, by every event; and recorded
   pairs that resolved go on doing so exactly unless it is such a step.
   */
  lemma NextKept<R>(e: AmfEnv, s: State<R>, ev: Event<R>)
    requires Inv(e, s) && Enabled(s, ev)
    ensures Kept(e, s, Next(e, s, ev))
    ensures if IsMisrecord(e, s, ev) then !Resolves(Next(e, s, ev)) else Good(e, s, Next(e, s, ev))
  {
    match ev
    case Connection(ran, plmn, requested, sTmsi, nas) => ConnectGood(e, s, ran, plmn, requested, sTmsi, nas);
    case Uplink(k, nas) => QueueGood(e, s, Next(e, s, ev).queue, s.nextId);
    case Deliver(i) =>
      var s1 := s.(queue := s.queue[1..]);
      QueueGood(e, s, s1.queue, s.nextId);
      HandleUplinkKept(e, s1, s.queue[0], i);
      KeptTrans(e, s, s1, Next(e, s, ev));
    case DownlinkTransfer(amf, a) => TransferQuiet(e, s, amf, a);
    case ContextRelease(amf) =>
      var imsi := if amf in s.byAmf then At(s, s.byAmf[amf]).id.imsi else "";
      UnbindGood(e, s, amf, Guti.Supi(imsi), {});
    case HandoverNotify(k, plmn) => HandOverGood(e, s, k, plmn);
  }

  // ---- GUTIs ----

  /** The GUTI text whose entry a deregistration in this step would take away. */
  ghost function Named<R>(e: AmfEnv, s: State<R>, ev: Event<R>): Option<string>
    requires Enabled(s, ev)
  {
    if ev.Deliver? && !s.queue[0].isEstablishment then
      match Opened(e, s.(queue := s.queue[1..]), s.queue[0], ev.inputs.answers.slack)
      case Dropped => None
      case Delivered(text, _) =>
        if e.decode(text).Deregistration? then Some(e.decode(text).guti) else None
    else None
  }

  /** No issued GUTI changes hands; one is unbound only if named. */
  ghost predicate GutisKept<R>(e: AmfEnv, s: State<R>, s': State<R>, named: Option<string>) {
    && (forall g :: g in s'.byGuti && IsIssued(e, s.tmsis, g) ==> g in s.byGuti && s'.byGuti[g] == s.byGuti[g])
    && (forall g :: g in s.byGuti && named != Some(g) ==> g in s'.byGuti)
  }

  lemma CompleteKeepsGutis<R>(e: AmfEnv, s: State<R>, k: Key, i: Inputs<R>)
    requires Inv(e, s) && i.tmsi !in s.tmsis && !Guti.Repeats(e.amf.Text())
    ensures GutisKept(e, s, Complete(e, s, k, i), None)
  {
    if k in s.ues && k.amf in s.byAmf && !i.answers.isRerouted {
      var g := Guti.Allocated(s.ues[k].plmn, e.amf, i.tmsi);
      if IsIssued(e, s.tmsis, g) {
        var plmn: string, t: Tmsi :| Guti.IsPlmn(plmn) && t in s.tmsis && g == Guti.Allocated(plmn, e.amf, t);
        Guti.AllocatedInjective(plmn, s.ues[k].plmn, e.amf, t, i.tmsi);
      }
    }
  }

  lemma DispatchKeepsGutis<R>(e: AmfEnv, s: State<R>, k: Key, m: Message, i: Inputs<R>)
    requires Inv(e, s) && i.spare !in s.nas && i.tmsi !in s.tmsis && !Guti.Repeats(e.amf.Text())
    ensures GutisKept(e, s, Dispatch(e, s, k, m, i), if m.Deregistration? then Some(m.guti) else None)
  {
    if m.SecurityModeComplete? {
      CompleteKeepsGutis(e, s, k, i);
    } else if !m.Deregistration? {
      DispatchKept(e, s, k, m, i);
    }
  }

  lemma HandleUplinkKeepsGutis<R>(e: AmfEnv, s: State<R>, ind: Indication, i: Inputs<R>)
    requires Inv(e, s) && i.spare !in s.nas && IsPlaced(s.ues, ind) && Readable(ind.nas)
    requires i.tmsi !in s.tmsis && !Guti.Repeats(e.amf.Text())
    ensures var o := Opened(e, s, ind, i.answers.slack);
            var named := if o.Delivered? && !ind.isEstablishment && e.decode(o.text).Deregistration?
                         then Some(e.decode(o.text).guti) else None;
            GutisKept(e, s, HandleUplink(e, s, ind, i), named)
  {
    var s1 := Seen(s, ind);
    SeenQuiet(e, s, ind);
    var o := Opened(e, s, ind, i.answers.slack);
    if o.Delivered? {
      if ind.isEstablishment {
        EstablishQuiet(e, s1, Lookup(s, ind), ind.key, e.decode(o.text), o.ulCount, i);
        QuietKeepsGutis(e, s, s1, HandleUplink(e, s, ind, i));
      } else {
        var m := e.decode(o.text);
        DispatchKeepsGutis(e, s1, ind.key, m, i);
        SameGutis(e, s, s1, HandleUplink(e, s, ind, i), if m.Deregistration? then Some(m.guti) else None);
      }
    }
  }

  lemma QuietKeepsGutis<R>(e: AmfEnv, s: State<R>, s1: State<R>, s2: State<R>)
    requires LeavesGutis(s, s1) && LeavesGutis(s1, s2)
    ensures GutisKept(e, s, s2, None)
  {
  }

  lemma SameGutis<R>(e: AmfEnv, s: State<R>, s1: State<R>, s2: State<R>, named: Option<string>)
    requires LeavesGutis(s, s1) && GutisKept(e, s1, s2, named)
    ensures GutisKept(e, s, s2, named)
  {
  }

  lemma NextKeepsGutis<R>(e: AmfEnv, s: State<R>, ev: Event<R>)
    requires Inv(e, s) && Enabled(s, ev) && !Guti.Repeats(e.amf.Text())
    ensures GutisKept(e, s, Next(e, s, ev), Named(e, s, ev))
  {
    if ev.Deliver? {
      var s1 := s.(queue := s.queue[1..]);
      QueueGood(e, s, s1.queue, s.nextId);
      HandleUplinkKeepsGutis(e, s1, s.queue[0], ev.inputs);
    }
  }

  // ---- Whole runs ----

  const START_ID: nat := 1

  ghost function Start<R>(): State<R> {
    State(map[], map[], map[], map[], map[], map[], map[], map[], {}, 0, START_ID, [], false)
  }

  /** The events of a run are possible one after another. */
  ghost predicate Possible<R>(e: AmfEnv, s: State<R>, evs: seq<Event<R>>)
    decreases evs
  {
    evs == [] || (Enabled(s, evs[0]) && Possible(e, Next(e, s, evs[0]), evs[1..]))
  }

  ghost function After<R>(e: AmfEnv, s: State<R>, evs: seq<Event<R>>): State<R>
    requires Possible(e, s, evs)
    decreases evs
  {
    if evs == [] then s else After(e, Next(e, s, evs[0]), evs[1..])
  }

  lemma {:induction false} RunKept<R>(e: AmfEnv, s: State<R>, evs: seq<Event<R>>)
    requires Inv(e, s) && Possible(e, s, evs)
    ensures Kept(e, s, After(e, s, evs))
    decreases evs
  {
    if evs != [] {
      var s1 := Next(e, s, evs[0]);
      NextKept(e, s, evs[0]);
      RunKept(e, s1, evs[1..]);
      KeptTrans(e, s, s1, After(e, s1, evs[1..]));
    }
  }

  lemma StartInv<R>(e: AmfEnv)
    ensures Inv(e, Start<R>())
  {
  }

  /** In every reachable state, authentication and security mode control never both run for a context. */
  lemma CommonProcedureExclusion<R>(e: AmfEnv, evs: seq<Event<R>>, r: R)
    requires Possible(e, Start<R>(), evs)
    ensures var s := After(e, Start<R>(), evs);
            r in s.nas ==> !(s.nas[r].running.authentication && s.nas[r].running.securityMode)
  {
    StartInv<R>(e);
    RunKept(e, Start<R>(), evs);
  }

  /**
   In every reachable state a registered context has a security context, and
   once it has one it never loses it.
   */
  lemma RegisteredIsSecured<R>(e: AmfEnv, evs: seq<Event<R>>, more: seq<Event<R>>, r: R)
    requires Possible(e, Start<R>(), evs) && Possible(e, After(e, Start<R>(), evs), more)
    ensures var s := After(e, Start<R>(), evs);
            r in s.nas ==>
              && (s.nas[r].state == Registered ==> s.nas[r].sec.Some?)
              && (s.nas[r].sec.Some? ==> var s' := After(e, s, more); r in s'.nas && s'.nas[r].sec.Some?)
  {
    StartInv<R>(e);
    RunKept(e, Start<R>(), evs);
    RunKept(e, After(e, Start<R>(), evs), more);
  }

  /**
   In every reachable state, of every context that has security: the messages its
   handlers have protected since the counters were last at zero are numbered in
   order, message 0 being the Security Mode Command; the downlink counter is
   their number, both overflow counters are zero; and a UE with the keys of the
   context recovers the text of each of them, under ciphering algorithms 0 to 2.
   */
  lemma DownlinkNumbering<R>(e: AmfEnv, evs: seq<Event<R>>, r: R)
    requires Possible(e, Start<R>(), evs)
    requires r in After(e, Start<R>(), evs).nas && After(e, Start<R>(), evs).nas[r].sec.Some?
    ensures var n := After(e, Start<R>(), evs).nas[r];
            var ch := Channel(n.sec.value, n.sent);
            && CountsFollow(ch) && AllNumbered(ch)
            && (n.sec.value.encryption <= 2 ==> forall k :: 0 <= k < |n.sent| ==> IsOpened(e.channel, ch, k))
  {
    StartInv<R>(e);
    RunKept(e, Start<R>(), evs);
    var n := After(e, Start<R>(), evs).nas[r];
    BornNumbered(e.channel, Channel(n.sec.value, n.sent));
  }

  /**
   In every reachable state, of every context that has security: a UE that takes
   its MAC and its keystream under the whole COUNT is understood, whatever the
   primitives are, exactly if its overflow counter is still zero, or there is
   neither a MAC nor anything ciphered.
   */
  lemma StandardPeerWhileZero<R>(e: AmfEnv, evs: seq<Event<R>>, r: R, t: Octet, count: Count, text: OctetString,
                                 slack: Slack)
    requires Possible(e, Start<R>(), evs) && IsChecked(t)
    requires var s := After(e, Start<R>(), evs); r in s.nas && s.nas[r].sec.Some? && s.nas[r].sec.value.encryption <= 2
    ensures var s := After(e, Start<R>(), evs).nas[r].sec.value;
            (forall c: Primitives :: Understands(c, s, t, count, text, slack))
            <==> count.overflow == 0 || (!IsIntegrityProtected(s) && (s.encryption == 0 || text == []))
  {
    DownlinkNumbering(e, evs, r);
    StandardPeerIsUnderstood(After(e, Start<R>(), evs).nas[r].sec.value, t, count, text, slack);
  }

  /**
   In every reachable state, under a MAC: two logged messages carry the same COUNT
   exactly if their numbers differ by a multiple of 256.
   */
  lemma CountsRepeat<R>(e: AmfEnv, evs: seq<Event<R>>, r: R, j: nat, k: nat)
    requires Possible(e, Start<R>(), evs)
    requires var s := After(e, Start<R>(), evs); r in s.nas && s.nas[r].sec.Some? && s.nas[r].sec.value.integrity != 0
    requires j < |After(e, Start<R>(), evs).nas[r].sent| && k < |After(e, Start<R>(), evs).nas[r].sent|
    ensures var n := After(e, Start<R>(), evs).nas[r];
            && n.sec.value.dl.overflow == 0 && |n.sent[j].nas| >= HEADER_LENGTH && |n.sent[k].nas| >= HEADER_LENGTH
            && (n.sent[j].nas[SEQUENCE_NUMBER_OCTET] == n.sent[k].nas[SEQUENCE_NUMBER_OCTET] <==> j % 256 == k % 256)
  {
    DownlinkNumbering(e, evs, r);
    var n := After(e, Start<R>(), evs).nas[r];
    var ch := Channel(n.sec.value, n.sent);
    assert IsNumbered(ch, j) && IsNumbered(ch, k);
    SameOctet(n.sent[j].nas[SEQUENCE_NUMBER_OCTET], n.sent[k].nas[SEQUENCE_NUMBER_OCTET]);
  }

  lemma SameOctet(a: Octet, b: Octet)
    ensures a == b <==> a as nat == b as nat
  {
  }

  lemma BornNumbered(e: Env, ch: Channel)
    requires Born(e, ch)
    ensures CountsFollow(ch) && AllNumbered(ch)
    ensures ch.ctx.encryption <= 2 ==> forall k :: 0 <= k < |ch.sent| ==> IsOpened(e, ch, k)
  {
    var ops: seq<Op> :| Run(e, ops) == ch;
    Numbering(e, ops);
    EverythingOpens(e, ops);
  }

  /**
   In every reachable state both identities are recorded for a SUPI or none, and
   every UE context and every queued new connection leads to a UE context that
   carries the identities of its key.
   */
  lemma UeContextsAgree<R>(e: AmfEnv, evs: seq<Event<R>>)
    requires Possible(e, Start<R>(), evs)
    ensures var s := After(e, Start<R>(), evs);
            && (forall supi :: supi in s.supiAmf <==> supi in s.supiRan)
            && (forall k :: k in s.ues ==> s.ues[k].ran == k.ran && s.ues[k].amf == k.amf)
            && (forall supi :: supi in s.supiUe ==> s.supiUe[supi] in s.ues)
            && (forall j :: 0 <= j < |s.queue| && s.queue[j].isEstablishment ==> s.queue[j].key in s.ues)
  {
    StartInv<R>(e);
    RunKept(e, Start<R>(), evs);
    var s := After(e, Start<R>(), evs);
    assert forall supi :: supi in s.supiAmf <==> supi in s.supiAmf.Keys;
    assert forall supi :: supi in s.supiRan <==> supi in s.supiRan.Keys;
    assert forall j :: 0 <= j < |s.queue| ==> IsPlaced(s.ues, s.queue[j]);
  }

  /** Throughout a run, the pair recorded for a SUPI leads to a UE context. */
  ghost predicate AlwaysResolves<R>(e: AmfEnv, s: State<R>, evs: seq<Event<R>>)
    requires Possible(e, s, evs)
    decreases evs
  {
    Resolves(s) && (evs != [] ==> AlwaysResolves(e, Next(e, s, evs[0]), evs[1..]))
  }

  /** Some event of a run handles an Identity Response under a pair without a UE context. */
  ghost predicate SomeMisrecord<R>(e: AmfEnv, s: State<R>, evs: seq<Event<R>>)
    requires Possible(e, s, evs)
    decreases evs
  {
    evs != [] && (IsMisrecord(e, s, evs[0]) || SomeMisrecord(e, Next(e, s, evs[0]), evs[1..]))
  }

  /** Recorded pairs resolve throughout a run exactly if no event of it is such a one. */
  lemma {:induction false} RoutingExactly<R>(e: AmfEnv, s: State<R>, evs: seq<Event<R>>)
    requires Inv(e, s) && Resolves(s) && Possible(e, s, evs)
    ensures AlwaysResolves(e, s, evs) <==> !SomeMisrecord(e, s, evs)
    decreases evs
  {
    if evs != [] {
      var s1 := Next(e, s, evs[0]);
      NextKept(e, s, evs[0]);
      if !IsMisrecord(e, s, evs[0]) {
        RoutingExactly(e, s1, evs[1..]);
      }
    }
  }

  /** The same from the start of the AMF. */
  lemma RoutingResolves<R>(e: AmfEnv, evs: seq<Event<R>>)
    requires Possible(e, Start<R>(), evs)
    ensures AlwaysResolves(e, Start<R>(), evs) <==> !SomeMisrecord(e, Start<R>(), evs)
  {
    StartInv<R>(e);
    RoutingExactly(e, Start<R>(), evs);
  }

  /** Some event of a run handles a deregistration that names this text. */
  ghost predicate IsNamed<R>(e: AmfEnv, s: State<R>, evs: seq<Event<R>>, g: string)
    requires Possible(e, s, evs)
    decreases evs
  {
    evs != [] && (Named(e, s, evs[0]) == Some(g) || IsNamed(e, Next(e, s, evs[0]), evs[1..], g))
  }

  /**
   A GUTI, once bound to a context, leads to that context or to none for ever
   after; to none only after a deregistration that named it.
   */
  lemma {:induction false} GutiStability<R>(e: AmfEnv, s: State<R>, evs: seq<Event<R>>, g: string)
    requires Inv(e, s) && Possible(e, s, evs) && IsIssued(e, s.tmsis, g) && !Guti.Repeats(e.amf.Text())
    ensures var s' := After(e, s, evs);
            && (g in s'.byGuti ==> g in s.byGuti && s'.byGuti[g] == s.byGuti[g])
            && (g in s.byGuti && !IsNamed(e, s, evs, g) ==> g in s'.byGuti)
    decreases evs
  {
    if evs != [] {
      var s1 := Next(e, s, evs[0]);
      NextKept(e, s, evs[0]);
      NextKeepsGutis(e, s, evs[0]);
      var plmn: string, t: Tmsi :| Guti.IsPlmn(plmn) && t in s.tmsis && g == Guti.Allocated(plmn, e.amf, t);
      assert IsIssued(e, s1.tmsis, g);
      GutiStability(e, s1, evs[1..], g);
    }
  }

  /** The same from the start of the AMF: whatever GUTI is bound at one time, at any later time. */
  lemma GutiStableFromStart<R>(e: AmfEnv, evs: seq<Event<R>>, more: seq<Event<R>>, g: string)
    requires Possible(e, Start<R>(), evs) && Possible(e, After(e, Start<R>(), evs), more)
    requires g in After(e, Start<R>(), evs).byGuti && !Guti.Repeats(e.amf.Text())
    ensures var s := After(e, Start<R>(), evs);
            var s' := After(e, s, more);
            if g in s'.byGuti then s'.byGuti[g] == s.byGuti[g] else IsNamed(e, s, more, g)
  {
    StartInv<R>(e);
    RunKept(e, Start<R>(), evs);
    GutiStability(e, After(e, Start<R>(), evs), more, g);
  }
}

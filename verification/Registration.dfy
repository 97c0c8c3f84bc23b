/**
 The state the AMF_APP and N1 tasks share, and what each event does to it:
 NAS contexts with their three indexes, the identities recorded per SUPI, the
 UE contexts, and the messages queued for N1 (amf_n1.cpp, amf_app.cpp, and the
 N2 handlers of amf_n2.cpp that touch this state). A NAS context is named by a
 reference of type R, so two index entries may name the same context.
 */
module Registration {
  import opened Wrappers
  import opened Octets
  import opened NasSecurity
  import opened NasFrame
  import opened NasUplink
  import opened NasChannel
  import opened NasContexts
  import opened PduSessionStatus
  import PduSessions
  import UintGenerator
  import Guti

  type Tmsi = Guti.Tmsi

  /** The pair that keys UE contexts; Guti.UeContextKeyInjective is why a pair stands for the text. */
  datatype Key = Key(ran: nat, amf: nat)

  datatype UeContext = UeContext(ran: nat, amf: nat, plmn: string, tmsi: nat, supi: string, isContextRequested: bool)

  // ---- Messages ----

  datatype MobileIdentity = Suci(imsi: Option<string>) | FiveGGuti | OtherIdentity

  datatype RegistrationRequest = RegistrationRequest(
    identity: MobileIdentity, regType: Option<nat>, ngksi: Option<nat>, capability: Option<(Octet, Octet)>)

  datatype STmsi = STmsi(setId: bv16, pointer: bv8, tmsi: string)

  /**
   Decoded or not, its 5G-S-TMSI, whether its container is too short, and its
   Uplink Data Status and PDU Session Status, its own or its container's.
   */
  datatype ServiceRequest = ServiceRequest(
    isDecoded: bool, sTmsi: Option<STmsi>, isContainerShort: bool,
    uplinkData: Option<Bits>, status: Option<Bits>)

  /** There are sessions to activate: those PduSessions.UeSessions.Reactivate goes through. */
  predicate Activates(q: ServiceRequest) {
    PduSessions.Requested(q.uplinkData, q.status) != {}
  }

  datatype Message =
    | Registration(registration: RegistrationRequest)
    | Service(service: ServiceRequest)
    | Deregistration(guti: string, isSwitchOff: bool)
    | AuthenticationResponse
    | AuthenticationFailure(cause: nat)
    | SecurityModeComplete
    | IdentityResponse(imsi: Option<string>)
    | OtherMessage

  /** A message queued for the N1 task. */
  datatype Indication = Indication(key: Key, isEstablishment: bool, guti: Option<string>, nas: OctetString)

  /** What the AMF runs with: its channel settings, the message codec, and its own identity. */
  datatype AmfEnv = AmfEnv(channel: Env, decode: OctetString -> Message, amf: Guti.AmfIdentity)

  /** What one handler draws on: storage for a new context, the answers of others, a new TMSI. */
  datatype Inputs<R> = Inputs(spare: R, answers: Answers, tmsi: Tmsi)

  // ---- State ----

  /** The shared state; `isDown` once an exception nobody catches has ended the process. */
  datatype State<R> = State(
    nas: map<R, Nas>,
    byAmf: map<nat, R>, bySupi: map<string, R>, byGuti: map<string, R>,
    supiAmf: map<string, nat>, supiRan: map<string, nat>,
    ues: map<Key, UeContext>, supiUe: map<string, Key>,
    tmsis: set<nat>, lastTmsi: nat, nextId: nat, queue: seq<Indication>,
    isDown: bool)

  ghost predicate WellFormed<R>(s: State<R>) {
    && (forall a :: a in s.byAmf ==> s.byAmf[a] in s.nas)
    && (forall supi :: supi in s.bySupi ==> s.bySupi[supi] in s.nas)
    && (forall g :: g in s.byGuti ==> s.byGuti[g] in s.nas)
  }

  /** The value of a context; every reference in a well-formed state has one. */
  ghost function At<R>(s: State<R>, r: R): Nas {
    if r in s.nas then s.nas[r] else NEW_NAS
  }

  ghost function Put<R>(s: State<R>, r: R, n: Nas): State<R> {
    s.(nas := s.nas[r := n])
  }

  ghost function BindAmf<R>(s: State<R>, amf: nat, r: R): State<R> {
    s.(byAmf := s.byAmf[amf := r])
  }

  ghost function BindSupi<R>(s: State<R>, supi: string, r: R): State<R> {
    s.(bySupi := s.bySupi[supi := r])
  }

  ghost function BindIds<R>(s: State<R>, supi: string, k: Key): State<R> {
    s.(supiAmf := s.supiAmf[supi := k.amf], supiRan := s.supiRan[supi := k.ran])
  }

  /** Names the subscriber of a UE context, if there is such a context. */
  ghost function BindUe<R>(s: State<R>, k: Key, supi: string): State<R> {
    if k !in s.ues then s
    else s.(ues := s.ues[k := s.ues[k].(supi := supi)], supiUe := s.supiUe[supi := k])
  }

  // ---- N1: the uplink handler ----

  ghost function Lookup<R>(s: State<R>, ind: Indication): Option<R> {
    if ind.guti.Some? then
      if ind.guti.value in s.byGuti then Some(s.byGuti[ind.guti.value]) else None
    else if ind.key.amf in s.byAmf then Some(s.byAmf[ind.key.amf]) else None
  }

  function Moved(n: Nas, g: string, k: Key): Nas {
    n.(id := n.id.(guti := Some(g), oldAmf := n.id.amf, oldRan := n.id.ran, amf := k.amf, ran := k.ran))
  }

  /** A context found by GUTI takes over the new identities. */
  ghost function Rebound<R>(s: State<R>, ind: Indication): State<R> {
    if ind.guti.Some? && ind.guti.value in s.byGuti then
      var r := s.byGuti[ind.guti.value];
      var n := Moved(At(s, r), ind.guti.value, ind.key);
      var supi := Guti.Supi(n.id.imsi);
      BindSupi(BindIds(BindAmf(Put(s, r, n), ind.key.amf, r), supi, ind.key), supi, r)
    else s
  }

  /** A secured message has its seven header octets. */
  predicate Readable(msg: OctetString) {
    var t := SecurityHeader(msg);
    t.Some? && t.value != PLAIN ==> |msg| >= HEADER_LENGTH
  }

  /** Only readable messages are let into the queue. */
  ghost predicate AllReadable<R>(s: State<R>) {
    forall j :: 0 <= j < |s.queue| ==> Readable(s.queue[j].nas)
  }

  function ContextAfterUplink(n: Nas, msg: OctetString): Nas
    requires Readable(msg)
  {
    n.(sec := AfterUplink(n.sec, msg))
  }

  /** The state once the indication's context is found, and its security context has seen the message. */
  ghost function Seen<R>(s: State<R>, ind: Indication): State<R>
    requires Readable(ind.nas)
  {
    var r := Lookup(s, ind);
    var s1 := Rebound(s, ind);
    if r.Some? then Put(s1, r.value, ContextAfterUplink(At(s1, r.value), ind.nas)) else s1
  }

  /** What the message says, if it gets through the protection of the context. */
  ghost function Opened<R>(e: AmfEnv, s: State<R>, ind: Indication, slack: Slack): Outcome
    requires Readable(ind.nas)
  {
    var r := Lookup(s, ind);
    Unprotected(e.channel.primitives, if r.Some? then At(Rebound(s, ind), r.value).sec else None, ind.nas, slack)
  }

  ghost function HandleUplink<R>(e: AmfEnv, s: State<R>, ind: Indication, i: Inputs<R>): State<R>
    requires Readable(ind.nas)
  {
    match Opened(e, s, ind, i.answers.slack)
    case Dropped => Seen(s, ind)
    case Delivered(text, ulCount) =>
      if ind.isEstablishment then Establish(e, Seen(s, ind), Lookup(s, ind), ind.key, e.decode(text), ulCount, i)
      else Dispatch(e, Seen(s, ind), ind.key, e.decode(text), i)
  }

  function NewContext(k: Key): Nas {
    NEW_NAS.(id := NO_IDENTITY.(amf := k.amf, ran := k.ran))
  }

  /** A context is created if none was found; either is found under the AMF identity. */
  ghost function Admitted<R>(s: State<R>, found: Option<R>, k: Key, spare: R): State<R> {
    var r := found.GetOr(spare);
    BindAmf(if found.None? then Put(s, r, NewContext(k)) else s, k.amf, r)
  }

  /** nas_signalling_establishment_request_handle. */
  ghost function Establish<R>(e: AmfEnv, s: State<R>, found: Option<R>, k: Key, m: Message, ulCount: Octet,
                              i: Inputs<R>): State<R> {
    var s1, r := Admitted(s, found, k, i.spare), found.GetOr(i.spare);
    match m
    case Registration(q) => Register(e, s1, r, k, q, i.answers)
    case Service(q) => ServeInitial(e, Put(s1, r, WithUplinkCount(At(s1, r), ulCount)), r, k, q, ulCount, i.answers)
    case _ => s1
  }

  /** The uplink count the handling of an establishment message derives the gNB key under, if it derives one. */
  ghost function EstablishKgnb<R>(e: AmfEnv, s: State<R>, found: Option<R>, k: Key, m: Message, ulCount: Octet,
                                  i: Inputs<R>): Option<bv32>
  {
    var s1, r := Admitted(s, found, k, i.spare), found.GetOr(i.spare);
    if m.Service? then ServeInitialKgnb(e, Put(s1, r, WithUplinkCount(At(s1, r), ulCount)), r, k, m.service, ulCount)
    else None
  }

  /** The same for an uplink message, be it one that opens a connection or a Security Mode Complete. */
  ghost function HandledKgnb<R>(e: AmfEnv, s: State<R>, ind: Indication, i: Inputs<R>): Option<bv32>
    requires Readable(ind.nas)
  {
    match Opened(e, s, ind, i.answers.slack)
    case Dropped => None
    case Delivered(text, ulCount) =>
      if ind.isEstablishment then EstablishKgnb(e, Seen(s, ind), Lookup(s, ind), ind.key, e.decode(text), ulCount, i)
      else if e.decode(text).SecurityModeComplete? then CompleteKgnb(Seen(s, ind), ind.key, i.answers)
      else None
  }

  function WithUplinkCount(n: Nas, ulCount: Octet): Nas {
    if n.sec.Some? then n.(sec := Some(Received(n.sec.value, ulCount))) else n
  }

  /** uplink_nas_msg_handle. */
  ghost function Dispatch<R>(e: AmfEnv, s: State<R>, k: Key, m: Message, i: Inputs<R>): State<R> {
    match m
    case SecurityModeComplete => Complete(e, s, k, i)
    case IdentityResponse(imsi) => if imsi.Some? then Identify(s, k, imsi.value, i) else s
    case Deregistration(g, isSwitchOff) => Deregister(s, k, g, isSwitchOff, i.answers)
    case Registration(q) => if k.amf in s.byAmf then Register(e, s, s.byAmf[k.amf], k, q, i.answers) else s
    case Service(q) => if k.amf in s.byAmf then ServeConnected(e, s, s.byAmf[k.amf], k, q, i.answers) else s
    case AuthenticationResponse => Authenticate(e, s, k, i.answers)
    case AuthenticationFailure(cause) => FailAuthentication(s, k, cause, i.answers)
    case OtherMessage => s
  }

  ghost function Authenticate<R>(e: AmfEnv, s: State<R>, k: Key, a: Answers): State<R> {
    if k.amf !in s.byAmf then s
    else Put(s, s.byAmf[k.amf], AfterAuthenticationResponse(e.channel, At(s, s.byAmf[k.amf]), a))
  }

  ghost function FailAuthentication<R>(s: State<R>, k: Key, cause: nat, a: Answers): State<R> {
    if k.amf !in s.byAmf then s
    else Put(s, s.byAmf[k.amf], AfterAuthenticationFailure(At(s, s.byAmf[k.amf]), cause, a))
  }

  // ---- Registration Request ----

  function WithSuci(n: Nas, imsi: string): Nas {
    n.(id := n.id.(imsi := imsi, isImsiPresent := true), state := CommonProcedureInitiated)
  }

  function WithGuti(n: Nas): Nas {
    n.(id := n.id.(isGutiPresent := true, toBeRegisteredByNewSuci := true))
  }

  /** The identities of the message, and the security context armed for a new Security Mode Command. */
  function Arriving(n: Nas, k: Key): Nas {
    n.(id := n.id.(amf := k.amf, ran := k.ran), sec := if n.sec.Some? then Some(Rearmed(n.sec.value)) else None)
  }

  function Requesting(n: Nas, ngksi: nat, capability: Option<(Octet, Octet)>): Nas {
    var m := n.material.(ngksi := ngksi);
    n.(material := if capability.Some? then m.(ea := capability.value.0, ia := capability.value.1) else m,
       isAvailable := true)
  }

  ghost function RegisterIdentity<R>(s: State<R>, r: R, k: Key, identity: MobileIdentity): State<R> {
    match identity
    case Suci(imsi) =>
      if imsi.None? then s
      else
        var supi := Guti.Supi(imsi.value);
        BindSupi(BindIds(Put(s, r, WithSuci(At(s, r), imsi.value)), supi, k), supi, r)
    case FiveGGuti => Put(s, r, WithGuti(At(s, r)))
    case OtherIdentity => s
  }

  /** The context takes the message's identities and is found under them, and so is the UE context. */
  ghost function Arrive<R>(s: State<R>, r: R, k: Key): State<R> {
    var n := Arriving(At(s, r), k);
    BindUe(Put(BindAmf(s, k.amf, r), r, n), k, Guti.Supi(n.id.imsi))
  }

  ghost function RegisterType<R>(e: AmfEnv, s: State<R>, r: R, q: RegistrationRequest, a: Answers): State<R> {
    if q.regType.None? || q.ngksi.None? then s
    else
      var n := Requesting(At(s, r), q.ngksi.value, q.capability);
      Put(s, r, AfterRegistrationType(e.channel, n, q.regType.value, a))
  }

  /** registration_request_handle. */
  ghost function Register<R>(e: AmfEnv, s: State<R>, r: R, k: Key, q: RegistrationRequest, a: Answers): State<R> {
    if k !in s.ues then s
    else RegisterType(e, Arrive(RegisterIdentity(s, r, k, q.identity), r, k), r, q, a)
  }

  // ---- Identity Response ----

  function Identified(n: Nas, k: Key, imsi: string): Nas {
    n.(id := n.id.(amf := k.amf, ran := k.ran, imsi := imsi, isImsiPresent := true), isAvailable := true)
  }

  function AfterIdentity(n: Nas, a: Answers): Nas {
    if n.id.toBeRegisteredByNewSuci then AfterRunRegistration(n.(state := CommonProcedureInitiated), a) else n
  }

  ghost function Identify<R>(s: State<R>, k: Key, imsi: string, i: Inputs<R>): State<R> {
    var supi := Guti.Supi(imsi);
    var s1 := if k in s.ues then BindUe(s, k, supi) else s;
    var r := if k.amf in s1.byAmf then s1.byAmf[k.amf] else i.spare;
    var s2 := if k.amf in s1.byAmf then s1 else BindAmf(Put(s1, r, NEW_NAS), k.amf, r);
    BindIds(Put(s2, r, AfterIdentity(Identified(At(s2, r), k, imsi), i.answers)), supi, k)
  }

  // ---- Service Request ----

  /** The GUTI a Service Request stands for. */
  function ServiceGuti(e: AmfEnv, plmn: string, t: STmsi): string {
    plmn + Guti.AmfIdentity(e.amf.region, t.setId, t.pointer).Text() + t.tmsi
  }

  /** A context without a GUTI takes what it lacks from the context of the Service Request's GUTI. */
  function Recalled(n: Nas, former: Nas, ulCount: Octet): Nas
    requires former.sec.Some?
  {
    n.(sec := Some(Received(former.sec.value, ulCount)), sent := former.sent,
       material := n.material.(kamf := former.material.kamf, ea := former.material.ea, ia := former.material.ia),
       id := n.id.(imsi := former.id.imsi, oldRan := former.id.ran, oldAmf := former.id.amf))
  }

  ghost function OldContext<R>(e: AmfEnv, s: State<R>, r: R, k: Key, q: ServiceRequest): Option<R>
    requires k in s.ues
  {
    if q.isDecoded && At(s, r).id.guti.None? && q.sTmsi.Some? then
      var g := ServiceGuti(e, s.ues[k].plmn, q.sTmsi.value);
      if g in s.byGuti then Some(s.byGuti[g]) else None
    else None
  }

  function AfterServiceAccept(e: Env, n: Nas, q: ServiceRequest, a: Answers): Nas {
    if q.isContainerShort then n
    else
      var n1 := AfterSend(e, n, a);
      if n1.sec.Some? && n1.sec.value.vectorPointer < MAX_AUTH_VECTORS && (Activates(q) || a.isSent)
      then n1.(state := Registered) else n1
  }

  /** An accepted Service Request, or a rejected one without a security context. */
  ghost function ServeWith<R>(e: AmfEnv, s: State<R>, r: R, n: Nas, k: Key, q: ServiceRequest, a: Answers): State<R> {
    if n.sec.None? || !q.isDecoded then Put(s, r, AfterServiceReject(n, a))
    else
      var supi := Guti.Supi(n.id.imsi);
      BindUe(BindIds(BindAmf(Put(s, r, AfterServiceAccept(e.channel, n, q, a)), k.amf, r), supi, k), k, supi)
  }

  /**
   service_request_handle with an uplink count. Where the old context has no
   security context the source throws, and nothing catches it.
   */
  ghost function ServeInitial<R>(e: AmfEnv, s: State<R>, r: R, k: Key, q: ServiceRequest, ulCount: Octet,
                                 a: Answers): State<R>
  {
    if k !in s.ues then s
    else
      var former := OldContext(e, s, r, k, q);
      if former.None? then ServeWith(e, s, r, At(s, r), k, q, a)
      else if At(s, former.value).sec.None? then s.(isDown := true)
      else ServeWith(e, s, r, Recalled(At(s, r), At(s, former.value), ulCount), k, q, a)
  }

  /** The uplink count a Service Accept derives the gNB key under, if it derives one. */
  function ServiceKgnb(n: Nas, q: ServiceRequest): Option<bv32> {
    if n.sec.None? || !q.isDecoded || q.isContainerShort || n.sec.value.vectorPointer >= MAX_AUTH_VECTORS then None
    else Some(KgnbCount(n.sec.value))
  }

  ghost function ServeInitialKgnb<R>(e: AmfEnv, s: State<R>, r: R, k: Key, q: ServiceRequest, ulCount: Octet)
    : Option<bv32>
  {
    if k !in s.ues then None
    else
      var former := OldContext(e, s, r, k, q);
      if former.None? then ServiceKgnb(At(s, r), q)
      else if At(s, former.value).sec.None? then None
      else ServiceKgnb(Recalled(At(s, r), At(s, former.value), ulCount), q)
  }

  /** What is left to do once the security is recalled, or was not to be. */
  lemma ServeRecalled<R>(e: AmfEnv, s: State<R>, r: R, n: Nas, k: Key, q: ServiceRequest, ulCount: Octet, a: Answers)
    requires k in s.ues
    requires var former := OldContext(e, s, r, k, q);
             if former.None? then n == At(s, r)
             else At(s, former.value).sec.Some? && n == Recalled(At(s, r), At(s, former.value), ulCount)
    ensures ServeInitial(e, s, r, k, q, ulCount, a) == ServeWith(e, s, r, n, k, q, a)
    ensures ServeInitialKgnb(e, s, r, k, q, ulCount) == ServiceKgnb(n, q)
  {
  }

  /** service_request_handle without an uplink count: without sessions to activate it rejects. */
  ghost function ServeConnected<R>(e: AmfEnv, s: State<R>, r: R, k: Key, q: ServiceRequest, a: Answers): State<R> {
    if k !in s.ues then s
    else
      var n := At(s, r);
      if n.sec.None? || !q.isDecoded then Put(s, r, AfterServiceReject(n, a))
      else
        var s1 := BindAmf(s, k.amf, r);
        if q.isContainerShort then s1
        else Put(s1, r, if Activates(q) then AfterSend(e.channel, n, a) else AfterServiceReject(n, a))
  }

  // ---- Security Mode Complete ----

  /** The accept goes out, and the context is registered; a missing KAMF stops short of it. */
  function AfterRegistrationAccept(e: Env, n: Nas, isContextRequested: bool, a: Answers): Nas {
    if n.sec.None? || !a.encodes then n
    else
      var n1 := AfterSend(e, n, a);
      if isContextRequested && n1.sec.value.vectorPointer >= MAX_AUTH_VECTORS then n1 else n1.(state := Registered)
  }

  function Completed(n: Nas, g: string): Nas {
    n.(id := n.id.(guti := Some(g)), running := n.running.(securityMode := false))
  }

  /** A new TMSI is issued to the UE context, and the GUTI made from it bound to the NAS context. */
  ghost function Allocate<R>(s: State<R>, r: R, k: Key, t: Tmsi, g: string): State<R> {
    if k !in s.ues then s
    else s.(ues := s.ues[k := s.ues[k].(tmsi := t)], tmsis := s.tmsis + {t}, lastTmsi := t, byGuti := s.byGuti[g := r])
  }

  /** security_mode_complete_handle, up to the Registration Accept. */
  ghost function Complete<R>(e: AmfEnv, s: State<R>, k: Key, i: Inputs<R>): State<R> {
    if k !in s.ues || k.amf !in s.byAmf || i.answers.isRerouted then s
    else
      var r := s.byAmf[k.amf];
      var g := Guti.Allocated(s.ues[k].plmn, e.amf, i.tmsi);
      var n := AfterRegistrationAccept(e.channel, Completed(At(s, r), g), s.ues[k].isContextRequested, i.answers);
      Put(Allocate(s, r, k, i.tmsi, g), r, n)
  }

  /** The uplink count a Registration Accept derives the gNB key under, if it derives one. */
  ghost function CompleteKgnb<R>(s: State<R>, k: Key, a: Answers): Option<bv32> {
    if k !in s.ues || k.amf !in s.byAmf || a.isRerouted then None
    else
      var sec := At(s, s.byAmf[k.amf]).sec;
      if sec.Some? && a.encodes && s.ues[k].isContextRequested && sec.value.vectorPointer < MAX_AUTH_VECTORS
      then Some(KgnbCount(sec.value)) else None
  }

  // ---- Deregistration ----

  /** ue_initiate_de_registration_handle, which stops when the UE context or the accept is missing. */
  ghost function Deregister<R>(s: State<R>, k: Key, g: string, isSwitchOff: bool, a: Answers): State<R> {
    if k.amf !in s.byAmf then s
    else
      var r := s.byAmf[k.amf];
      var n := At(s, r);
      if Key(n.id.ran, n.id.amf) !in s.ues || !(isSwitchOff || a.encodes) then s
      else Unbind(Put(s, r, n.(state := Deregistered)), k.amf, Guti.Supi(n.id.imsi), {g})
  }

  ghost function Unbind<R>(s: State<R>, amf: nat, supi: string, gutis: set<string>): State<R> {
    s.(byAmf := s.byAmf - {amf}, bySupi := s.bySupi - {supi}, byGuti := s.byGuti - gutis)
  }

  // ---- The other events ----

  /** The counter of AMF UE NGAP identities is a 32-bit word. */
  const ID_MODULUS: nat := 0x1_0000_0000

  const NO_UE := UeContext(0, INVALID_AMF_UE_NGAP_ID, "", 0, "", false)

  ghost function Enqueue<R>(s: State<R>, ind: Indication): State<R> {
    s.(queue := s.queue + [ind])
  }

  /** AMF_APP: a new signalling connection gets an identity and a UE context, and is passed on to N1. */
  ghost function Connect<R>(e: AmfEnv, s: State<R>, ran: nat, plmn: string, isContextRequested: bool,
                            sTmsi: Option<string>, nas: OctetString): State<R>
  {
    var k := Key(ran, s.nextId);
    var g := if sTmsi.Some? then Some(Guti.Reattached(plmn, e.amf.region, sTmsi.value)) else None;
    Enqueue(PutUe(s, k, plmn, Some(isContextRequested)), Indication(k, true, g, nas)).
      (nextId := (s.nextId + 1) % ID_MODULUS)
  }

  /** N1: a downlink transfer from the SMF is protected under the context, if there is one. */
  ghost function Transfer<R>(e: AmfEnv, s: State<R>, amf: nat, a: Answers): State<R> {
    if amf in s.byAmf then Put(s, s.byAmf[amf], AfterSend(e.channel, At(s, s.byAmf[amf]), a)) else s
  }

  /** N2: a released UE loses its entries by AMF identity and SUPI, and no other. */
  ghost function Release<R>(s: State<R>, amf: nat): State<R> {
    if amf in s.byAmf then Unbind(s, amf, Guti.Supi(At(s, s.byAmf[amf]).id.imsi), {}) else s
  }

  /** A UE context for a pair of identities: the one there is, or a new one. */
  ghost function PutUe<R>(s: State<R>, k: Key, plmn: string, isContextRequested: Option<bool>): State<R> {
    var u := if k in s.ues then s.ues[k] else NO_UE;
    s.(ues := s.ues[k := u.(ran := k.ran, amf := k.amf, plmn := plmn,
                            isContextRequested := isContextRequested.GetOr(u.isContextRequested))])
  }

  /** N2: after a handover the UE context of the new pair is there, and the NAS context has the new RAN identity. */
  ghost function HandOver<R>(s: State<R>, k: Key, plmn: string): State<R> {
    if k.amf !in s.byAmf then s
    else
      var r := s.byAmf[k.amf];
      Put(PutUe(s, k, plmn, None), r, At(s, r).(id := At(s, r).id.(ran := k.ran)))
  }

  datatype Event<R> =
    | Connection(ran: nat, plmn: string, isContextRequested: bool, sTmsi: Option<string>, nas: OctetString)
    | Uplink(key: Key, nas: OctetString)
    | Deliver(inputs: Inputs<R>)
    | DownlinkTransfer(amf: nat, answers: Answers)
    | ContextRelease(amf: nat)
    | HandoverNotify(key: Key, plmn: string)

  /** TMSIs come from a counter of 32 bits. */
  ghost predicate IsNextTmsi<R>(s: State<R>, t: Tmsi) {
    UintGenerator.IsNext(s.tmsis, s.lastTmsi, t, Guti.TMSI_MODULUS)
  }

  /**
   The process is up, and the surroundings keep to this: PLMNs have five or six
   digits, messages that arrive are readable, storage for a handler is new, and
   the TMSI for it the next one of the generator. An uplink may come under any
   pair of identities: N2 logs a mismatch and passes the message on.
   */
  ghost predicate Enabled<R>(s: State<R>, ev: Event<R>) {
    !s.isDown
    && match ev
       case Connection(_, plmn, _, _, nas) => Guti.IsPlmn(plmn) && Readable(nas)
       case Uplink(_, nas) => Readable(nas)
       case Deliver(i) => |s.queue| > 0 && Readable(s.queue[0].nas) && i.spare !in s.nas && IsNextTmsi(s, i.tmsi)
       case HandoverNotify(_, plmn) => Guti.IsPlmn(plmn)
       case _ => true
  }

  ghost function Next<R>(e: AmfEnv, s: State<R>, ev: Event<R>): State<R>
    requires Enabled(s, ev)
  {
    match ev
    case Connection(ran, plmn, requested, sTmsi, nas) => Connect(e, s, ran, plmn, requested, sTmsi, nas)
    case Uplink(k, nas) => Enqueue(s, Indication(k, false, None, nas))
    case Deliver(i) => HandleUplink(e, s.(queue := s.queue[1..]), s.queue[0], i)
    case DownlinkTransfer(amf, a) => Transfer(e, s, amf, a)
    case ContextRelease(amf) => Release(s, amf)
    case HandoverNotify(k, plmn) => HandOver(s, k, plmn)
  }
}

/**
 The NAS context of a UE and what the common procedures do to it (amf_n1.cpp:
 authentication, security mode control, and the registration procedures that
 start them), first on values and then on the object.
 */
module NasContexts {
  import opened Wrappers
  import opened Octets
  import opened NasSecurity
  import opened NasFrame
  import opened NasDownlink
  import opened NasChannel

  const INVALID_AMF_UE_NGAP_ID: nat := 0x100_0000_0000
  const NGKSI_NOT_AVAILABLE: nat := 7
  const NGKSI_VALUES: nat := 7
  const MAX_AUTH_VECTORS: nat := 1

  const INITIAL: nat := 1
  const MOBILITY: nat := 2
  const PERIODIC: nat := 3

  const CAUSE_SYNCH_FAILURE: nat := 21
  const CAUSE_NGKSI_IN_USE: nat := 71

  datatype MmState = Invalid | Deregistered | Registered | DeregisteredInitiated | CommonProcedureInitiated

  /** Whose context it is: NGAP identities, subscriber, GUTI, and what is known of them. */
  datatype Identity = Identity(
    amf: nat, ran: nat, oldAmf: nat, oldRan: nat,
    imsi: string, guti: Option<string>,
    isImsiPresent: bool, isGutiPresent: bool, toBeRegisteredByNewSuci: bool)

  /** What keys are made from. */
  datatype KeyMaterial = KeyMaterial(ngksi: nat, ea: Octet, ia: Octet, kamf: OctetString, isAuthVectorsPresent: bool)

  /** The common procedures marked as running. */
  datatype Procedures = Procedures(authentication: bool, identification: bool, securityMode: bool, transport: bool)

  /**
   The value of a NAS context. `sent` is no field of the source: it is the log of
   the messages handlers have protected under the security context since its
   counters were last at zero.
   */
  datatype Nas = Nas(
    id: Identity, isAvailable: bool, material: KeyMaterial, running: Procedures, state: MmState,
    sec: Option<SecCtx>, sent: seq<Sent>)

  const NO_IDENTITY := Identity(INVALID_AMF_UE_NGAP_ID, 0, INVALID_AMF_UE_NGAP_ID, 0, "", None, false, false, false)
  const NO_KEYS := KeyMaterial(0, 0, 0, [], false)
  const NONE_RUNNING := Procedures(false, false, false, false)

  const NEW_NAS := Nas(NO_IDENTITY, false, NO_KEYS, NONE_RUNNING, Invalid, None, [])

  /**
   What the surroundings answer while one message is handled: AUSF and UDM
   (vectors and confirmation), slice selection, the codecs and the queue to N2;
   and what memory holds while a message is protected.
   */
  datatype Answers = Answers(
    vectors: Option<OctetString>,
    isConfirmed: bool, confirmedKamf: OctetString,
    isRerouted: bool, encodes: bool, isSent: bool,
    text: NasText, stale: Stale, slack: Slack)

  predicate AnyRunning(p: Procedures) {
    p.authentication || p.identification || p.securityMode || p.transport
  }

  function AfterStartAuthentication(n: Nas): Nas {
    if AnyRunning(n.running) then n else n.(running := n.running.(authentication := true))
  }

  /** The key set identifier of a context that is created now. */
  function FirstNgksi(n: Nas): nat {
    if n.material.ngksi != NGKSI_NOT_AVAILABLE then (n.id.amf + 1) % NGKSI_VALUES else 0
  }

  function AfterVectors(n: Nas): Nas {
    AfterStartAuthentication(
      if n.sec.Some? then n.(material := n.material.(isAuthVectorsPresent := true))
      else n.(material := n.material.(isAuthVectorsPresent := true, ngksi := FirstNgksi(n)),
              sec := Some(EMPTY_CTX), sent := []))
  }

  /** A key set identifier is an octet, taken from the AMF UE NGAP ID when a context exists. */
  function NewNgksi(n: Nas): nat {
    if n.sec.Some? && n.material.ngksi != NGKSI_NOT_AVAILABLE then (n.id.amf + 1) % 256 else 0
  }

  function AfterRunRegistration(n: Nas, a: Answers): Nas {
    if !n.isAvailable then n
    else if n.id.isImsiPresent then
      if n.material.isAuthVectorsPresent then AfterVectors(n.(material := n.material.(ngksi := NewNgksi(n))))
      else if a.vectors.Some? then AfterVectors(n.(material := n.material.(kamf := a.vectors.value, ngksi := NewNgksi(n))))
      else n
    else if n.id.isGutiPresent then n.(material := n.material.(isAuthVectorsPresent := false))
    else n
  }

  function SmcInputOf(k: KeyMaterial): SmcInput {
    SmcInput(k.ngksi, k.kamf, k.ea, k.ia)
  }

  /** The context after an operation on its security context, the log going along. */
  function Operated(e: Env, n: Nas, op: Op): Nas {
    if n.sec.None? then n
    else
      var ch := Step(e, Channel(n.sec.value, n.sent), op);
      n.(sec := Some(ch.ctx), sent := ch.sent)
  }

  function AfterStartSecurityMode(e: Env, n: Nas, a: Answers): Nas {
    Operated(e, n.(running := n.running.(securityMode := true)), Smc(SmcInputOf(n.material), a.stale, a.slack))
  }

  function AuthenticationEnded(n: Nas): Nas {
    n.(running := n.running.(authentication := false))
  }

  function WithKamf(n: Nas, kamf: OctetString): Nas {
    n.(material := n.material.(kamf := kamf))
  }

  function AfterAuthenticationResponse(e: Env, n: Nas, a: Answers): Nas {
    var n1 := WithKamf(AuthenticationEnded(n), a.confirmedKamf);
    if a.isConfirmed then AfterStartSecurityMode(e, n1, a) else n1
  }

  function AfterAuthenticationFailure(n: Nas, cause: nat, a: Answers): Nas {
    var n1 := AuthenticationEnded(n);
    if cause == CAUSE_SYNCH_FAILURE then
      if a.vectors.Some? then AfterVectors(WithKamf(n1, a.vectors.value)) else n1
    else if cause == CAUSE_NGKSI_IN_USE then
      var n2 := n1.(material := n.material.(ngksi := (n.material.ngksi + 1) % NGKSI_VALUES));
      if n.sec.Some? then AfterStartAuthentication(n2) else n2
    else n1
  }

  /** A downlink message protected under the security context, if there is one. */
  function AfterSend(e: Env, n: Nas, a: Answers): Nas {
    Operated(e, n, Protect(a.text, a.stale, a.slack))
  }

  function AfterServiceReject(n: Nas, a: Answers): Nas {
    if a.encodes && a.isSent then n.(state := Deregistered) else n
  }

  function AfterRegistrationType(e: Env, n: Nas, regType: nat, a: Answers): Nas {
    if regType == INITIAL then AfterRunRegistration(n, a)
    else if regType == MOBILITY then
      if n.sec.None? then AfterRunRegistration(n, a) else if a.encodes then AfterSend(e, n, a) else n
    else if regType == PERIODIC then
      if a.encodes then AfterSend(e, n, a) else n
    else n
  }

  /**
   A failed authentication ends, and a new one is running exactly after a
   synchronisation failure with new vectors, or a key set identifier in use with
   a security context, and then only if no other common procedure is.
   */
  lemma FailureRestarts(n: Nas, cause: nat, a: Answers)
    ensures var n' := AfterAuthenticationFailure(n, cause, a);
            && (n'.running.authentication <==>
                  && !(n.running.identification || n.running.securityMode || n.running.transport)
                  && ((cause == CAUSE_SYNCH_FAILURE && a.vectors.Some?) || (cause == CAUSE_NGKSI_IN_USE && n.sec.Some?)))
            && n'.running == n.running.(authentication := n'.running.authentication)
            && (cause == CAUSE_NGKSI_IN_USE ==> n'.material.ngksi != n.material.ngksi || n.material.ngksi >= NGKSI_VALUES)
            && n'.state == n.state && n'.id == n.id && (n.sec.Some? ==> n'.sec == n.sec && n'.sent == n.sent)
  {
  }

  // ---- What every context keeps ----

  /** A security context and log that a run of the channel leads to, from its creation. */
  ghost predicate Born(e: Env, ch: Channel) {
    exists ops: seq<Op> :: Run(e, ops) == ch
  }

  ghost predicate SecurityBorn(e: Env, sec: Option<SecCtx>, sent: seq<Sent>) {
    sec.Some? ==> Born(e, Channel(sec.value, sent)) && sec.value.vectorPointer == 0
  }

  /**
   Authentication and security mode control never run together, a registered
   context has a security context, and that context and its log are what a run
   of the channel leads to.
   */
  ghost predicate Sound(e: Env, n: Nas) {
    && !(n.running.authentication && n.running.securityMode)
    && (n.state == Registered ==> n.sec.Some?)
    && SecurityBorn(e, n.sec, n.sent)
  }

  predicate KeepsSecurity(n: Nas, n': Nas) {
    n.sec.Some? ==> n'.sec.Some?
  }

  /** A sound context after a step that does not lose security. */
  ghost predicate SoundStep(e: Env, n: Nas, n': Nas) {
    Sound(e, n') && KeepsSecurity(n, n')
  }

  lemma EmptyIsBorn(e: Env)
    ensures Born(e, Channel(EMPTY_CTX, []))
  {
    assert Run(e, []) == Channel(EMPTY_CTX, []);
  }

  lemma BornStep(e: Env, ch: Channel, op: Op)
    requires Born(e, ch)
    ensures Born(e, Step(e, ch, op))
  {
    var ops :| Run(e, ops) == ch;
    assert (ops + [op])[..|ops|] == ops;
    assert Run(e, ops + [op]) == Step(e, ch, op);
  }

  lemma OperationKeepsPointer(e: Env, ch: Channel, op: Op)
    ensures Step(e, ch, op).ctx.vectorPointer == ch.ctx.vectorPointer
  {
  }

  lemma OperatedKeepsSound(e: Env, n: Nas, op: Op)
    requires SecurityBorn(e, n.sec, n.sent)
    ensures var n' := Operated(e, n, op);
            && SecurityBorn(e, n'.sec, n'.sent) && n'.sec.Some? == n.sec.Some?
            && n' == n.(sec := n'.sec, sent := n'.sent)
  {
    if n.sec.Some? {
      BornStep(e, Channel(n.sec.value, n.sent), op);
      OperationKeepsPointer(e, Channel(n.sec.value, n.sent), op);
    }
  }

  /** A context stays sound while its procedures, state and security context do. */
  lemma SameSecurity(e: Env, n: Nas, n': Nas)
    requires Sound(e, n) && n'.running == n.running && n'.sec == n.sec && n'.sent == n.sent
    requires n'.state == n.state || n'.state != Registered || n.sec.Some?
    ensures SoundStep(e, n, n')
  {
  }

  lemma VectorsKeepSound(e: Env, n: Nas)
    requires Sound(e, n)
    ensures SoundStep(e, n, AfterVectors(n)) && AfterVectors(n).sec.Some?
  {
    EmptyIsBorn(e);
  }

  lemma SendKeepsSound(e: Env, n: Nas, a: Answers)
    requires Sound(e, n)
    ensures SoundStep(e, n, AfterSend(e, n, a))
  {
    OperatedKeepsSound(e, n, Protect(a.text, a.stale, a.slack));
  }

  lemma RunRegistrationKeepsSound(e: Env, n: Nas, a: Answers)
    requires Sound(e, n)
    ensures SoundStep(e, n, AfterRunRegistration(n, a))
  {
    if n.isAvailable && n.id.isImsiPresent {
      if n.material.isAuthVectorsPresent {
        VectorsKeepSound(e, n.(material := n.material.(ngksi := NewNgksi(n))));
      } else if a.vectors.Some? {
        VectorsKeepSound(e, n.(material := n.material.(kamf := a.vectors.value, ngksi := NewNgksi(n))));
      }
    }
  }

  lemma RegistrationTypeKeepsSound(e: Env, n: Nas, regType: nat, a: Answers)
    requires Sound(e, n)
    ensures SoundStep(e, n, AfterRegistrationType(e, n, regType, a))
  {
    RunRegistrationKeepsSound(e, n, a);
    SendKeepsSound(e, n, a);
  }

  lemma AuthenticationResponseKeepsSound(e: Env, n: Nas, a: Answers)
    requires Sound(e, n)
    ensures SoundStep(e, n, AfterAuthenticationResponse(e, n, a))
  {
    var n1 := WithKamf(AuthenticationEnded(n), a.confirmedKamf);
    var n2 := n1.(running := n1.running.(securityMode := true));
    OperatedKeepsSound(e, n2, Smc(SmcInputOf(n2.material), a.stale, a.slack));
  }

  lemma AuthenticationFailureKeepsSound(e: Env, n: Nas, cause: nat, a: Answers)
    requires Sound(e, n)
    ensures SoundStep(e, n, AfterAuthenticationFailure(n, cause, a))
  {
    if cause == CAUSE_SYNCH_FAILURE && a.vectors.Some? {
      VectorsKeepSound(e, WithKamf(AuthenticationEnded(n), a.vectors.value));
    }
  }
}

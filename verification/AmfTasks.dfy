/**
 The objects and handlers of the N1 and AMF_APP tasks (amf_n1.cpp, amf_app.cpp):
 every handler works on NAS contexts shared by the index maps, and does to the
 abstract state what module Registration says.
 */
module AmfTasks {
  import opened Wrappers
  import opened Octets
  import opened NasSecurity
  import opened NasFrame
  import opened NasDownlink
  import opened NasUplink
  import opened NasChannel
  import opened NasContexts
  import opened Registration
  import PduSessions
  import RegistrationSafety
  import UintGenerator
  import Guti

  class NasContext {
    var id: Identity
    var isAvailable: bool
    var material: KeyMaterial
    var running: Procedures
    var state: MmState
    var sec: Option<SecCtx>

    /** The messages protected under the security context since its counters were last at zero. */
    ghost var sent: seq<Sent>

    constructor ()
      ensures View() == NEW_NAS
    {
      id, isAvailable, material, running, state, sec := NO_IDENTITY, false, NO_KEYS, NONE_RUNNING, Invalid, None;
      sent := [];
    }

    /** An object no handler uses. */
    ghost constructor Unused() {
    }

    ghost function View(): Nas
      reads this
    {
      Nas(id, isAvailable, material, running, state, sec, sent)
    }

    // ---- What a Registration Request brings ----

    method RecordSuci(imsi: string)
      modifies this
      ensures View() == WithSuci(old(View()), imsi)
    {
      id := id.(imsi := imsi, isImsiPresent := true);
      state := CommonProcedureInitiated;
    }

    method RecordGuti()
      modifies this
      ensures View() == WithGuti(old(View()))
    {
      id := id.(isGutiPresent := true, toBeRegisteredByNewSuci := true);
    }

    method TakeIdentities(k: Key)
      modifies this
      ensures View() == Arriving(old(View()), k)
    {
      id := id.(ran := k.ran, amf := k.amf);
      if sec.Some? {
        sec := Some(Rearmed(sec.value));
      }
    }

    method TakeRequest(ngksi: nat, capability: Option<(Octet, Octet)>)
      modifies this
      ensures View() == Requesting(old(View()), ngksi, capability)
    {
      material := material.(ngksi := ngksi);
      if capability.Some? {
        material := material.(ea := capability.value.0, ia := capability.value.1);
      }
      isAvailable := true;
    }

    // ---- Common procedures ----

    method StartAuthenticationProcedure(encodes: bool) returns (isStarted: bool)
      modifies this
      ensures View() == AfterStartAuthentication(old(View()))
      ensures isStarted <==> !AnyRunning(old(running)) && encodes
    {
      var ongoing := CheckCommonProcedureOngoing();
      if ongoing {
        return false;
      }
      running := running.(authentication := true);
      isStarted := encodes;
    }

    method CheckCommonProcedureOngoing() returns (ongoing: bool)
      ensures ongoing <==> AnyRunning(running)
    {
      if running.authentication { return true; }
      if running.identification { return true; }
      if running.securityMode { return true; }
      if running.transport { return true; }
      return false;
    }

    method HandleAuthVectors(encodes: bool)
      modifies this
      ensures View() == AfterVectors(old(View()))
    {
      material := material.(isAuthVectorsPresent := true);
      if sec.None? {
        sec := Some(EMPTY_CTX);
        sent := [];
        var ngksi := 0;
        if material.ngksi != NGKSI_NOT_AVAILABLE {
          ngksi := (id.amf + 1) % NGKSI_VALUES;
        }
        material := material.(ngksi := ngksi);
      }
      var _ := StartAuthenticationProcedure(encodes);
    }

    method RunRegistrationProcedure(a: Answers)
      modifies this
      ensures View() == AfterRunRegistration(old(View()), a)
    {
      if !isAvailable {
        return;
      }
      if id.isImsiPresent {
        if !material.isAuthVectorsPresent {
          if a.vectors.None? {
            return;
          }
          material := material.(kamf := a.vectors.value);
        }
        var ngksi := 0;
        if sec.Some? && material.ngksi != NGKSI_NOT_AVAILABLE {
          ngksi := (id.amf + 1) % 256;
        }
        material := material.(ngksi := ngksi);
        HandleAuthVectors(a.encodes);
      } else if id.isGutiPresent {
        material := material.(isAuthVectorsPresent := false);
      }
    }

    method StartSecurityModeControlProcedure(e: Env, a: Answers) returns (isStarted: bool, nas: Option<OctetString>)
      modifies this
      ensures View() == AfterStartSecurityMode(e, old(View()), a)
      ensures isStarted <==> old(sec).Some?
      ensures nas.Some? <==> old(sec).Some? && old(sec).value.scType.NotAvailable?
      ensures nas.Some? ==> |sent| == 1 && sent[0].nas == nas.value
    {
      running := running.(securityMode := true);
      if sec.None? {
        return false, None;
      }
      var nsc := new NasSecuCtx(sec.value);
      var command;
      command, nas := StartSecurityModeControl(e, nsc, SmcInputOf(material), a.stale, a.slack);
      SmcAnnouncesInstalled(e, sec.value, SmcInputOf(material), a.stale, a.slack);
      if nas.Some? {
        sent := [Sent(e.smcText(command), nas.value)];
      }
      sec := Some(nsc.View());
      isStarted := true;
    }

    method HandleAuthenticationResponse(e: Env, a: Answers)
      modifies this
      ensures View() == AfterAuthenticationResponse(e, old(View()), a)
    {
      running := running.(authentication := false);
      material := material.(kamf := a.confirmedKamf);
      if a.isConfirmed {
        var isStarted, nas := StartSecurityModeControlProcedure(e, a);
      }
    }

    method HandleAuthenticationFailure(cause: nat, a: Answers)
      modifies this
      ensures View() == AfterAuthenticationFailure(old(View()), cause, a)
    {
      running := running.(authentication := false);
      if cause == CAUSE_SYNCH_FAILURE {
        if a.vectors.Some? {
          material := material.(kamf := a.vectors.value);
          HandleAuthVectors(a.encodes);
        }
      } else if cause == CAUSE_NGKSI_IN_USE {
        material := material.(ngksi := (material.ngksi + 1) % NGKSI_VALUES);
        if sec.None? {
          return;
        }
        var _ := StartAuthenticationProcedure(a.encodes);
      }
    }

    // ---- Other messages ----

    method TakeIdentity(k: Key, imsi: string, a: Answers)
      modifies this
      ensures View() == AfterIdentity(Identified(old(View()), k, imsi), a)
    {
      isAvailable := true;
      id := id.(amf := k.amf, ran := k.ran, isImsiPresent := true, imsi := imsi);
      if id.toBeRegisteredByNewSuci {
        state := CommonProcedureInitiated;
        RunRegistrationProcedure(a);
      }
    }

    method Recall(former: NasContext, ulCount: Octet)
      requires former.sec.Some?
      modifies this
      ensures View() == Recalled(old(View()), old(former.View()), ulCount)
    {
      sec := Some(Received(former.sec.value, ulCount));
      sent := former.sent;
      material := material.(kamf := former.material.kamf, ea := former.material.ea, ia := former.material.ia);
      id := id.(imsi := former.id.imsi, oldRan := former.id.ran, oldAmf := former.id.amf);
    }

    method TakeUplinkCount(ulCount: Octet)
      modifies this
      ensures View() == WithUplinkCount(old(View()), ulCount)
    {
      if sec.Some? {
        sec := Some(Received(sec.value, ulCount));
      }
    }

    /** The count a gNB key is derived under. */
    function UplinkCount(): bv32
      requires sec.Some?
      reads this
    {
      KgnbCount(sec.value)
    }

    /** The Service Accept, and the count the gNB key is derived under. */
    method AcceptService(e: Env, q: ServiceRequest, a: Answers) returns (kgnbCount: Option<bv32>)
      requires sec.Some? && q.isDecoded
      modifies this
      ensures View() == AfterServiceAccept(e, old(View()), q, a)
      ensures kgnbCount == ServiceKgnb(old(View()), q)
    {
      if q.isContainerShort {
        return None;
      }
      var activates := HasSessionsToActivate(q);
      var nas := ProtectDownlink(e, a);
      if sec.value.vectorPointer >= MAX_AUTH_VECTORS {
        return None;
      }
      kgnbCount := Some(UplinkCount());
      if activates || a.isSent {
        state := Registered;
      }
    }

    /** The Registration Accept, and the gNB key when a UE context is to be set up. */
    method AcceptRegistration(e: Env, g: string, isContextRequested: bool, a: Answers) returns (kgnbCount: Option<bv32>)
      modifies this
      ensures View() == AfterRegistrationAccept(e, Completed(old(View()), g), isContextRequested, a)
      ensures kgnbCount.Some? ==> old(sec).Some? && kgnbCount.value == KgnbCount(old(sec).value)
      ensures kgnbCount.Some? <==> old(sec).Some? && a.encodes && isContextRequested
                                   && old(sec).value.vectorPointer < MAX_AUTH_VECTORS
    {
      id := id.(guti := Some(g));
      running := running.(securityMode := false);
      kgnbCount := None;
      if sec.None? {
        return;
      }
      if !a.encodes {
        return;
      }
      var nas := ProtectDownlink(e, a);
      if isContextRequested {
        if sec.value.vectorPointer >= MAX_AUTH_VECTORS {
          return;
        }
        kgnbCount := Some(UplinkCount());
      }
      state := Registered;
    }

    method Deregister()
      modifies this
      ensures View() == old(View()).(state := Deregistered)
    {
      state := Deregistered;
    }

    method Move(g: string, k: Key)
      modifies this
      ensures View() == Moved(old(View()), g, k)
    {
      id := id.(guti := Some(g), oldAmf := id.amf, oldRan := id.ran);
      id := id.(amf := k.amf, ran := k.ran);
    }

    method SetRan(ran: nat)
      modifies this
      ensures View() == old(View()).(id := old(id).(ran := ran))
    {
      id := id.(ran := ran);
    }

    // ---- Messages under the security context ----

    method Unprotect(e: Env, msg: OctetString, slack: Slack) returns (o: Outcome)
      requires Readable(msg)
      modifies this
      ensures View() == ContextAfterUplink(old(View()), msg)
      ensures o == Unprotected(e.primitives, old(sec), msg, slack)
    {
      if sec.None? {
        o := UnprotectUplink(e.primitives, null, msg, slack);
      } else {
        var nsc := new NasSecuCtx(sec.value);
        o := UnprotectUplink(e.primitives, nsc, msg, slack);
        sec := Some(nsc.View());
      }
    }

    /** encode_nas_message_protected on the context's own security context. */
    method ProtectDownlink(e: Env, a: Answers) returns (nas: OctetString)
      requires sec.Some?
      modifies this
      ensures View() == AfterSend(e, old(View()), a)
      ensures nas == Protected(e, old(sec).value, a.text, a.stale, a.slack)
      ensures sent == old(sent) + [Sent(a.text, nas)]
      ensures sec.Some? && sec.value == old(sec).value.(dl := sec.value.dl)
    {
      var nsc := new NasSecuCtx(sec.value);
      SmcFits(sec.value, a.text);
      NewHeaderEarlyReturn();
      var encoded := EncodeNasMessageProtected(e.primitives, nsc, false, INTEGRITY_PROTECTED_CIPHERED, a.text,
                                               a.stale, a.slack);
      nas := encoded.value;
      sec := Some(nsc.View());
      sent := sent + [Sent(a.text, nas)];
    }

    method SendServiceReject(a: Answers)
      modifies this
      ensures View() == AfterServiceReject(old(View()), a)
    {
      if !a.encodes {
        return;
      }
      if a.isSent {
        state := Deregistered;
      }
    }

    method RunRegistrationType(e: Env, regType: nat, a: Answers)
      modifies this
      ensures View() == AfterRegistrationType(e, old(View()), regType, a)
    {
      if regType == INITIAL {
        RunRegistrationProcedure(a);
      } else if regType == MOBILITY {
        if sec.None? {
          RunRegistrationProcedure(a);
          return;
        }
        if a.encodes {
          var nas := ProtectDownlink(e, a);
        }
      } else if regType == PERIODIC {
        if a.encodes && sec.Some? {
          var nas := ProtectDownlink(e, a);
        }
      }
    }
  }

  /** There is a session to activate: the list of them is not empty. */
  method HasSessionsToActivate(q: ServiceRequest) returns (b: bool)
    ensures b <==> Activates(q)
  {
    var ids := PduSessions.SessionsToActivate(q.uplinkData, q.status);
    b := |ids| > 0;
    if b {
      assert ids[0] in PduSessions.IdSet(ids);
    }
  }

  lemma ServePutTwice<R>(e: AmfEnv, s: State<R>, r: R, n: Nas, k: Key, q: ServiceRequest, a: Answers)
    ensures ServeWith(e, Put(s, r, n), r, n, k, q, a) == ServeWith(e, s, r, n, k, q, a)
  {
    PutTwice(s, r, n, AfterServiceReject(n, a));
    PutTwice(s, r, n, AfterServiceAccept(e.channel, n, q, a));
  }

  lemma PutTwice<R>(s: State<R>, r: R, n: Nas, n': Nas)
    ensures Put(Put(s, r, n), r, n') == Put(s, r, n')
  {
    assert s.nas[r := n][r := n'] == s.nas[r := n'];
  }

  lemma PutAt<R>(s: State<R>, r: R)
    requires r in s.nas
    ensures Put(s, r, At(s, r)) == s
  {
    assert s.nas[r := s.nas[r]] == s.nas;
  }

  /** A step of the state machine, which keeps its invariant and forgets nothing. */
  ghost predicate IsStep<R>(e: AmfEnv, s: State<R>, ev: Event<R>, s': State<R>) {
    && Enabled(s, ev) && s' == Next(e, s, ev)
    && (RegistrationSafety.Inv(e, s) ==> RegistrationSafety.Kept(e, s, s'))
  }

  lemma StepIsGood<R>(e: AmfEnv, s: State<R>, ev: Event<R>)
    requires Enabled(s, ev)
    ensures IsStep(e, s, ev, Next(e, s, ev))
  {
    if RegistrationSafety.Inv(e, s) {
      RegistrationSafety.NextKept(e, s, ev);
    }
  }

  function Found(nc: NasContext?): Option<NasContext> {
    if nc == null then None else Some(nc)
  }

  /** The index maps of the two tasks, the UE contexts, the generators and the queue to N1. */
  class Amf {
    var byAmf: map<nat, NasContext>
    var bySupi: map<string, NasContext>
    var byGuti: map<string, NasContext>
    var supiAmf: map<string, nat>
    var supiRan: map<string, nat>
    var ueContexts: map<Key, UeContext>
    var supiUe: map<string, Key>
    var nextId: nat
    var queue: seq<Indication>
    const tmsiGenerator: UintGenerator.Generator

    /** Every NAS context there ever was. */
    ghost var contexts: set<NasContext>

    /** An exception nobody catches has ended the process. */
    ghost var isDown: bool

    ghost predicate Valid()
      reads this, tmsiGenerator
    {
      && tmsiGenerator.Valid() && tmsiGenerator.modulus == Guti.TMSI_MODULUS
      && (forall a :: a in byAmf ==> byAmf[a] in contexts)
      && (forall supi :: supi in bySupi ==> bySupi[supi] in contexts)
      && (forall g :: g in byGuti ==> byGuti[g] in contexts)
      && (forall j :: 0 <= j < |queue| ==> Readable(queue[j].nas))
    }

    ghost function Abstract(): State<NasContext>
      reads this, contexts, tmsiGenerator
    {
      State(map c | c in contexts :: c.View(), byAmf, bySupi, byGuti, supiAmf, supiRan, ueContexts, supiUe,
            tmsiGenerator.generated, tmsiGenerator.last, nextId, queue, isDown)
    }

    constructor ()
      ensures Valid() && fresh(tmsiGenerator)
      ensures Abstract() == RegistrationSafety.Start()
    {
      byAmf, bySupi, byGuti := map[], map[], map[];
      supiAmf, supiRan, ueContexts, supiUe := map[], map[], map[], map[];
      nextId, queue, contexts, isDown := 1, [], {}, false;
      tmsiGenerator := new UintGenerator.Generator(Guti.TMSI_MODULUS);
    }

    // ---- Index maps ----

    method SetSupiIds(supi: string, k: Key)
      requires Valid()
      modifies this`supiAmf, this`supiRan
      ensures Valid() && Abstract() == BindIds(old(Abstract()), supi, k)
    {
      supiAmf := supiAmf[supi := k.amf];
      supiRan := supiRan[supi := k.ran];
    }

    method NameUe(k: Key, supi: string)
      requires Valid() && k in ueContexts
      modifies this`ueContexts, this`supiUe
      ensures Valid() && Abstract() == BindUe(old(Abstract()), k, supi)
    {
      ueContexts := ueContexts[k := ueContexts[k].(supi := supi)];
      supiUe := supiUe[supi := k];
    }

    /** Storage for a new context. */
    method NewNasContext() returns (nc: NasContext)
      requires Valid()
      modifies this`contexts
      ensures Valid() && fresh(nc) && contexts == old(contexts) + {nc}
      ensures Abstract() == Put(old(Abstract()), nc, NEW_NAS)
    {
      nc := new NasContext();
      contexts := contexts + {nc};
    }

    method SetAmfId(amf: nat, nc: NasContext)
      requires Valid() && nc in contexts
      modifies this`byAmf
      ensures Valid() && Abstract() == BindAmf(old(Abstract()), amf, nc)
    {
      byAmf := byAmf[amf := nc];
    }

    method SetSupi(supi: string, nc: NasContext)
      requires Valid() && nc in contexts
      modifies this`bySupi
      ensures Valid() && Abstract() == BindSupi(old(Abstract()), supi, nc)
    {
      bySupi := bySupi[supi := nc];
    }

    /** A change to one NAS context is a put in the abstract state. */
    twostate lemma OnlyChanged(nc: NasContext)
      requires old(Valid()) && nc in contexts && unchanged(this) && unchanged(tmsiGenerator)
      requires forall c :: c in contexts && c != nc ==> unchanged(c)
      ensures Abstract() == Put(old(Abstract()), nc, nc.View())
      ensures At(old(Abstract()), nc) == old(nc.View())
    {
      assert Abstract().nas == old(Abstract()).nas[nc := nc.View()];
    }

    // ---- Registration Request ----

    method RegisterWithIdentity(nc: NasContext, k: Key, identity: MobileIdentity)
      requires Valid() && nc in contexts
      modifies this`supiAmf, this`supiRan, this`bySupi, nc
      ensures Valid() && Abstract() == RegisterIdentity(old(Abstract()), nc, k, identity)
    {
      match identity
      case Suci(imsi) =>
        if imsi.Some? {
          nc.RecordSuci(imsi.value);
          OnlyChanged(nc);
          var supi := Guti.Supi(imsi.value);
          SetSupiIds(supi, k);
          SetSupi(supi, nc);
        }
      case FiveGGuti =>
        nc.RecordGuti();
        OnlyChanged(nc);
      case OtherIdentity =>
    }

    method ArriveAs(nc: NasContext, k: Key)
      requires Valid() && nc in contexts && k in ueContexts
      modifies this`byAmf, this`ueContexts, this`supiUe, nc
      ensures Valid() && Abstract() == Arrive(old(Abstract()), nc, k)
    {
      SetAmfId(k.amf, nc);
      label Bound:
      nc.TakeIdentities(k);
      OnlyChanged@Bound(nc);
      NameUe(k, Guti.Supi(nc.id.imsi));
    }

    method RegistrationRequestHandle(e: AmfEnv, nc: NasContext, k: Key, q: RegistrationRequest, a: Answers)
      requires Valid() && nc in contexts
      modifies this`supiAmf, this`supiRan, this`bySupi, this`byAmf, this`ueContexts, this`supiUe, nc
      ensures Valid() && Abstract() == Register(e, old(Abstract()), nc, k, q, a)
    {
      if k !in ueContexts {
        return;
      }
      RegisterWithIdentity(nc, k, q.identity);
      ArriveAs(nc, k);
      if q.regType.None? {
        return;
      }
      if q.ngksi.None? {
        return;
      }
      label Arrived:
      nc.TakeRequest(q.ngksi.value, q.capability);
      nc.RunRegistrationType(e.channel, q.regType.value, a);
      OnlyChanged@Arrived(nc);
    }

    // ---- Identity Response ----

    /** The context of an AMF identity, a new one if there is none. */
    method FindOrCreate(amf: nat) returns (nc: NasContext, ghost spare: NasContext)
      requires Valid()
      modifies this`contexts, this`byAmf
      ensures Valid() && old(contexts) <= contexts && fresh(contexts - old(contexts))
      ensures spare !in old(contexts) && nc in contexts
      ensures nc == if amf in old(byAmf) then old(byAmf)[amf] else spare
      ensures Abstract() == if amf in old(byAmf) then old(Abstract())
                            else BindAmf(Put(old(Abstract()), spare, NEW_NAS), amf, spare)
    {
      if amf in byAmf {
        nc := byAmf[amf];
        spare := new NasContext.Unused();
      } else {
        nc := NewNasContext();
        spare := nc;
        SetAmfId(amf, nc);
      }
    }

    method IdentityResponseHandle(k: Key, imsi: string, a: Answers, ghost t: Tmsi) returns (ghost spare: NasContext)
      requires Valid()
      modifies this`contexts, this`byAmf, this`supiAmf, this`supiRan, this`ueContexts, this`supiUe, contexts
      ensures Valid() && fresh(contexts - old(contexts)) && old(contexts) <= contexts && spare !in old(contexts)
      ensures Abstract() == Identify(old(Abstract()), k, imsi, Inputs(spare, a, t))
    {
      if k in ueContexts {
        NameUe(k, Guti.Supi(imsi));
      }
      var nc;
      nc, spare := FindOrCreate(k.amf);
      IdentifyContext(nc, k, imsi, a);
    }

    method IdentifyContext(nc: NasContext, k: Key, imsi: string, a: Answers)
      requires Valid() && nc in contexts
      modifies this`supiAmf, this`supiRan, nc
      ensures Valid()
      ensures var s, n := old(Abstract()), AfterIdentity(Identified(old(nc.View()), k, imsi), a);
              Abstract() == BindIds(Put(s, nc, n), Guti.Supi(imsi), k)
    {
      nc.TakeIdentity(k, imsi, a);
      OnlyChanged(nc);
      SetSupiIds(Guti.Supi(imsi), k);
    }

    // ---- Service Request ----

    method ServeWithContext(e: AmfEnv, nc: NasContext, k: Key, q: ServiceRequest, a: Answers)
      returns (kgnbCount: Option<bv32>)
      requires Valid() && nc in contexts && k in ueContexts
      modifies this`byAmf, this`supiAmf, this`supiRan, this`ueContexts, this`supiUe, nc
      ensures Valid() && Abstract() == ServeWith(e, old(Abstract()), nc, old(nc.View()), k, q, a)
      ensures kgnbCount == ServiceKgnb(old(nc.View()), q)
    {
      if nc.sec.None? || !q.isDecoded {
        nc.SendServiceReject(a);
        OnlyChanged(nc);
        return None;
      }
      kgnbCount := nc.AcceptService(e.channel, q, a);
      OnlyChanged(nc);
      SetAmfId(k.amf, nc);
      var supi := Guti.Supi(nc.id.imsi);
      SetSupiIds(supi, k);
      NameUe(k, supi);
    }

    /** Takes what is missing from the context of the request's GUTI; false where the source throws. */
    method RecallSecurity(e: AmfEnv, nc: NasContext, k: Key, q: ServiceRequest, ulCount: Octet) returns (ok: bool)
      requires Valid() && nc in contexts && k in ueContexts
      modifies nc
      ensures Valid()
      ensures var s, former := old(Abstract()), OldContext(e, old(Abstract()), nc, k, q);
              && (ok <==> former.None? || At(s, former.value).sec.Some?)
              && nc.View() == (if ok && former.Some? then Recalled(At(s, nc), At(s, former.value), ulCount)
                               else At(s, nc))
              && Abstract() == Put(s, nc, nc.View())
    {
      ok := true;
      if q.isDecoded && nc.id.guti.None? && q.sTmsi.Some? {
        var g := ServiceGuti(e, ueContexts[k].plmn, q.sTmsi.value);
        if g in byGuti {
          if byGuti[g].sec.None? {
            ok := false;
          } else {
            nc.Recall(byGuti[g], ulCount);
          }
        }
      }
      OnlyChanged(nc);
    }

    /** Where the old context has no security context the source throws, and the process ends. */
    method InitialServiceRequestHandle(e: AmfEnv, nc: NasContext, k: Key, q: ServiceRequest, ulCount: Octet, a: Answers)
      returns (kgnbCount: Option<bv32>)
      requires Valid() && nc in contexts
      modifies this`byAmf, this`supiAmf, this`supiRan, this`ueContexts, this`supiUe, this`isDown, nc
      ensures Valid() && Abstract() == ServeInitial(e, old(Abstract()), nc, k, q, ulCount, a)
      ensures kgnbCount == ServeInitialKgnb(e, old(Abstract()), nc, k, q, ulCount)
    {
      if k !in ueContexts {
        return None;
      }
      var ok := RecallSecurity(e, nc, k, q, ulCount);
      if !ok {
        PutAt(old(Abstract()), nc);
        isDown := true;
        return None;
      }
      ServeRecalled(e, old(Abstract()), nc, nc.View(), k, q, ulCount, a);
      ServePutTwice(e, old(Abstract()), nc, nc.View(), k, q, a);
      kgnbCount := ServeWithContext(e, nc, k, q, a);
    }

    method ServiceRequestHandle(e: AmfEnv, nc: NasContext, k: Key, q: ServiceRequest, a: Answers)
      requires Valid() && nc in contexts
      modifies this`byAmf, nc
      ensures Valid() && Abstract() == ServeConnected(e, old(Abstract()), nc, k, q, a)
    {
      if k !in ueContexts {
        return;
      }
      if nc.sec.None? || !q.isDecoded {
        nc.SendServiceReject(a);
        OnlyChanged(nc);
        return;
      }
      SetAmfId(k.amf, nc);
      if q.isContainerShort {
        return;
      }
      label Bound:
      var activates := HasSessionsToActivate(q);
      if !activates {
        nc.SendServiceReject(a);
      } else {
        var nas := nc.ProtectDownlink(e.channel, a);
      }
      OnlyChanged@Bound(nc);
    }

    // ---- Security Mode Complete ----

    /** A new TMSI, and the GUTI made from it bound to the context. */
    method AllocateGuti(e: AmfEnv, nc: NasContext, k: Key) returns (tmsi: Tmsi, g: string)
      requires Valid() && nc in contexts && k in ueContexts && |tmsiGenerator.generated| < tmsiGenerator.modulus
      modifies this`ueContexts, this`byGuti, tmsiGenerator
      ensures Valid() && IsNextTmsi(old(Abstract()), tmsi)
      ensures g == Guti.Allocated(old(ueContexts)[k].plmn, e.amf, tmsi)
      ensures Abstract() == Allocate(old(Abstract()), nc, k, tmsi, g)
    {
      var u := ueContexts[k];
      tmsi := tmsiGenerator.GetUid();
      ueContexts := ueContexts[k := u.(tmsi := tmsi)];
      g := Guti.Allocated(u.plmn, e.amf, tmsi);
      byGuti := byGuti[g := nc];
    }

    method SecurityModeCompleteHandle(e: AmfEnv, k: Key, a: Answers, ghost spare: NasContext)
      returns (ghost tmsi: Tmsi, kgnbCount: Option<bv32>)
      requires Valid() && |tmsiGenerator.generated| < tmsiGenerator.modulus
      modifies this`ueContexts, this`byGuti, tmsiGenerator, contexts
      ensures Valid() && IsNextTmsi(old(Abstract()), tmsi)
      ensures Abstract() == Complete(e, old(Abstract()), k, Inputs(spare, a, tmsi))
      ensures kgnbCount == CompleteKgnb(old(Abstract()), k, a)
    {
      kgnbCount := None;
      if k !in ueContexts || k.amf !in byAmf || a.isRerouted {
        tmsi := UintGenerator.SomeNext(tmsiGenerator.generated, tmsiGenerator.last, tmsiGenerator.modulus);
        return;
      }
      var nc := byAmf[k.amf];
      var isContextRequested := ueContexts[k].isContextRequested;
      var uid, g := AllocateGuti(e, nc, k);
      tmsi := uid;
      label Bound:
      kgnbCount := nc.AcceptRegistration(e.channel, g, isContextRequested, a);
      OnlyChanged@Bound(nc);
    }

    // ---- Deregistration ----

    method DeregistrationHandle(k: Key, g: string, isSwitchOff: bool, a: Answers)
      requires Valid()
      modifies this`byAmf, this`bySupi, this`byGuti, contexts
      ensures Valid() && Abstract() == Registration.Deregister(old(Abstract()), k, g, isSwitchOff, a)
    {
      if k.amf !in byAmf {
        return;
      }
      var nc := byAmf[k.amf];
      if Key(nc.id.ran, nc.id.amf) !in ueContexts {
        return;
      }
      if !isSwitchOff {
        if !a.encodes {
          return;
        }
      }
      nc.Deregister();
      OnlyChanged(nc);
      Forget(k.amf, Guti.Supi(nc.id.imsi), {g});
    }

    method Forget(amf: nat, supi: string, gutis: set<string>)
      requires Valid()
      modifies this`byAmf, this`bySupi, this`byGuti
      ensures Valid() && Abstract() == Unbind(old(Abstract()), amf, supi, gutis)
      ensures gutis == {} ==> byGuti == old(byGuti)
    {
      byAmf := byAmf - {amf};
      bySupi := bySupi - {supi};
      byGuti := byGuti - gutis;
    }

    // ---- Other tasks ----

    /** N2 has released the UE. */
    method RemoveUeContext(ghost e: AmfEnv, amf: nat)
      requires Valid() && !isDown
      modifies this`byAmf, this`bySupi, this`byGuti
      ensures Valid() && byGuti == old(byGuti) && IsStep(e, old(Abstract()), ContextRelease(amf), Abstract())
    {
      if amf in byAmf {
        Forget(amf, Guti.Supi(byAmf[amf].id.imsi), {});
      }
      StepIsGood(e, old(Abstract()), ContextRelease(amf));
    }

    method DownlinkNasTransfer(e: AmfEnv, amf: nat, a: Answers) returns (nas: Option<OctetString>)
      requires Valid() && !isDown
      modifies contexts
      ensures Valid() && IsStep(e, old(Abstract()), DownlinkTransfer(amf, a), Abstract())
      ensures nas.Some? <==> amf in byAmf && old(byAmf[amf].sec).Some?
      ensures nas.Some? ==> byAmf[amf].sent == old(byAmf[amf].sent) + [Sent(a.text, nas.value)]
    {
      StepIsGood(e, old(Abstract()), DownlinkTransfer(amf, a));
      if amf !in byAmf {
        return None;
      }
      var nc := byAmf[amf];
      if nc.sec.None? {
        OnlyChanged(nc);
        return None;
      }
      var octets := nc.ProtectDownlink(e.channel, a);
      OnlyChanged(nc);
      nas := Some(octets);
    }

    method StoreUe(k: Key, plmn: string, isContextRequested: Option<bool>)
      requires Valid()
      modifies this`ueContexts
      ensures Valid() && Abstract() == PutUe(old(Abstract()), k, plmn, isContextRequested)
    {
      var u := NO_UE;
      if k in ueContexts {
        u := ueContexts[k];
      }
      u := u.(ran := k.ran, amf := k.amf, plmn := plmn);
      if isContextRequested.Some? {
        u := u.(isContextRequested := isContextRequested.value);
      }
      ueContexts := ueContexts[k := u];
    }

    method HandoverNotifyHandle(ghost e: AmfEnv, k: Key, plmn: string)
      requires Valid() && !isDown && Guti.IsPlmn(plmn)
      modifies this`ueContexts, contexts
      ensures Valid() && IsStep(e, old(Abstract()), HandoverNotify(k, plmn), Abstract())
    {
      StepIsGood(e, old(Abstract()), HandoverNotify(k, plmn));
      if k.amf !in byAmf {
        return;
      }
      var nc := byAmf[k.amf];
      StoreUe(k, plmn, None);
      label Stored:
      nc.SetRan(k.ran);
      OnlyChanged@Stored(nc);
    }

    /** The UE context of a new connection. */
    method StoreNewUe(ran: nat, plmn: string, isContextRequested: bool) returns (k: Key)
      requires Valid()
      modifies this`nextId, this`ueContexts
      ensures Valid() && k == Key(ran, old(nextId))
      ensures Abstract() == PutUe(old(Abstract()), k, plmn, Some(isContextRequested))
                            .(nextId := (old(nextId) + 1) % ID_MODULUS)
    {
      k := Key(ran, nextId);
      StoreUe(k, plmn, Some(isContextRequested));
      nextId := (nextId + 1) % ID_MODULUS;
    }

    /** The UE context of a new connection, and its indication to N1. */
    method AddConnection(e: AmfEnv, ran: nat, plmn: string, isContextRequested: bool, sTmsi: Option<string>,
                         nas: OctetString)
      requires Valid() && Readable(nas)
      modifies this`nextId, this`ueContexts, this`queue
      ensures Valid() && Abstract() == Connect(e, old(Abstract()), ran, plmn, isContextRequested, sTmsi, nas)
    {
      var k := StoreNewUe(ran, plmn, isContextRequested);
      var g := None;
      if sTmsi.Some? {
        g := Some(Guti.Reattached(plmn, e.amf.region, sTmsi.value));
      }
      SendToN1(Indication(k, true, g, nas));
    }

    /** AMF_APP: a new signalling connection. */
    method NasSignallingEstablishmentRequest(e: AmfEnv, ran: nat, plmn: string, isContextRequested: bool,
                                             sTmsi: Option<string>, nas: OctetString)
      requires Valid() && !isDown && Guti.IsPlmn(plmn) && Readable(nas)
      modifies this`nextId, this`ueContexts, this`queue
      ensures Valid()
      ensures IsStep(e, old(Abstract()), Connection(ran, plmn, isContextRequested, sTmsi, nas), Abstract())
    {
      AddConnection(e, ran, plmn, isContextRequested, sTmsi, nas);
      StepIsGood(e, old(Abstract()), Connection(ran, plmn, isContextRequested, sTmsi, nas));
    }

    /** N2: an uplink message, under the pair of identities it came with. */
    method UplinkNasTransport(ghost e: AmfEnv, k: Key, nas: OctetString)
      requires Valid() && !isDown && Readable(nas)
      modifies this`queue
      ensures Valid() && IsStep(e, old(Abstract()), Uplink(k, nas), Abstract())
    {
      SendToN1(Indication(k, false, None, nas));
      StepIsGood(e, old(Abstract()), Uplink(k, nas));
    }

    method SendToN1(ind: Indication)
      requires Valid() && Readable(ind.nas)
      modifies this`queue
      ensures Valid() && Abstract() == Enqueue(old(Abstract()), ind)
    {
      queue := queue + [ind];
    }

    // ---- The uplink handler ----

    method NewConnectedContext(k: Key) returns (nc: NasContext)
      requires Valid()
      modifies this`contexts
      ensures Valid() && fresh(nc) && contexts == old(contexts) + {nc}
      ensures Abstract() == Put(old(Abstract()), nc, NewContext(k))
    {
      nc := NewNasContext();
      label Created:
      nc.id := nc.id.(amf := k.amf, ran := k.ran);
      OnlyChanged@Created(nc);
    }

    method TakeUplinkCount(nc: NasContext, ulCount: Octet)
      requires Valid() && nc in contexts
      modifies nc
      ensures Valid() && Abstract() == Put(old(Abstract()), nc, WithUplinkCount(old(nc.View()), ulCount))
      ensures nc.View() == WithUplinkCount(old(nc.View()), ulCount)
    {
      nc.TakeUplinkCount(ulCount);
      OnlyChanged(nc);
    }

    /** nas_signalling_establishment_request_handle, up to the handling of the message. */
    method Admit(found: NasContext?, k: Key) returns (nc: NasContext, ghost spare: NasContext)
      requires Valid() && (found != null ==> found in contexts)
      modifies this`contexts, this`byAmf
      ensures Valid() && fresh(contexts - old(contexts)) && old(contexts) <= contexts && spare !in old(contexts)
      ensures nc in contexts && nc == Found(found).GetOr(spare)
      ensures Abstract() == Admitted(old(Abstract()), Found(found), k, spare)
    {
      if found == null {
        nc := NewConnectedContext(k);
        spare := nc;
      } else {
        nc := found;
        spare := new NasContext.Unused();
      }
      SetAmfId(k.amf, nc);
    }

    method NasSignallingEstablishmentRequestHandle(e: AmfEnv, found: NasContext?, k: Key, m: Message, ulCount: Octet,
                                                   a: Answers, ghost t: Tmsi)
      returns (ghost spare: NasContext, kgnbCount: Option<bv32>)
      requires Valid() && (found != null ==> found in contexts)
      modifies this`contexts, this`byAmf, this`bySupi, this`supiAmf, this`supiRan, this`ueContexts, this`supiUe,
               this`isDown, contexts
      ensures Valid() && fresh(contexts - old(contexts)) && spare !in old(contexts)
      ensures Abstract() == Establish(e, old(Abstract()), Found(found), k, m, ulCount, Inputs(spare, a, t))
      ensures kgnbCount == EstablishKgnb(e, old(Abstract()), Found(found), k, m, ulCount, Inputs(spare, a, t))
    {
      var nc;
      nc, spare := Admit(found, k);
      kgnbCount := None;
      match m
      case Registration(q) =>
        RegistrationRequestHandle(e, nc, k, q, a);
      case Service(q) =>
        TakeUplinkCount(nc, ulCount);
        kgnbCount := InitialServiceRequestHandle(e, nc, k, q, ulCount, a);
      case _ =>
    }

    /** Inputs for a handler that draws on no new storage and no new TMSI. */
    method NothingDrawn(a: Answers) returns (ghost i: Inputs<NasContext>)
      requires Valid() && |tmsiGenerator.generated| < tmsiGenerator.modulus
      ensures i.answers == a && fresh(i.spare) && IsNextTmsi(Abstract(), i.tmsi)
      ensures Abstract() == old(Abstract())
    {
      ghost var t := UintGenerator.SomeNext(tmsiGenerator.generated, tmsiGenerator.last, tmsiGenerator.modulus);
      ghost var unused := new NasContext.Unused();
      i := Inputs(unused, a, t);
    }

    method CompleteFor(e: AmfEnv, k: Key, a: Answers) returns (ghost i: Inputs<NasContext>, kgnbCount: Option<bv32>)
      requires Valid() && |tmsiGenerator.generated| < tmsiGenerator.modulus
      modifies this`ueContexts, this`byGuti, tmsiGenerator, contexts
      ensures Valid()
      ensures i.answers == a && i.spare !in old(contexts) && IsNextTmsi(old(Abstract()), i.tmsi)
      ensures Abstract() == Dispatch(e, old(Abstract()), k, SecurityModeComplete, i)
      ensures kgnbCount == CompleteKgnb(old(Abstract()), k, a)
    {
      i := NothingDrawn(a);
      ghost var tmsi;
      tmsi, kgnbCount := SecurityModeCompleteHandle(e, k, a, i.spare);
      i := i.(tmsi := tmsi);
    }

    method IdentifyFor(k: Key, imsi: string, a: Answers) returns (ghost i: Inputs<NasContext>)
      requires Valid() && |tmsiGenerator.generated| < tmsiGenerator.modulus
      modifies this`contexts, this`byAmf, this`supiAmf, this`supiRan, this`ueContexts, this`supiUe, contexts
      ensures Valid() && fresh(contexts - old(contexts))
      ensures i.answers == a && i.spare !in old(contexts) && IsNextTmsi(old(Abstract()), i.tmsi)
      ensures Abstract() == Identify(old(Abstract()), k, imsi, i)
    {
      i := NothingDrawn(a);
      ghost var spare := IdentityResponseHandle(k, imsi, a, i.tmsi);
      i := i.(spare := spare);
    }

    /** uplink_nas_msg_handle. */
    method UplinkNasMsgHandle(e: AmfEnv, k: Key, m: Message, a: Answers)
      returns (ghost i: Inputs<NasContext>, kgnbCount: Option<bv32>)
      requires Valid() && |tmsiGenerator.generated| < tmsiGenerator.modulus
      modifies this, tmsiGenerator, contexts
      ensures Valid() && fresh(contexts - old(contexts))
      ensures i.answers == a && i.spare !in old(contexts) && IsNextTmsi(old(Abstract()), i.tmsi)
      ensures Abstract() == Dispatch(e, old(Abstract()), k, m, i)
      ensures kgnbCount == if m.SecurityModeComplete? then CompleteKgnb(old(Abstract()), k, a) else None
    {
      kgnbCount := None;
      match m
      case SecurityModeComplete =>
        i, kgnbCount := CompleteFor(e, k, a);
      case IdentityResponse(imsi) =>
        if imsi.Some? {
          i := IdentifyFor(k, imsi.value, a);
        } else {
          i := NothingDrawn(a);
        }
        assert Abstract() == Dispatch(e, old(Abstract()), k, m, i);
      case _ =>
        i := NothingDrawn(a);
        CommonMessageHandle(e, k, m, a, i);
    }

    /** The messages that draw on nothing new. */
    method CommonMessageHandle(e: AmfEnv, k: Key, m: Message, a: Answers, ghost i: Inputs<NasContext>)
      requires Valid() && i.answers == a && !m.SecurityModeComplete? && !m.IdentityResponse?
      modifies this`byAmf, this`bySupi, this`byGuti, this`supiAmf, this`supiRan, this`ueContexts, this`supiUe, contexts
      ensures Valid() && Abstract() == Dispatch(e, old(Abstract()), k, m, i)
    {
      if k.amf !in byAmf {
        return;
      }
      if m.Deregistration? {
        DeregistrationHandle(k, m.guti, m.isSwitchOff, a);
      } else {
        FoundMessageHandle(e, byAmf[k.amf], k, m, a, i);
      }
    }

    /** The messages for which the context is looked up and nothing else is needed. */
    method FoundMessageHandle(e: AmfEnv, nc: NasContext, k: Key, m: Message, a: Answers, ghost i: Inputs<NasContext>)
      requires Valid() && i.answers == a && k.amf in byAmf && nc == byAmf[k.amf]
      requires !m.SecurityModeComplete? && !m.IdentityResponse? && !m.Deregistration?
      modifies this`byAmf, this`bySupi, this`supiAmf, this`supiRan, this`ueContexts, this`supiUe, nc
      ensures Valid() && Abstract() == Dispatch(e, old(Abstract()), k, m, i)
    {
      match m
      case Registration(q) =>
        RegistrationRequestHandle(e, nc, k, q, a);
      case Service(q) =>
        ServiceRequestHandle(e, nc, k, q, a);
      case AuthenticationResponse =>
        nc.HandleAuthenticationResponse(e.channel, a);
        OnlyChanged(nc);
      case AuthenticationFailure(cause) =>
        nc.HandleAuthenticationFailure(cause, a);
        OnlyChanged(nc);
      case OtherMessage =>
    }

    /** The context of an indication; one found by GUTI takes over the new identities. */
    method FindContext(ind: Indication) returns (nc: NasContext?)
      requires Valid()
      modifies this`byAmf, this`bySupi, this`supiAmf, this`supiRan, contexts
      ensures Valid() && Abstract() == Rebound(old(Abstract()), ind)
      ensures nc == null <==> Lookup(old(Abstract()), ind).None?
      ensures nc != null ==> nc == Lookup(old(Abstract()), ind).value && nc in contexts
    {
      if ind.guti.Some? {
        if ind.guti.value !in byGuti {
          return null;
        }
        nc := byGuti[ind.guti.value];
        nc.Move(ind.guti.value, ind.key);
        OnlyChanged(nc);
        SetAmfId(ind.key.amf, nc);
        var supi := Guti.Supi(nc.id.imsi);
        SetSupiIds(supi, ind.key);
        SetSupi(supi, nc);
      } else if ind.key.amf in byAmf {
        nc := byAmf[ind.key.amf];
      } else {
        nc := null;
      }
    }

    method OpenUplink(e: AmfEnv, ind: Indication, slack: Slack) returns (nc: NasContext?, o: Outcome)
      requires Valid() && Readable(ind.nas)
      modifies this`byAmf, this`bySupi, this`supiAmf, this`supiRan, contexts
      ensures Valid() && Abstract() == Seen(old(Abstract()), ind)
      ensures o == Opened(e, old(Abstract()), ind, slack)
      ensures nc == null <==> Lookup(old(Abstract()), ind).None?
      ensures nc != null ==> nc == Lookup(old(Abstract()), ind).value && nc in contexts
    {
      nc := FindContext(ind);
      label Found:
      if nc == null {
        o := UnprotectUplink(e.channel.primitives, null, ind.nas, slack);
        return;
      }
      o := nc.Unprotect(e.channel, ind.nas, slack);
      OnlyChanged@Found(nc);
    }

    method EstablishFor(e: AmfEnv, found: NasContext?, k: Key, m: Message, ulCount: Octet, a: Answers)
      returns (ghost i: Inputs<NasContext>, kgnbCount: Option<bv32>)
      requires Valid() && (found != null ==> found in contexts) && |tmsiGenerator.generated| < tmsiGenerator.modulus
      modifies this`contexts, this`byAmf, this`bySupi, this`supiAmf, this`supiRan, this`ueContexts, this`supiUe,
               this`isDown, contexts
      ensures Valid() && fresh(contexts - old(contexts))
      ensures i.answers == a && i.spare !in old(contexts) && IsNextTmsi(old(Abstract()), i.tmsi)
      ensures Abstract() == Establish(e, old(Abstract()), Found(found), k, m, ulCount, i)
      ensures kgnbCount == EstablishKgnb(e, old(Abstract()), Found(found), k, m, ulCount, i)
    {
      i := NothingDrawn(a);
      ghost var spare;
      spare, kgnbCount := NasSignallingEstablishmentRequestHandle(e, found, k, m, ulCount, a, i.tmsi);
      i := i.(spare := spare);
    }

    /** The uplink handler of the N1 task, and the count it derives a gNB key under, if it does. */
    method HandleUplinkNasDataInd(e: AmfEnv, ind: Indication, a: Answers)
      returns (ghost i: Inputs<NasContext>, kgnbCount: Option<bv32>)
      requires Valid() && Readable(ind.nas) && |tmsiGenerator.generated| < tmsiGenerator.modulus
      modifies this, tmsiGenerator, contexts
      ensures Valid() && fresh(contexts - old(contexts))
      ensures i.answers == a && i.spare !in old(contexts) && IsNextTmsi(old(Abstract()), i.tmsi)
      ensures Abstract() == HandleUplink(e, old(Abstract()), ind, i)
      ensures kgnbCount == HandledKgnb(e, old(Abstract()), ind, i)
    {
      var nc, o := OpenUplink(e, ind, a.slack);
      kgnbCount := None;
      if o.Dropped? {
        i := NothingDrawn(a);
      } else if ind.isEstablishment {
        i, kgnbCount := EstablishFor(e, nc, ind.key, e.decode(o.text), o.ulCount, a);
      } else {
        i, kgnbCount := UplinkNasMsgHandle(e, ind.key, e.decode(o.text), a);
      }
    }

    /** The N1 task takes the first message off its queue. */
    method ReceiveMessage() returns (ind: Indication)
      requires Valid() && |queue| > 0
      modifies this`queue
      ensures Valid() && ind == old(queue[0])
      ensures Abstract() == old(Abstract()).(queue := old(queue[1..]))
    {
      ind := queue[0];
      queue := queue[1..];
    }

    /** One turn of the N1 task is a Deliver event. */
    method RunN1(e: AmfEnv, a: Answers) returns (ghost i: Inputs<NasContext>, kgnbCount: Option<bv32>)
      requires Valid() && !isDown && |queue| > 0 && |tmsiGenerator.generated| < tmsiGenerator.modulus
      modifies this, tmsiGenerator, contexts
      ensures Valid() && i.answers == a && IsStep(e, old(Abstract()), Deliver(i), Abstract())
      ensures kgnbCount == HandledKgnb(e, old(Abstract()).(queue := old(queue[1..])), old(queue[0]), i)
    {
      var ind := ReceiveMessage();
      i, kgnbCount := HandleUplinkNasDataInd(e, ind, a);
      StepIsGood(e, old(Abstract()), Deliver(i));
    }
  }
}

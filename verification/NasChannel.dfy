/**
 A security context over its whole life (amf_n1.cpp): it is created, a Security
 Mode Command installs its algorithms, messages are protected under it, and a
 new registration arms it for the next Security Mode Command.
 */
module NasChannel {
  import opened Wrappers
  import opened Octets
  import opened NasSecurity
  import opened NasFrame
  import opened NasDownlink
  import opened NasUplink
  import opened AlgorithmPolicy

  /** The encoded plain messages the AMF protects. */
  type NasText = t: OctetString | |t| <= 4088

  /** What the stack buffer held, and the octets after the text (see NasDownlink). */
  type Stale = s: OctetString | |s| == BUFFER_SIZE witness seq(BUFFER_SIZE, _ => 0)
  type Slack = s: OctetString | |s| == 3 witness [0, 0, 0]

  /** The contents of a Security Mode Command that matter here. */
  datatype SecurityModeCommand = SecurityModeCommand(nea: Algorithm, nia: Algorithm, ngksi: nat)

  datatype KeyKind = NasInt | NasEnc

  /** What the AMF runs with: primitives, key derivation, codec and preferences. */
  datatype Env = Env(
    primitives: Primitives,
    knas: (KeyKind, Algorithm, OctetString) -> OctetString,
    smcText: SecurityModeCommand -> NasText,
    ciphering: seq<AlgId>,
    integrity: seq<AlgId>)

  /** What the NAS context holds for a Security Mode Command. */
  datatype SmcInput = SmcInput(ngksi: nat, kamf: OctetString, ea: Octet, ia: Octet)

  /** The context with the selected algorithms and new keys, its counters at zero. */
  function Installed(e: Env, s: SecCtx, i: SmcInput): SecCtx {
    var sel := Select(e.ciphering, e.integrity, i.ea, i.ia);
    s.(scType := FullNative, ngksi := i.ngksi, dl := ZERO_COUNT, ul := ZERO_COUNT,
       encryption := sel.nea, integrity := sel.nia,
       knasInt := e.knas(NasInt, sel.nia, i.kamf), knasEnc := e.knas(NasEnc, sel.nea, i.kamf))
  }

  /** The context after a Security Mode Command went out, or could not. */
  function AfterSmc(e: Env, s: SecCtx, i: SmcInput): SecCtx {
    if s.scType.NotAvailable? then AfterEncode(Installed(e, s, i), true, INTEGRITY_PROTECTED_NEW) else s
  }

  /** What a started security mode control leaves: context, command, and protected message. */
  datatype SmcResult = SmcResult(ctx: SecCtx, command: SecurityModeCommand, nas: Option<OctetString>)

  function StartSmc(e: Env, s: SecCtx, i: SmcInput, stale: Stale, slack: Slack): SmcResult {
    if s.scType.NotAvailable? then
      var t := Installed(e, s, i);
      var command := SecurityModeCommand(t.encryption, t.integrity, i.ngksi % 8);
      SmcFits(t, e.smcText(command));
      SmcResult(AfterSmc(e, s, i), command,
                Encoded(e.primitives, t, true, INTEGRITY_PROTECTED_NEW, e.smcText(command), stale, slack))
    else
      SmcResult(s, SecurityModeCommand(0, 0, i.ngksi % 8), None)
  }

  lemma SmcFits(s: SecCtx, text: NasText)
    ensures Fits(s, INTEGRITY_PROTECTED_NEW, |text|) && Fits(s, INTEGRITY_PROTECTED_CIPHERED, |text|)
  {
    FitsExactly(s, |text|);
  }

  /** The same, step by step on the object, up to the message handed to N2. */
  method StartSecurityModeControl(e: Env, nsc: NasSecuCtx, i: SmcInput, stale: Stale, slack: Slack)
    returns (command: SecurityModeCommand, nas: Option<OctetString>)
    modifies nsc
    ensures SmcResult(nsc.View(), command, nas) == StartSmc(e, old(nsc.View()), i, stale, slack)
  {
    var isNew, amfNea, amfNia := false, 0, 0;
    ghost var s := nsc.View();
    if nsc.scType == NotAvailable {
      nsc.ngksi := i.ngksi;
      nsc.dlCount := ZERO_COUNT;
      nsc.ulCount := ZERO_COUNT;
      var sel := SecuritySelectAlgorithms(e.ciphering, e.integrity, i.ea, i.ia);
      amfNea, amfNia := sel.nea, sel.nia;
      nsc.integrity := amfNia;
      nsc.encryption := amfNea;
      nsc.scType := FullNative;
      nsc.knasInt := e.knas(NasInt, nsc.integrity, i.kamf);
      nsc.knasEnc := e.knas(NasEnc, nsc.encryption, i.kamf);
      isNew := true;
      assert nsc.View() == Installed(e, s, i);
    }
    command := SecurityModeCommand(amfNea, amfNia, i.ngksi % 8);
    NewHeaderEarlyReturn();
    SmcFits(nsc.View(), e.smcText(command));
    nas := EncodeNasMessageProtected(e.primitives, nsc, isNew, INTEGRITY_PROTECTED_NEW, e.smcText(command),
                                     stale, slack);
  }

  lemma NewHeaderEarlyReturn()
    ensures LowNibble(INTEGRITY_PROTECTED_NEW) == INTEGRITY_PROTECTED_NEW
    ensures LowNibble(INTEGRITY_PROTECTED_CIPHERED) == INTEGRITY_PROTECTED_CIPHERED
  {
  }

  /**
   A Security Mode Command that yields a message announces the installed
   algorithms, chosen by preference among those the UE supports, and is message
   number 0 of a native context with both counters reset; one that yields none
   leaves the context as it was.
   */
  lemma SmcAnnouncesInstalled(e: Env, s: SecCtx, i: SmcInput, stale: Stale, slack: Slack)
    ensures var r := StartSmc(e, s, i, stale, slack);
            && (r.nas.Some? <==> s.scType.NotAvailable?)
            && (r.nas.None? ==> r.ctx == s)
            && (r.nas.Some? ==>
                  && r.command.nea == r.ctx.encryption && r.command.nia == r.ctx.integrity
                  && r.command.nea == FirstSupported(e.ciphering, i.ea).GetOr(0)
                  && r.command.nia == FirstSupported(e.integrity, i.ia).GetOr(0)
                  && r.ctx.knasInt == e.knas(NasInt, r.command.nia, i.kamf)
                  && r.ctx.knasEnc == e.knas(NasEnc, r.command.nea, i.kamf)
                  && r.ctx.scType.FullNative? && r.ctx.ngksi == i.ngksi
                  && r.ctx.ul == ZERO_COUNT && r.ctx.dl == Count(0, 1)
                  && (r.ctx.integrity == 0 ==> r.nas.value == e.smcText(r.command))
                  && (r.ctx.integrity != 0 ==>
                        r.nas.value == Frame(INTEGRITY_PROTECTED_NEW,
                                             MacUnder(e.primitives, r.ctx, 0, DOWNLINK, [0 as Octet] + e.smcText(r.command)),
                                             0, e.smcText(r.command))))
  {
    NewHeaderEarlyReturn();
    ZeroSequence();
  }

  lemma ZeroSequence()
    ensures (0 as bv8) as bv32 == 0 && ZERO_COUNT.seqNum + 1 == 1
  {
  }

  // ---- A whole run ----

  /** What happens to a security context, apart from being copied. */
  datatype Op =
    | Protect(input: NasText, stale: Stale, slack: Slack)
    | Smc(from: SmcInput, stale: Stale, slack: Slack)
    | Receive(seqNum: Octet)
    | Rearm

  /** A text and the message it went out as. */
  datatype Sent = Sent(text: OctetString, nas: OctetString)

  /** A context and what was sent under it since its counters were last at zero. */
  datatype Channel = Channel(ctx: SecCtx, sent: seq<Sent>)

  function AfterProtect(s: SecCtx): SecCtx {
    AfterEncode(s, false, INTEGRITY_PROTECTED_CIPHERED)
  }

  function Rearmed(s: SecCtx): SecCtx {
    s.(scType := NotAvailable)
  }

  function Received(s: SecCtx, seqNum: Octet): SecCtx {
    s.(ul := s.ul.(seqNum := seqNum))
  }

  /** A message protected and ciphered under a context in use. */
  function Protected(e: Env, s: SecCtx, input: NasText, stale: Stale, slack: Slack): OctetString {
    SmcFits(s, input);
    NewHeaderEarlyReturn();
    Encoded(e.primitives, s, false, INTEGRITY_PROTECTED_CIPHERED, input, stale, slack).value
  }

  function Step(e: Env, ch: Channel, op: Op): Channel {
    match op
    case Protect(input, stale, slack) =>
      Channel(AfterProtect(ch.ctx), ch.sent + [Sent(input, Protected(e, ch.ctx, input, stale, slack))])
    case Smc(from, stale, slack) =>
      var r := StartSmc(e, ch.ctx, from, stale, slack);
      Channel(r.ctx, if r.nas.Some? then [Sent(e.smcText(r.command), r.nas.value)] else ch.sent)
    case Receive(seqNum) => ch.(ctx := Received(ch.ctx, seqNum))
    case Rearm => ch.(ctx := Rearmed(ch.ctx))
  }

  /** The channel after a run from the creation of the context. */
  function Run(e: Env, ops: seq<Op>): Channel {
    if ops == [] then Channel(EMPTY_CTX, [])
    else Step(e, Run(e, ops[..|ops| - 1]), ops[|ops| - 1])
  }

  /** Every uplink message moves the received sequence number at most, and only that. */
  lemma UplinkIsReceive(s: SecCtx, msg: OctetString)
    requires InBounds(Some(s), msg)
    ensures AfterUplink(Some(s), msg).Some?
    ensures var s' := AfterUplink(Some(s), msg).value;
            s' == if SecurityHeader(msg).Some? && IsChecked(SecurityHeader(msg).value)
                  then Received(s, msg[SEQUENCE_NUMBER_OCTET]) else s
  {
  }

  /** The first message is the Security Mode Command, the rest are ciphered messages. */
  function HeaderOf(k: nat): Octet {
    if k == 0 then INTEGRITY_PROTECTED_NEW else INTEGRITY_PROTECTED_CIPHERED
  }

  ghost predicate IsNumbered(ch: Channel, k: nat)
    requires k < |ch.sent|
  {
    var nas := ch.sent[k].nas;
    if ch.ctx.integrity == 0 then nas == ch.sent[k].text
    else |nas| >= HEADER_LENGTH && nas[0] == EPD && nas[1] == HeaderOf(k) && nas[SEQUENCE_NUMBER_OCTET] as nat == k % 256
  }

  ghost predicate IsOpened(e: Env, ch: Channel, k: nat)
    requires k < |ch.sent|
  {
    OpenDownlink(e.primitives, ch.ctx, ch.sent[k].nas) == Some(ch.sent[k].text)
  }

  ghost predicate CountsFollow(ch: Channel) {
    && ch.ctx.dl.overflow == 0 && ch.ctx.ul.overflow == 0
    && ch.ctx.dl.seqNum as nat == |ch.sent| % 256
    && (ch.ctx.integrity != 0 ==> ch.sent != [])
  }

  /**
   Numbering over whole runs: since the counters were last at zero, the k-th
   message carries sequence octet k mod 256, number 0 is the Security Mode
   Command, and the counter is the number of messages sent; nothing but sending
   moves it, and both overflow counters stay at zero.
   */
  lemma {:induction false} Numbering(e: Env, ops: seq<Op>)
    ensures var ch := Run(e, ops);
            CountsFollow(ch) && AllNumbered(ch)
  {
    if ops != [] {
      var n := |ops| - 1;
      Numbering(e, ops[..n]);
      NumberingStep(e, Run(e, ops[..n]), ops[n]);
    }
  }

  ghost predicate AllNumbered(ch: Channel) {
    forall k :: 0 <= k < |ch.sent| ==> IsNumbered(ch, k)
  }

  lemma NumberingStep(e: Env, ch: Channel, op: Op)
    requires CountsFollow(ch) && AllNumbered(ch)
    ensures CountsFollow(Step(e, ch, op)) && AllNumbered(Step(e, ch, op))
  {
    match op
    case Protect(input, stale, slack) => ProtectIsNext(e, ch, input, stale, slack);
    case Smc(from, stale, slack) => SmcIsFirst(e, ch, from, stale, slack);
    case _ => SentUnchanged(ch, Step(e, ch, op));
  }

  lemma SentUnchanged(ch: Channel, ch': Channel)
    requires AllNumbered(ch) && ch'.sent == ch.sent && ch'.ctx.integrity == ch.ctx.integrity
    ensures AllNumbered(ch')
  {
    forall k | 0 <= k < |ch'.sent| ensures IsNumbered(ch', k) {
      assert IsNumbered(ch, k);
    }
  }

  lemma SmcIsFirst(e: Env, ch: Channel, from: SmcInput, stale: Stale, slack: Slack)
    requires CountsFollow(ch) && AllNumbered(ch)
    ensures var ch' := Step(e, ch, Smc(from, stale, slack));
            CountsFollow(ch') && AllNumbered(ch')
  {
    SmcAnnouncesInstalled(e, ch.ctx, from, stale, slack);
    OneAndZero();
  }

  lemma ProtectIsNext(e: Env, ch: Channel, input: NasText, stale: Stale, slack: Slack)
    requires CountsFollow(ch) && AllNumbered(ch)
    ensures var ch' := Step(e, ch, Protect(input, stale, slack));
            CountsFollow(ch') && AllNumbered(ch')
  {
    ProtectedHeader(e, ch.ctx, input, stale, slack);
    ProtectCounts(ch.ctx, |ch.sent|);
    AfterProtectIs(ch.ctx);
    AppendNumbered(ch, Step(e, ch, Protect(input, stale, slack)));
  }

  /** Protecting a message changes nothing in the context but its downlink counter. */
  lemma AfterProtectIs(s: SecCtx)
    ensures AfterProtect(s) == s.(dl := Count(s.dl.overflow, s.dl.seqNum + 1))
  {
    NewHeaderEarlyReturn();
  }

  lemma ProtectCounts(s: SecCtx, n: nat)
    requires s.dl.seqNum as nat == n % 256
    ensures AfterProtect(s).dl.seqNum as nat == (n + 1) % 256
  {
    AfterProtectIs(s);
    NextOctet(s.dl.seqNum);
    ModuloNext(n);
  }

  lemma ModuloNext(n: nat)
    ensures (n % 256 + 1) % 256 == (n + 1) % 256
  {
  }

  lemma AppendNumbered(ch: Channel, ch': Channel)
    requires AllNumbered(ch) && ch'.ctx.integrity == ch.ctx.integrity
    requires |ch'.sent| == |ch.sent| + 1 && ch'.sent[..|ch.sent|] == ch.sent
    requires IsNumbered(ch', |ch.sent|)
    ensures AllNumbered(ch')
  {
    forall k | 0 <= k < |ch.sent| ensures IsNumbered(ch', k) {
      assert IsNumbered(ch, k) && ch'.sent[..|ch.sent|][k] == ch.sent[k];
    }
  }

  lemma ProtectedHeader(e: Env, s: SecCtx, input: NasText, stale: Stale, slack: Slack)
    ensures var nas := Protected(e, s, input, stale, slack);
            if s.integrity == 0 then nas == input
            else |nas| >= HEADER_LENGTH && nas[0] == EPD && nas[1] == INTEGRITY_PROTECTED_CIPHERED
                 && nas[SEQUENCE_NUMBER_OCTET] == s.dl.seqNum
  {
    SmcFits(s, input);
    NewHeaderEarlyReturn();
  }

  lemma NextOctet(o: Octet)
    ensures (o + 1) as nat == (o as nat + 1) % 256
  {
  }

  lemma OneAndZero()
    ensures (0 as bv8) as nat == 0 && (1 as bv8) as nat == 1
  {
  }

  /**
   Delivery over whole runs: a UE with the keys, algorithms and overflow counter
   of the context recovers the text of every message sent since they were
   installed, while the ciphering algorithm is one of 0, 1 and 2.
   */
  lemma {:induction false} EverythingOpens(e: Env, ops: seq<Op>)
    ensures var ch := Run(e, ops);
            ch.ctx.encryption <= 2 ==> forall k :: 0 <= k < |ch.sent| ==> IsOpened(e, ch, k)
  {
    if ops != [] {
      var n := |ops| - 1;
      EverythingOpens(e, ops[..n]);
      Numbering(e, ops[..n]);
      EverythingOpensStep(e, Run(e, ops[..n]), ops[n]);
    }
  }

  lemma EverythingOpensStep(e: Env, ch: Channel, op: Op)
    requires ch.ctx.encryption <= 2 ==> forall k :: 0 <= k < |ch.sent| ==> IsOpened(e, ch, k)
    ensures var ch' := Step(e, ch, op);
            ch'.ctx.encryption <= 2 ==> forall k :: 0 <= k < |ch'.sent| ==> IsOpened(e, ch', k)
  {
    var ch' := Step(e, ch, op);
    if ch'.ctx.encryption <= 2 {
      forall k | 0 <= k < |ch'.sent| ensures IsOpened(e, ch', k) {
        if op.Smc? && ch.ctx.scType.NotAvailable? {
          SmcOpens(e, ch.ctx, op.from, op.stale, op.slack);
        } else if k < |ch.sent| {
          assert ch'.sent[k] == ch.sent[k] && IsOpened(e, ch, k);
          OpeningNeedsKeys(e.primitives, ch.ctx, ch'.ctx, ch.sent[k].nas);
        } else {
          ProtectedOpens(e, ch.ctx, op.input, op.stale, op.slack);
        }
      }
    }
  }

  lemma SmcOpens(e: Env, s: SecCtx, i: SmcInput, stale: Stale, slack: Slack)
    requires s.scType.NotAvailable? && StartSmc(e, s, i, stale, slack).ctx.encryption <= 2
    ensures var r := StartSmc(e, s, i, stale, slack);
            r.nas.Some? && OpenDownlink(e.primitives, r.ctx, r.nas.value) == Some(e.smcText(r.command))
  {
    var t := Installed(e, s, i);
    var r := StartSmc(e, s, i, stale, slack);
    SmcFits(t, e.smcText(r.command));
    DownlinkRoundTrip(e.primitives, t, r.ctx, INTEGRITY_PROTECTED_NEW, e.smcText(r.command), stale, slack);
  }

  lemma ProtectedOpens(e: Env, s: SecCtx, input: NasText, stale: Stale, slack: Slack)
    requires s.encryption <= 2
    ensures OpenDownlink(e.primitives, AfterProtect(s), Protected(e, s, input, stale, slack)) == Some(input)
  {
    SmcFits(s, input);
    NewHeaderEarlyReturn();
    DownlinkRoundTrip(e.primitives, s, AfterProtect(s), INTEGRITY_PROTECTED_CIPHERED, input, stale, slack);
  }

  /** Opening depends on keys, algorithms and overflow counter only. */
  lemma OpeningNeedsKeys(c: Primitives, ue: SecCtx, ue': SecCtx, msg: OctetString)
    requires SharesDownlink(ue, ue')
    ensures OpenDownlink(c, ue, msg) == OpenDownlink(c, ue', msg)
  {
    if |msg| >= HEADER_LENGTH {
      var at := ue.(dl := ue.dl.(seqNum := msg[SEQUENCE_NUMBER_OCTET]));
      var at' := ue'.(dl := ue'.dl.(seqNum := msg[SEQUENCE_NUMBER_OCTET]));
      assert CipherStream(at, DOWNLINK) == CipherStream(at', DOWNLINK);
      SameKeystream(c, at, at', msg[HEADER_LENGTH..]);
    }
  }
}

/**
 The uplink count a gNB key is derived under (TS 33.501, Annex A.9), from the
 arrival of the message to the derivation (amf_n1.cpp).
 */
module KeyDerivation {
  import opened Wrappers
  import opened Octets
  import opened NasSecurity
  import opened NasFrame
  import opened NasUplink
  import opened NasChannel
  import opened NasContexts
  import opened Registration

  /** The COUNT of a message: its sequence octet and the overflow counter of the context. */
  function MessageCount(s: SecCtx, msg: OctetString): nat
    requires |msg| >= HEADER_LENGTH
  {
    msg[SEQUENCE_NUMBER_OCTET] as nat + 256 * s.ul.overflow as nat
  }

  /**
   A Security Mode Complete that arrives deciphered: if handling it derives a gNB
   key, then under exactly the COUNT the message was deciphered under.
   */
  lemma SecurityModeCompleteCount<R>(e: AmfEnv, s: State<R>, ind: Indication, i: Inputs<R>)
    requires Readable(ind.nas) && ind.guti.None? && !ind.isEstablishment
    requires SecurityHeader(ind.nas).Some? && IsChecked(SecurityHeader(ind.nas).value)
    requires var o := Opened(e, s, ind, i.answers.slack); o.Delivered? && e.decode(o.text).SecurityModeComplete?
    ensures ind.key.amf in s.byAmf && At(s, s.byAmf[ind.key.amf]).sec.Some?
    ensures var before, c := At(s, s.byAmf[ind.key.amf]).sec.value, HandledKgnb(e, s, ind, i);
            c.Some? ==>
              && c.value == CipherStream(AfterUplink(Some(before), ind.nas).value, UPLINK).count
              && c.value as nat == MessageCount(before, ind.nas)
  {
    var r := s.byAmf[ind.key.amf];
    var before := At(s, r).sec.value;
    UplinkIsReceive(before, ind.nas);
    assert At(Seen(s, ind), r).sec == AfterUplink(Some(before), ind.nas);
    KgnbCountAgrees(before, ind.nas);
  }

  /** The security context an establishment message leaves its sender with. */
  ghost function Left<R>(e: AmfEnv, s: State<R>, ind: Indication, i: Inputs<R>): Option<SecCtx>
    requires Readable(ind.nas)
  {
    At(HandleUplink(e, s, ind, i), Lookup(s, ind).GetOr(i.spare)).sec
  }

  /**
   A secured Service Request on a new connection, handled under the context it
   finds or the one its GUTI names: if that derives a gNB key, then under the
   COUNT of the message exactly when the message was not ciphered or its sequence
   number is zero. The uplink count is the handler's own variable, which only an
   integrity protected message sets.
   */
  lemma ServiceRequestCount<R>(e: AmfEnv, s: State<R>, ind: Indication, i: Inputs<R>)
    requires Readable(ind.nas) && ind.isEstablishment
    requires SecurityHeader(ind.nas).Some? && SecurityHeader(ind.nas).value != PLAIN
    requires var o := Opened(e, s, ind, i.answers.slack); o.Delivered? && e.decode(o.text).Service?
    requires HandledKgnb(e, s, ind, i).Some?
    ensures Left(e, s, ind, i).Some?
    ensures HandledKgnb(e, s, ind, i).value as nat == MessageCount(Left(e, s, ind, i).value, ind.nas)
            <==> SecurityHeader(ind.nas).value == INTEGRITY_PROTECTED || ind.nas[SEQUENCE_NUMBER_OCTET] == 0
  {
    var o := Opened(e, s, ind, i.answers.slack);
    var s1, found := Seen(s, ind), Lookup(s, ind);
    EstablishmentHandled(e, s, ind, i);
    EstablishedCount(e, s1, found, ind.key, e.decode(o.text).service, o.ulCount, i);
    var ctx := if found.Some? then At(Rebound(s, ind), found.value).sec else None;
    OpenedCount(e.channel.primitives, ctx, ind.nas, i.answers.slack);
    TakenCount(Left(e, s, ind, i).value, ind.nas);
  }

  /** A count with the message's overflow counter is the message's if the sequence numbers are the same. */
  lemma TakenCount(s: SecCtx, msg: OctetString)
    requires |msg| >= HEADER_LENGTH
    ensures KgnbCount(s) as nat == MessageCount(s, msg) <==> s.ul.seqNum == msg[SEQUENCE_NUMBER_OCTET]
  {
    KgnbCountOf(s);
    SameNumber(s.ul.seqNum, msg[SEQUENCE_NUMBER_OCTET]);
  }

  lemma EstablishmentHandled<R>(e: AmfEnv, s: State<R>, ind: Indication, i: Inputs<R>)
    requires Readable(ind.nas) && ind.isEstablishment && Opened(e, s, ind, i.answers.slack).Delivered?
    ensures var o, s1, found := Opened(e, s, ind, i.answers.slack), Seen(s, ind), Lookup(s, ind);
            && HandleUplink(e, s, ind, i) == Establish(e, s1, found, ind.key, e.decode(o.text), o.ulCount, i)
            && HandledKgnb(e, s, ind, i) == EstablishKgnb(e, s1, found, ind.key, e.decode(o.text), o.ulCount, i)
  {
  }

  lemma OpenedCount(c: Primitives, ctx: Option<SecCtx>, msg: OctetString, slack: Slack)
    requires Readable(msg) && SecurityHeader(msg).Some? && SecurityHeader(msg).value != PLAIN
    requires Unprotected(c, ctx, msg, slack).Delivered?
    ensures Unprotected(c, ctx, msg, slack).ulCount
            == if SecurityHeader(msg).value == INTEGRITY_PROTECTED then msg[SEQUENCE_NUMBER_OCTET] else 0
  {
  }

  lemma EstablishedCount<R>(e: AmfEnv, s: State<R>, found: Option<R>, k: Key, q: ServiceRequest, ulCount: Octet,
                            i: Inputs<R>)
    requires EstablishKgnb(e, s, found, k, Message.Service(q), ulCount, i).Some?
    ensures var sec := At(Establish(e, s, found, k, Message.Service(q), ulCount, i), found.GetOr(i.spare)).sec;
            && sec.Some? && sec.value.ul.seqNum == ulCount
            && EstablishKgnb(e, s, found, k, Message.Service(q), ulCount, i) == Some(KgnbCount(sec.value))
  {
    var s1, r := Admitted(s, found, k, i.spare), found.GetOr(i.spare);
    var s2 := Put(s1, r, WithUplinkCount(At(s1, r), ulCount));
    assert At(s2, r).sec.Some? ==> At(s2, r).sec.value.ul.seqNum == ulCount;
    ServedCount(e, s2, r, k, q, ulCount, i.answers);
  }

  lemma ServedCount<R>(e: AmfEnv, s: State<R>, r: R, k: Key, q: ServiceRequest, ulCount: Octet, a: Answers)
    requires At(s, r).sec.Some? ==> At(s, r).sec.value.ul.seqNum == ulCount
    requires ServeInitialKgnb(e, s, r, k, q, ulCount).Some?
    ensures var sec := At(ServeInitial(e, s, r, k, q, ulCount, a), r).sec;
            && sec.Some? && sec.value.ul.seqNum == ulCount
            && ServeInitialKgnb(e, s, r, k, q, ulCount) == Some(KgnbCount(sec.value))
  {
    var n := ServedContext(e, s, r, k, q, ulCount);
    ServeRecalled(e, s, r, n, k, q, ulCount, a);
    AcceptedCount(e, s, r, n, k, q, a);
  }

  lemma ServedContext<R>(e: AmfEnv, s: State<R>, r: R, k: Key, q: ServiceRequest, ulCount: Octet) returns (n: Nas)
    requires At(s, r).sec.Some? ==> At(s, r).sec.value.ul.seqNum == ulCount
    requires ServeInitialKgnb(e, s, r, k, q, ulCount).Some?
    ensures k in s.ues && n.sec.Some? && n.sec.value.ul.seqNum == ulCount
    ensures var former := OldContext(e, s, r, k, q);
            if former.None? then n == At(s, r)
            else At(s, former.value).sec.Some? && n == Recalled(At(s, r), At(s, former.value), ulCount)
  {
    var former := OldContext(e, s, r, k, q);
    n := if former.None? then At(s, r) else Recalled(At(s, r), At(s, former.value), ulCount);
  }

  /** Sending the accept does not move the uplink count. */
  lemma AcceptedCount<R>(e: AmfEnv, s: State<R>, r: R, n: Nas, k: Key, q: ServiceRequest, a: Answers)
    requires ServiceKgnb(n, q).Some?
    ensures var sec := At(ServeWith(e, s, r, n, k, q, a), r).sec;
            sec.Some? && sec.value.ul == n.sec.value.ul && ServiceKgnb(n, q) == Some(KgnbCount(sec.value))
  {
    AfterProtectIs(n.sec.value);
    assert AfterServiceAccept(e.channel, n, q, a).sec == AfterSend(e.channel, n, a).sec;
  }

  lemma SameNumber(a: Octet, b: Octet)
    ensures a as nat == b as nat <==> a == b
  {
  }
}

/**
 Secured messages octet by octet, told by the primitives alone (amf_n1.cpp,
 encode_nas_message_protected, the security header switch of the uplink handler,
 and the two functions both go through): which algorithm runs, under which key,
 count, bearer and direction, and over which octets.
 */
module NasWire {
  import opened Wrappers
  import opened Octets
  import opened NasSecurity
  import opened NasFrame
  import opened NasDownlink
  import opened NasUplink

  // ---- Downlink ----

  /**
   The header of a secured downlink message, and its code: 128-5G-IA1 or
   128-5G-IA2 over everything from the sequence octet on, under the integrity key,
   the sequence octet as count, bearer 1 and direction 1.
   */
  predicate IsSealed(c: Primitives, s: SecCtx, header: Octet, text: OctetString, nas: OctetString) {
    var stream := StreamCipher(s.knasInt, s.dl.seqNum as bv32, 1, 1);
    && |nas| == 7 + |text| && nas[0] == 0x7e && nas[1] == header && nas[6] == s.dl.seqNum
    && (s.integrity == 1 ==> nas[2..6] == c.nia1(stream, nas[6..]))
    && (s.integrity == 2 ==> nas[2..6] == c.nia2(stream, nas[6..]))
    && (s.integrity > 2 ==> nas[2..6] == [0, 0, 0, 0])
  }

  /**
   Its text: as it is in a Security Mode Command; else XORed with the keystream of
   128-5G-EA1 or 128-5G-EA2 under the ciphering key, the whole COUNT, bearer 1 and
   direction 1.
   */
  predicate IsCiphered(c: Primitives, s: SecCtx, header: Octet, text: OctetString, nas: OctetString)
    requires |nas| == 7 + |text|
  {
    var stream := StreamCipher(s.knasEnc, CountWord(s.dl), 1, 1);
    forall i :: 0 <= i < |text| ==>
      nas[7 + i] == if header == 3 || s.encryption == 0 then text[i]
                    else if s.encryption == 1 then text[i] ^ c.nea1(stream, i)
                    else text[i] ^ c.nea2(stream, i)
  }

  /** A text as it goes out under a header: secured, or plain without integrity protection. */
  predicate IsOnWire(c: Primitives, s: SecCtx, header: Octet, text: OctetString, nas: OctetString) {
    if s.integrity == 0 then nas == text
    else IsSealed(c, s, header, text, nas) && (s.encryption <= 2 ==> IsCiphered(c, s, header, text, nas))
  }

  /** Every message the AMF protects is on the wire like that. */
  lemma DownlinkOnWire(c: Primitives, s: SecCtx, isNew: bool, header: Octet, input: OctetString, stale: OctetString,
                       slack: OctetString)
    requires |stale| == BUFFER_SIZE && |slack| == 3 && Fits(s, header, |input|)
    requires header == 2 || (header == 3 && isNew)
    ensures var sent := Encoded(c, s, isNew, header, input, stale, slack);
            sent.Some? && IsOnWire(c, s, header, input, sent.value)
    ensures AfterEncode(s, isNew, header) == s.(dl := Count(s.dl.overflow, s.dl.seqNum + 1))
  {
    NibbleOfKnownHeader(header);
    if s.integrity != 0 {
      DownlinkCode(c, s, isNew, header, input, stale, slack);
      if s.encryption <= 2 {
        DownlinkText(c, s, isNew, header, input, stale, slack);
      }
    }
  }

  lemma DownlinkCode(c: Primitives, s: SecCtx, isNew: bool, header: Octet, input: OctetString, stale: OctetString,
                     slack: OctetString)
    requires |stale| == BUFFER_SIZE && |slack| == 3 && Fits(s, header, |input|)
    requires (header == 2 || (header == 3 && isNew)) && s.integrity != 0
    ensures var sent := Encoded(c, s, isNew, header, input, stale, slack);
            sent.Some? && IsSealed(c, s, header, input, sent.value)
  {
    NibbleOfKnownHeader(header);
  }

  lemma DownlinkText(c: Primitives, s: SecCtx, isNew: bool, header: Octet, input: OctetString, stale: OctetString,
                     slack: OctetString)
    requires |stale| == BUFFER_SIZE && |slack| == 3 && Fits(s, header, |input|)
    requires (header == 2 || (header == 3 && isNew)) && s.integrity != 0 && s.encryption <= 2
    ensures var sent := Encoded(c, s, isNew, header, input, stale, slack);
            sent.Some? && |sent.value| == 7 + |input| && IsCiphered(c, s, header, input, sent.value)
  {
    NibbleOfKnownHeader(header);
    var body := Body(c, s, header, input, stale, slack);
    CipheredPrefix(c, s, DOWNLINK, input, slack);
    assert Encoded(c, s, isNew, header, input, stale, slack).value[7..] == body;
    if header == 2 {
      assert body == XorStream(input, Keystream(c, s, DOWNLINK));
      forall i | 0 <= i < |input| ensures s.encryption == 0 ==> body[i] == input[i] {
        XorZero(input[i]);
      }
    }
  }

  /** Other ciphering algorithms write no text: what is on the wire is what the buffer held before. */
  lemma UnwrittenText(c: Primitives, s: SecCtx, input: OctetString, stale: OctetString, slack: OctetString)
    requires |stale| == BUFFER_SIZE && |slack| == 3 && Fits(s, 2, |input|) && s.integrity != 0 && s.encryption > 2
    ensures var sent := Encoded(c, s, false, 2, input, stale, slack);
            sent.Some? && |sent.value| == 7 + |input| && sent.value[7..] == stale[7..7 + |input|]
  {
    NibbleOfKnownHeader(2);
  }

  /**
   A message for a new security context without one yields nothing and moves no
   counter; other types yield no octets, and move it.
   */
  lemma DownlinkRefused(c: Primitives, s: SecCtx, header: Octet, input: OctetString, stale: OctetString,
                        slack: OctetString)
    requires |stale| == BUFFER_SIZE && |slack| == 3 && Fits(s, header, |input|)
    ensures header & 0x0f == 3 ==>
              Encoded(c, s, false, header, input, stale, slack) == None && AfterEncode(s, false, header) == s
    ensures header & 0x0f != 2 && header & 0x0f != 3 ==>
              forall isNew :: Encoded(c, s, isNew, header, input, stale, slack) == Some([])
                              && AfterEncode(s, isNew, header) == s.(dl := Count(s.dl.overflow, s.dl.seqNum + 1))
  {
  }

  /** The algorithms a context has not selected have no part in what it sends. */
  lemma UnselectedUnused(c: Primitives, other: Primitives, s: SecCtx, isNew: bool, header: Octet, input: OctetString,
                         stale: OctetString, slack: OctetString)
    requires |stale| == BUFFER_SIZE && |slack| == 3 && Fits(s, header, |input|)
    requires s.integrity == 1 ==> other.nia1 == c.nia1
    requires s.integrity == 2 ==> other.nia2 == c.nia2
    requires s.encryption == 1 ==> other.nea1 == c.nea1
    requires s.encryption == 2 ==> other.nea2 == c.nea2
    ensures Encoded(other, s, isNew, header, input, stale, slack) == Encoded(c, s, isNew, header, input, stale, slack)
  {
    if s.encryption <= 2 {
      CipheredPrefix(c, s, DOWNLINK, input, slack);
      CipheredPrefix(other, s, DOWNLINK, input, slack);
      assert XorStream(input, Keystream(c, s, DOWNLINK)) == XorStream(input, Keystream(other, s, DOWNLINK));
    }
  }

  // ---- Uplink ----

  /** The octets an n-octet text takes in whole 32-bit words. */
  lemma WholeWords(n: nat)
    ensures WordRounded(n) == (n + 3) / 4 * 4
  {
  }

  /** Messages that are not looked into: no 5GMM message, no known header type, or no security context to check with. */
  lemma UplinkDropped(c: Primitives, ctx: Option<SecCtx>, msg: OctetString, slack: OctetString)
    requires |slack| == 3 && (|msg| >= 7 || |msg| < 2)
    requires |msg| < 2 || msg[0] != 0x7e || msg[1] & 0x0f > 4 || (msg[1] & 0x0f > 1 && ctx.None?)
    ensures Unprotected(c, ctx, msg, slack) == Dropped && AfterUplink(ctx, msg) == ctx
  {
  }

  /** A plain message is delivered as it is; one that is integrity protected only, without its header, unchecked. */
  lemma UplinkUnchecked(c: Primitives, ctx: Option<SecCtx>, msg: OctetString, slack: OctetString)
    requires |slack| == 3 && |msg| >= 7 && msg[0] == 0x7e && msg[1] & 0x0f <= 1
    ensures Unprotected(c, ctx, msg, slack) ==
              if msg[1] & 0x0f == 0 then Delivered(msg, 0) else Delivered(msg[7..], msg[6])
    ensures AfterUplink(ctx, msg) == ctx
  {
    ZeroOrOne(msg[1] & 0x0f);
  }

  lemma ZeroOrOne(t: Octet)
    requires t <= 1
    ensures t == 0 || t == 1
  {
  }

  /**
   So whatever the code in it, the text of an integrity protected message is
   delivered as it was, with its sequence octet, with a security context or
   without.
   */
  lemma IntegrityProtectedIsDelivered(c: Primitives, ctx: Option<SecCtx>, mac: MacOctets, seqNum: Octet,
                                      text: OctetString, slack: OctetString)
    requires |slack| == 3
    ensures var msg := [0x7e, 1] + mac + [seqNum] + text;
            && InBounds(ctx, msg) && Unprotected(c, ctx, msg, slack) == Delivered(text, seqNum)
            && AfterUplink(ctx, msg) == ctx
  {
    var msg: OctetString := [0x7e, 1] + mac + [seqNum] + text;
    assert msg[7..] == text && msg[6] == seqNum;
    NibbleOfKnownHeader(1);
    UplinkUnchecked(c, ctx, msg, slack);
  }

  /**
   A message of type 2, 3 or 4 is delivered exactly if its code is that of the
   selected algorithm over everything from the sequence octet on, under the
   integrity key, the sequence octet as count, bearer 1 and direction 0.
   */
  lemma UplinkCode(c: Primitives, s: SecCtx, msg: OctetString, slack: OctetString)
    requires |slack| == 3 && |msg| >= 7 && msg[0] == 0x7e && 2 <= msg[1] & 0x0f <= 4
    ensures var r := Unprotected(c, Some(s), msg, slack);
            var stream := StreamCipher(s.knasInt, msg[6] as bv32, 1, 0);
            && (r.Delivered? <==> s.integrity == 0
                                  || (s.integrity == 1 && msg[2..6] == c.nia1(stream, msg[6..]))
                                  || (s.integrity == 2 && msg[2..6] == c.nia2(stream, msg[6..]))
                                  || (s.integrity > 2 && msg[2..6] == [0, 0, 0, 0]))
            && (r.Delivered? ==> r.ulCount == 0 && (s.encryption > 2 ==> r.text == []))
    ensures AfterUplink(Some(s), msg) == Some(s.(ul := s.ul.(seqNum := msg[6])))
  {
    CheckedTypes(msg[1] & 0x0f);
  }

  lemma CheckedTypes(t: Octet)
    requires 2 <= t <= 4
    ensures IsChecked(t) && t != PLAIN && t != INTEGRITY_PROTECTED
  {
  }

  /**
   What is delivered then: the text XORed with the keystream of the selected
   algorithm under the ciphering key, the overflow counter of the context with the
   sequence octet received, bearer 1 and direction 0; under 128-5G-EA1 filled up
   to whole words.
   */
  lemma UplinkText(c: Primitives, s: SecCtx, msg: OctetString, slack: OctetString)
    requires |slack| == 3 && |msg| >= 7 && msg[0] == 0x7e && 2 <= msg[1] & 0x0f <= 4 && s.encryption <= 2
    requires Unprotected(c, Some(s), msg, slack).Delivered?
    ensures var n, text := |msg| - 7, Unprotected(c, Some(s), msg, slack).text;
            var stream := StreamCipher(s.knasEnc, CountWord(Count(s.ul.overflow, msg[6])), 1, 0);
            && |text| == (if s.encryption == 1 then (n + 3) / 4 * 4 else n)
            && forall i :: 0 <= i < n ==>
                 text[i] == if s.encryption == 0 then msg[7 + i]
                            else if s.encryption == 1 then msg[7 + i] ^ c.nea1(stream, i)
                            else msg[7 + i] ^ c.nea2(stream, i)
  {
    CheckedTypes(msg[1] & 0x0f);
    var at := s.(ul := s.ul.(seqNum := msg[6]));
    assert AfterUplink(Some(s), msg) == Some(at);
    WholeWords(|msg| - 7);
    CipheredPrefix(c, at, UPLINK, msg[7..], slack);
    var text := Unprotected(c, Some(s), msg, slack).text;
    assert text[..|msg| - 7] == XorStream(msg[7..], Keystream(c, at, UPLINK));
    forall i | 0 <= i < |msg| - 7 ensures s.encryption == 0 ==> text[i] == msg[7 + i] {
      XorZero(msg[7..][i]);
      assert text[i] == text[..|msg| - 7][i];
    }
  }
}

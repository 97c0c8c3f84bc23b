/**
 Uplink unprotection (amf_n1.cpp, the security header switch of the uplink
 handler) and the counts it leaves for the key derivation.
 */
module NasUplink {
  import opened Wrappers
  import opened Octets
  import opened NasSecurity
  import opened NasFrame

  /** Where the uplink handler leaves the message. */
  datatype Outcome = Dropped | Delivered(text: OctetString, ulCount: Octet)

  /** check_security_header_type: the header type of a 5GMM message, none for anything else. */
  function SecurityHeader(msg: OctetString): Option<Octet> {
    if |msg| < 2 || msg[0] != EPD || LowNibble(msg[1]) > INTEGRITY_PROTECTED_CIPHERED_NEW then None
    else Some(LowNibble(msg[1]))
  }

  /** The header types whose MAC is checked and whose text is deciphered. */
  predicate IsChecked(t: Octet) {
    t == INTEGRITY_PROTECTED_CIPHERED || t == INTEGRITY_PROTECTED_NEW || t == INTEGRITY_PROTECTED_CIPHERED_NEW
  }

  /** The source reads a secured message up to its seventh octet without looking at its length. */
  predicate InBounds(ctx: Option<SecCtx>, msg: OctetString) {
    var t := SecurityHeader(msg);
    t.Some? && (t.value == INTEGRITY_PROTECTED || (IsChecked(t.value) && ctx.Some?)) ==> |msg| >= HEADER_LENGTH
  }

  /** The context once the message has been looked at, delivered or not. */
  function AfterUplink(ctx: Option<SecCtx>, msg: OctetString): Option<SecCtx>
    requires InBounds(ctx, msg)
  {
    var t := SecurityHeader(msg);
    if t.Some? && IsChecked(t.value) && ctx.Some? then
      Some(AfterIntegrity(ctx.value, UPLINK, msg[SEQUENCE_NUMBER_OCTET..]))
    else ctx
  }

  function Unprotected(c: Primitives, ctx: Option<SecCtx>, msg: OctetString, slack: OctetString): Outcome
    requires InBounds(ctx, msg) && |slack| == 3
  {
    var t := SecurityHeader(msg);
    if t.None? then Dropped
    else if t.value == PLAIN then Delivered(msg, 0)
    else if t.value == INTEGRITY_PROTECTED then Delivered(msg[HEADER_LENGTH..], msg[SEQUENCE_NUMBER_OCTET])
    else if ctx.None? then Dropped
    else
      var s := ctx.value;
      if s.integrity != 0 && msg[2..6] != Mac(c, s, UPLINK, msg[SEQUENCE_NUMBER_OCTET..]) then Dropped
      else Delivered(Ciphered(c, AfterUplink(ctx, msg).value, UPLINK, msg[HEADER_LENGTH..], slack), 0)
  }

  ghost function ViewOf(nsc: NasSecuCtx?): Option<SecCtx>
    reads nsc
  {
    if nsc == null then None else Some(nsc.View())
  }

  method UnprotectUplink(c: Primitives, nsc: NasSecuCtx?, msg: OctetString, slack: OctetString) returns (r: Outcome)
    requires InBounds(ViewOf(nsc), msg) && |slack| == 3
    modifies if nsc == null then {} else {nsc}
    ensures r == Unprotected(c, old(ViewOf(nsc)), msg, slack)
    ensures ViewOf(nsc) == AfterUplink(old(ViewOf(nsc)), msg)
  {
    var header := SecurityHeader(msg);
    if header.None? {
      return Dropped;
    }
    if header.value == PLAIN {
      return Delivered(msg, 0);
    }
    if header.value == INTEGRITY_PROTECTED {
      return Delivered(msg[HEADER_LENGTH..], msg[SEQUENCE_NUMBER_OCTET]);
    }
    HeaderRange(msg);
    if nsc == null {
      return Dropped;
    }
    var isProtected, mac32 := NasMessageIntegrityProtected(c, nsc, UPLINK, msg[SEQUENCE_NUMBER_OCTET..]);
    if isProtected {
      var received := FromNetwork(msg[2..6]);
      NetworkRoundTrip(msg[2..6]);
      HostRoundTrip(mac32);
      if mac32 != received {
        return Dropped;
      }
    }
    var text := NasMessageCipherProtected(c, nsc, UPLINK, msg[HEADER_LENGTH..], slack);
    r := Delivered(text, 0);
  }

  lemma HeaderRange(msg: OctetString)
    requires SecurityHeader(msg).Some?
    ensures var t := SecurityHeader(msg).value; t == PLAIN || t == INTEGRITY_PROTECTED || IsChecked(t)
  {
    NibbleRange(msg[1]);
  }

  lemma NibbleRange(o: Octet)
    requires LowNibble(o) <= 4
    ensures LowNibble(o) in [0, 1, 2, 3, 4]
  {
  }

  // ---- The peer ----

  /** The context as a peer has it that stands at `count`: same keys and algorithms, a counter of its own. */
  function PeerAt(s: SecCtx, count: Count): SecCtx {
    s.(ul := count)
  }

  /** The text as the peer ciphers it, under its COUNT. */
  function PeerBody(c: Primitives, s: SecCtx, count: Count, text: OctetString): OctetString {
    XorStream(text, Keystream(c, PeerAt(s, count), UPLINK))
  }

  /** What the peer sends: the ciphered text, and a MAC taken under `macCount` over sequence octet and ciphertext. */
  function PeerProtected(c: Primitives, s: SecCtx, t: Octet, count: Count, macCount: bv32, text: OctetString)
    : OctetString
  {
    var body := PeerBody(c, s, count, text);
    Frame(t, MacUnder(c, s, macCount, UPLINK, [count.seqNum] + body), count.seqNum, body)
  }

  /** What a receiver that recovered `text` may hold: the text, or under EA1 the text and some filling. */
  predicate Recovers(s: SecCtx, got: OctetString, text: OctetString) {
    if s.encryption == 1 then |got| == WordRounded(|text|) && text <= got else got == text
  }

  /** Where the AMF stands when it deciphers: at its own overflow counter and the sequence octet received. */
  function AmfAt(s: SecCtx, seqNum: Octet): SecCtx {
    s.(ul := s.ul.(seqNum := seqNum))
  }

  /**
   A message from the peer is delivered exactly when its MAC is the one the AMF
   computes under the sequence octet alone; what is delivered is the peer's body,
   deciphered at the AMF's own overflow counter.
   */
  lemma PeerMessageOutcome(c: Primitives, s: SecCtx, t: Octet, count: Count, macCount: bv32, text: OctetString,
                           slack: OctetString)
    requires IsChecked(t) && |slack| == 3
    ensures var msg := PeerProtected(c, s, t, count, macCount, text);
            var body := PeerBody(c, s, count, text);
            && InBounds(Some(s), msg)
            && AfterUplink(Some(s), msg) == Some(AmfAt(s, count.seqNum))
            && Unprotected(c, Some(s), msg, slack) ==
                 if MacUnder(c, s, macCount, UPLINK, [count.seqNum] + body)
                    == MacUnder(c, s, count.seqNum as bv32, UPLINK, [count.seqNum] + body)
                 then Delivered(Ciphered(c, AmfAt(s, count.seqNum), UPLINK, body, slack), 0) else Dropped
  {
    var body := PeerBody(c, s, count, text);
    var msg := PeerProtected(c, s, t, count, macCount, text);
    PeerHeader(msg, t);
    assert msg[SEQUENCE_NUMBER_OCTET..] == [count.seqNum] + body && msg[HEADER_LENGTH..] == body;
  }

  lemma PeerHeader(msg: OctetString, t: Octet)
    requires IsChecked(t) && |msg| >= HEADER_LENGTH && msg[0] == EPD && msg[1] == t
    ensures SecurityHeader(msg) == Some(t)
  {
    KnownHeaders(t);
  }

  lemma KnownHeaders(t: Octet)
    requires IsChecked(t)
    ensures LowNibble(t) == t && t <= 4
  {
  }

  lemma DecipherRecovers(c: Primitives, at: SecCtx, text: OctetString, slack: OctetString)
    requires at.encryption <= 2 && |slack| == 3
    ensures Recovers(at, Ciphered(c, at, UPLINK, XorStream(text, Keystream(c, at, UPLINK)), slack), text)
  {
    var ks := Keystream(c, at, UPLINK);
    var body := XorStream(text, ks);
    CipheredPrefix(c, at, UPLINK, body, slack);
    XorStreamTwice(text, ks);
    var got := Ciphered(c, at, UPLINK, body, slack);
    assert got[..|text|] == text;
    if at.encryption != 1 { assert got == got[..|text|]; }
  }

  /** Where peer and AMF cipher with the same octets, the text comes through. */
  lemma SameOverflowRecovers(c: Primitives, s: SecCtx, count: Count, text: OctetString, slack: OctetString)
    requires s.encryption <= 2 && |slack| == 3
    requires count.overflow == s.ul.overflow || s.encryption == 0 || text == []
    ensures Recovers(s, Ciphered(c, AmfAt(s, count.seqNum), UPLINK, PeerBody(c, s, count, text), slack), text)
  {
    var at := AmfAt(s, count.seqNum);
    if count.overflow == s.ul.overflow {
      assert at == PeerAt(s, count);
    }
    assert PeerBody(c, s, count, text) == XorStream(text, Keystream(c, at, UPLINK));
    DecipherRecovers(c, at, text, slack);
  }

  /**
   Uplink round trip: a peer at the AMF's overflow counter that takes its MAC
   under the sequence octet is always understood.
   */
  lemma UplinkRoundTrip(c: Primitives, s: SecCtx, t: Octet, count: Count, text: OctetString, slack: OctetString)
    requires IsChecked(t) && s.encryption <= 2 && |slack| == 3 && count.overflow == s.ul.overflow
    ensures var msg := PeerProtected(c, s, t, count, count.seqNum as bv32, text);
            && InBounds(Some(s), msg)
            && var r := Unprotected(c, Some(s), msg, slack); r.Delivered? && Recovers(s, r.text, text)
  {
    PeerMessageOutcome(c, s, t, count, count.seqNum as bv32, text, slack);
    SameOverflowRecovers(c, s, count, text, slack);
  }

  // ---- A peer that follows the standard ----

  /** The message of a peer at `count` that takes its MAC under its whole COUNT, as TS 24.501 4.4.3.1 composes it. */
  function StandardMessage(c: Primitives, s: SecCtx, t: Octet, count: Count, text: OctetString): OctetString {
    PeerProtected(c, s, t, count, CountWord(count), text)
  }

  /** The message is delivered, and its text recovered. */
  ghost predicate Understands(c: Primitives, s: SecCtx, t: Octet, count: Count, text: OctetString, slack: OctetString)
    requires |slack| == 3
  {
    var msg := StandardMessage(c, s, t, count, text);
    && InBounds(Some(s), msg)
    && var r := Unprotected(c, Some(s), msg, slack); r.Delivered? && Recovers(s, r.text, text)
  }

  predicate IsIntegrityProtected(s: SecCtx) {
    1 <= s.integrity <= 2
  }

  /** Peer and AMF take MACs under the same count or take none, and cipher with the same octets. */
  predicate CountsMeet(s: SecCtx, count: Count, text: OctetString) {
    && (count.overflow == 0 || !IsIntegrityProtected(s))
    && (count.overflow == s.ul.overflow || s.encryption == 0 || text == [])
  }

  /**
   A peer that follows TS 33.501 takes its MAC and its keystream under the whole
   COUNT. Whatever the primitives are, it is understood exactly if its overflow
   counter is zero, or neither IA1 nor IA2 is selected; and is the AMF's, or
   nothing is ciphered.
   */
  lemma StandardPeerIsUnderstood(s: SecCtx, t: Octet, count: Count, text: OctetString, slack: OctetString)
    requires IsChecked(t) && s.encryption <= 2 && |slack| == 3
    ensures (forall c: Primitives :: Understands(c, s, t, count, text, slack)) <==> CountsMeet(s, count, text)
  {
    if CountsMeet(s, count, text) {
      forall c: Primitives ensures Understands(c, s, t, count, text, slack) {
        CountIsSequence(count);
        PeerMessageOutcome(c, s, t, count, CountWord(count), text, slack);
        SameOverflowRecovers(c, s, count, text, slack);
      }
    } else if count.overflow != 0 && IsIntegrityProtected(s) {
      PeerIsRefused(s, t, count, text, slack);
      assert !Understands(TellingCodes(CountWord(count)), s, t, count, text, slack);
    } else {
      PeerIsGarbled(s, t, count, text, slack);
      assert !Understands(TellingStreams(CountWord(count)), s, t, count, text, slack);
    }
  }

  lemma CountIsSequence(count: Count)
    ensures CountWord(count) == count.seqNum as bv32 <==> count.overflow == 0
  {
  }

  lemma CountsDiffer(count: Count, other: Count)
    requires count.overflow != other.overflow
    ensures CountWord(count) != CountWord(other)
  {
  }

  /** Primitives whose codes tell one count from every other. */
  function TellingCodes(count: bv32): Primitives {
    var mac: (StreamCipher, OctetString) -> MacOctets :=
      (stream: StreamCipher, _) => if stream.count == count then [1, 0, 0, 0] else [0, 0, 0, 0];
    var key: (StreamCipher, nat) -> Octet := (_, _) => 0 as Octet;
    Primitives(mac, mac, key, key)
  }

  /** Primitives whose keystreams do. */
  function TellingStreams(count: bv32): Primitives {
    var mac: (StreamCipher, OctetString) -> MacOctets := (_, _) => [0, 0, 0, 0];
    var key: (StreamCipher, nat) -> Octet := (stream: StreamCipher, _) => if stream.count == count then 1 else 0;
    Primitives(mac, mac, key, key)
  }

  /** Past its first 256 messages a standard peer is refused, where there is a MAC and it tells counts apart. */
  lemma PeerIsRefused(s: SecCtx, t: Octet, count: Count, text: OctetString, slack: OctetString)
    requires IsChecked(t) && |slack| == 3 && count.overflow != 0 && IsIntegrityProtected(s)
    ensures var c := TellingCodes(CountWord(count));
            var msg := StandardMessage(c, s, t, count, text);
            InBounds(Some(s), msg) && Unprotected(c, Some(s), msg, slack) == Dropped
  {
    CountIsSequence(count);
    PeerMessageOutcome(TellingCodes(CountWord(count)), s, t, count, CountWord(count), text, slack);
  }

  /** And where there is none, its text is delivered garbled, if keystreams tell counts apart. */
  lemma PeerIsGarbled(s: SecCtx, t: Octet, count: Count, text: OctetString, slack: OctetString)
    requires IsChecked(t) && |slack| == 3 && 1 <= s.encryption <= 2 && text != []
    requires count.overflow != s.ul.overflow
    ensures var c := TellingStreams(CountWord(count));
            var msg := StandardMessage(c, s, t, count, text);
            && InBounds(Some(s), msg)
            && var r := Unprotected(c, Some(s), msg, slack); r.Delivered? && !Recovers(s, r.text, text)
  {
    var c := TellingStreams(CountWord(count));
    var at := AmfAt(s, count.seqNum);
    PeerMessageOutcome(c, s, t, count, CountWord(count), text, slack);
    CountsDiffer(count, at.ul);
    FirstOctetFlipped(c, PeerAt(s, count), at, text, slack);
  }

  lemma FirstOctetFlipped(c: Primitives, peer: SecCtx, at: SecCtx, text: OctetString, slack: OctetString)
    requires |slack| == 3 && text != [] && 1 <= at.encryption <= 2
    requires Keystream(c, peer, UPLINK)(0) == 1 && Keystream(c, at, UPLINK)(0) == 0
    ensures !Recovers(at, Ciphered(c, at, UPLINK, XorStream(text, Keystream(c, peer, UPLINK)), slack), text)
  {
    var body := XorStream(text, Keystream(c, peer, UPLINK));
    CipheredPrefix(c, at, UPLINK, body, slack);
    var got := Ciphered(c, at, UPLINK, body, slack);
    assert got[0] == got[..|text|][0] == body[0] ^ Keystream(c, at, UPLINK)(0);
    FlippedOctet(text[0]);
  }

  lemma FlippedOctet(o: Octet)
    ensures (o ^ 1) ^ 0 != o
  {
  }

  // ---- The count given to the gNB key ----

  /** The uplink count handed to derive_kgnb: sequence number or shifted overflow. */
  function KgnbCount(s: SecCtx): bv32 {
    (s.ul.seqNum as bv32) | ((s.ul.overflow as bv32) << 8)
  }

  /**
   After a message has been deciphered, the gNB key is derived under the COUNT
   the message was deciphered under: its sequence octet and 256 times the
   overflow counter.
   */
  lemma KgnbCountAgrees(s: SecCtx, msg: OctetString)
    requires SecurityHeader(msg).Some? && IsChecked(SecurityHeader(msg).value) && |msg| >= HEADER_LENGTH
    ensures var after := AfterUplink(Some(s), msg).value;
            && KgnbCount(after) == CipherStream(after, UPLINK).count
            && KgnbCount(after) as nat == msg[SEQUENCE_NUMBER_OCTET] as nat + 256 * s.ul.overflow as nat
  {
    var after := AfterUplink(Some(s), msg).value;
    assert after.ul == Count(s.ul.overflow, msg[SEQUENCE_NUMBER_OCTET]);
    KgnbCountOf(after);
    assert CipherStream(after, UPLINK).count == CountWord(after.ul);
  }

  lemma KgnbCountOf(s: SecCtx)
    ensures KgnbCount(s) == CountWord(s.ul)
    ensures KgnbCount(s) as nat == s.ul.seqNum as nat + 256 * s.ul.overflow as nat
  {
    KgnbCountIsCountWord(s.ul.overflow, s.ul.seqNum);
    SameWordValue(KgnbCount(s), s.ul);
  }

  lemma SameWordValue(w: bv32, c: Count)
    requires w == CountWord(c)
    ensures w as nat == c.seqNum as nat + 256 * c.overflow as nat
  {
    CountWordValue(c);
  }

  lemma KgnbCountIsCountWord(overflow: bv16, seqNum: Octet)
    ensures (seqNum as bv32) | ((overflow as bv32) << 8) == CountWord(Count(overflow, seqNum))
  {
  }
}

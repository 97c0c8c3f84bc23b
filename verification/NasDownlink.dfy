/**
 Downlink protection (amf_n1.cpp, encode_nas_message_protected): the message is
 laid out in a 4096-octet stack buffer under the downlink COUNT.
 */
module NasDownlink {
  import opened Wrappers
  import opened Octets
  import opened NasSecurity
  import opened NasFrame

  const BUFFER_SIZE := 4096

  /** Every write for an n-octet message stays inside the buffer. */
  predicate Fits(s: SecCtx, header: Octet, n: nat) {
    && HEADER_LENGTH + n <= BUFFER_SIZE
    && (LowNibble(header) == INTEGRITY_PROTECTED_CIPHERED && s.encryption == 1 ==>
          HEADER_LENGTH + WordRounded(n) <= BUFFER_SIZE)
  }

  /**
   The text part of the message. A ciphering algorithm above 2 writes no text,
   so what the buffer held before (`stale`) goes out.
   */
  function Body(c: Primitives, s: SecCtx, header: Octet, input: OctetString, stale: OctetString,
                slack: OctetString): (b: OctetString)
    requires |stale| == BUFFER_SIZE && |slack| == 3 && Fits(s, header, |input|)
    ensures |b| == |input|
  {
    if LowNibble(header) == INTEGRITY_PROTECTED_NEW then input
    else if s.encryption > 2 then stale[HEADER_LENGTH..HEADER_LENGTH + |input|]
    else
      CipheredPrefix(c, s, DOWNLINK, input, slack);
      Ciphered(c, s, DOWNLINK, input, slack)[..|input|]
  }

  /** The frame around a text, its MAC taken over sequence octet and text. */
  function Sealed(c: Primitives, s: SecCtx, t: Octet, body: OctetString): OctetString {
    Frame(t, Mac(c, s, DOWNLINK, [s.dl.seqNum] + body), s.dl.seqNum, body)
  }

  /** The message handed to N2; None where the source leaves its null pointer. */
  function Encoded(c: Primitives, s: SecCtx, isNew: bool, header: Octet, input: OctetString, stale: OctetString,
                   slack: OctetString): Option<OctetString>
    requires |stale| == BUFFER_SIZE && |slack| == 3 && Fits(s, header, |input|)
  {
    var t := LowNibble(header);
    if t == INTEGRITY_PROTECTED_NEW && !isNew then None
    else if t != INTEGRITY_PROTECTED_NEW && t != INTEGRITY_PROTECTED_CIPHERED then Some([])
    else if s.integrity == 0 then Some(input)
    else Some(Sealed(c, s, t, Body(c, s, header, input, stale, slack)))
  }

  /** The context afterwards: the eight-bit counter moves on, except on the early return. */
  function AfterEncode(s: SecCtx, isNew: bool, header: Octet): SecCtx {
    if LowNibble(header) == INTEGRITY_PROTECTED_NEW && !isNew then s
    else s.(dl := s.dl.(seqNum := s.dl.seqNum + 1))
  }

  /** `stale` is what the stack buffer happens to hold when the function is entered. */
  method EncodeNasMessageProtected(c: Primitives, nsc: NasSecuCtx, isNew: bool, header: Octet, input: OctetString,
                                   stale: OctetString, slack: OctetString)
    returns (nas: Option<OctetString>)
    requires |stale| == BUFFER_SIZE && |slack| == 3 && Fits(nsc.View(), header, |input|)
    modifies nsc
    ensures nas == Encoded(c, old(nsc.View()), isNew, header, input, stale, slack)
    ensures nsc.View() == AfterEncode(old(nsc.View()), isNew, header)
  {
    var buf := new Octet[BUFFER_SIZE](i requires 0 <= i < BUFFER_SIZE => stale[i]);
    assert buf[..] == stale;
    ghost var s := nsc.View();
    var size := 0;
    var t := LowNibble(header);
    if t == INTEGRITY_PROTECTED_CIPHERED {
      var ciphered := NasMessageCipherProtected(c, nsc, DOWNLINK, input, slack);
      LayOut(buf, t, nsc.dlCount.seqNum, ciphered);
      size := Seal(c, nsc, buf, t, input, Body(c, s, header, input, stale, slack));
    } else if t == INTEGRITY_PROTECTED_NEW {
      if !isNew {
        return None;
      }
      LayOut(buf, t, nsc.dlCount.seqNum, input);
      size := Seal(c, nsc, buf, t, input, input);
    }
    nas := Some(buf[..size]);
    nsc.dlCount := nsc.dlCount.(seqNum := nsc.dlCount.seqNum + 1);
  }

  method CopyInto(buf: array<Octet>, at: nat, data: OctetString)
    requires at + |data| <= buf.Length
    modifies buf
    ensures forall k :: 0 <= k < |data| ==> buf[at + k] == data[k]
    ensures forall k :: 0 <= k < buf.Length && !(at <= k < at + |data|) ==> buf[k] == old(buf[k])
  {
    for i := 0 to |data|
      invariant forall k :: 0 <= k < i ==> buf[at + k] == data[k]
      invariant forall k :: 0 <= k < buf.Length && !(at <= k < at + i) ==> buf[k] == old(buf[k])
    {
      buf[at + i] := data[i];
    }
  }

  /** Discriminator, header type, counter and text; the MAC octets are left for Seal. */
  method LayOut(buf: array<Octet>, t: Octet, seqNum: Octet, text: OctetString)
    requires HEADER_LENGTH + |text| <= buf.Length
    modifies buf
    ensures buf[0] == EPD && buf[1] == t && buf[SEQUENCE_NUMBER_OCTET] == seqNum
    ensures forall k :: 0 <= k < |text| ==> buf[HEADER_LENGTH + k] == text[k]
    ensures forall k :: HEADER_LENGTH + |text| <= k < buf.Length ==> buf[k] == old(buf[k])
  {
    buf[0] := EPD;
    buf[1] := t;
    buf[SEQUENCE_NUMBER_OCTET] := seqNum;
    CopyInto(buf, HEADER_LENGTH, text);
  }

  /** The MAC over a laid out message, or the plain message in its place under IA0. */
  method Seal(c: Primitives, nsc: NasSecuCtx, buf: array<Octet>, t: Octet, input: OctetString, ghost body: OctetString)
    returns (size: nat)
    requires |body| == |input| && HEADER_LENGTH + |input| <= buf.Length
    requires buf[0] == EPD && buf[1] == t && buf[SEQUENCE_NUMBER_OCTET] == nsc.dlCount.seqNum
    requires forall k :: 0 <= k < |body| ==> buf[HEADER_LENGTH + k] == body[k]
    modifies buf, nsc`ulCount
    ensures nsc.View() == old(nsc.View())
    ensures size <= buf.Length
    ensures buf[..size] == if nsc.integrity == 0 then input else Sealed(c, nsc.View(), t, body)
  {
    var covered := buf[SEQUENCE_NUMBER_OCTET..HEADER_LENGTH + |input|];
    assert covered == [nsc.dlCount.seqNum] + body;
    var isProtected, mac32 := NasMessageIntegrityProtected(c, nsc, DOWNLINK, covered);
    if !isProtected {
      CopyInto(buf, 0, input);
      size := |input|;
    } else {
      var code := ToNetwork(mac32);
      CopyInto(buf, 2, code);
      size := HEADER_LENGTH + |input|;
      ghost var f := Sealed(c, nsc.View(), t, body);
      forall k | 0 <= k < size ensures buf[k] == f[k] {
        if 2 <= k < 6 {
          assert buf[2 + (k - 2)] == code[k - 2] == f[2..6][k - 2];
        } else if HEADER_LENGTH <= k {
          assert buf[HEADER_LENGTH + (k - HEADER_LENGTH)] == body[k - HEADER_LENGTH] == f[HEADER_LENGTH..][k - HEADER_LENGTH];
        }
      }
    }
  }

  // ---- What the receiver gets ----

  /** A UE that holds the keys, the algorithms and the downlink overflow counter of the AMF. */
  predicate SharesDownlink(ue: SecCtx, s: SecCtx) {
    && ue.knasEnc == s.knasEnc && ue.knasInt == s.knasInt
    && ue.encryption == s.encryption && ue.integrity == s.integrity
    && ue.dl.overflow == s.dl.overflow
  }

  /** How such a UE opens a downlink message. */
  function OpenDownlink(c: Primitives, ue: SecCtx, msg: OctetString): Option<OctetString> {
    if ue.integrity == 0 then Some(msg)
    else if |msg| < HEADER_LENGTH || msg[0] != EPD then None
    else if msg[2..6] != Mac(c, ue, DOWNLINK, msg[SEQUENCE_NUMBER_OCTET..]) then None
    else if msg[1] == INTEGRITY_PROTECTED_NEW then Some(msg[HEADER_LENGTH..])
    else if msg[1] == INTEGRITY_PROTECTED_CIPHERED then
      var at := ue.(dl := ue.dl.(seqNum := msg[SEQUENCE_NUMBER_OCTET]));
      Some(XorStream(msg[HEADER_LENGTH..], Keystream(c, at, DOWNLINK)))
    else None
  }

  /** The UE recovers exactly the text the AMF protected, whatever memory held. */
  lemma DownlinkRoundTrip(c: Primitives, s: SecCtx, ue: SecCtx, header: Octet, input: OctetString,
                          stale: OctetString, slack: OctetString)
    requires |stale| == BUFFER_SIZE && |slack| == 3 && Fits(s, header, |input|)
    requires header == INTEGRITY_PROTECTED_CIPHERED || header == INTEGRITY_PROTECTED_NEW
    requires SharesDownlink(ue, s) && s.encryption <= 2
    ensures var sent := Encoded(c, s, true, header, input, stale, slack);
            sent.Some? && OpenDownlink(c, ue, sent.value) == Some(input)
  {
    NibbleOfKnownHeader(header);
    if s.integrity != 0 && header == INTEGRITY_PROTECTED_CIPHERED {
      var ks := Keystream(c, s, DOWNLINK);
      CipheredPrefix(c, s, DOWNLINK, input, slack);
      XorStreamTwice(input, ks);
      var at := ue.(dl := ue.dl.(seqNum := s.dl.seqNum));
      assert CipherStream(at, DOWNLINK) == CipherStream(s, DOWNLINK);
      SameKeystream(c, at, s, input);
      SameKeystream(c, at, s, XorStream(input, ks));
    }
  }

  lemma NibbleOfKnownHeader(header: Octet)
    requires header <= 4
    ensures LowNibble(header) == header
  {
  }

  lemma SameKeystream(c: Primitives, s: SecCtx, s': SecCtx, text: OctetString)
    requires CipherStream(s, DOWNLINK) == CipherStream(s', DOWNLINK) && s.encryption == s'.encryption
    ensures XorStream(text, Keystream(c, s, DOWNLINK)) == XorStream(text, Keystream(c, s', DOWNLINK))
  {
  }

  /**
   Sizes on the wire: seven octets more than the text under any integrity
   algorithm, although EA1 ciphers whole words, and the bare text under IA0.
   */
  lemma DownlinkSize(c: Primitives, s: SecCtx, header: Octet, input: OctetString, stale: OctetString, slack: OctetString)
    requires |stale| == BUFFER_SIZE && |slack| == 3 && Fits(s, header, |input|)
    requires header == INTEGRITY_PROTECTED_CIPHERED || header == INTEGRITY_PROTECTED_NEW
    ensures var sent := Encoded(c, s, true, header, input, stale, slack);
            sent.Some? && (if s.integrity == 0 then sent.value == input
                           else |sent.value| == |input| + HEADER_LENGTH
                                && sent.value[SEQUENCE_NUMBER_OCTET] == s.dl.seqNum)
  {
    NibbleOfKnownHeader(header);
  }

  /** The writes fit exactly up to 4088 octets of text under EA1 and 4089 otherwise. */
  lemma FitsExactly(s: SecCtx, n: nat)
    ensures Fits(s, INTEGRITY_PROTECTED_CIPHERED, n) <==> n <= (if s.encryption == 1 then 4088 else 4089)
    ensures Fits(s, INTEGRITY_PROTECTED_NEW, n) <==> n <= 4089
    ensures n <= 1024 ==> Fits(s, INTEGRITY_PROTECTED_CIPHERED, n) && Fits(s, INTEGRITY_PROTECTED_NEW, n)
  {
    NibbleOfKnownHeader(INTEGRITY_PROTECTED_CIPHERED);
    NibbleOfKnownHeader(INTEGRITY_PROTECTED_NEW);
  }

  /**
   Two encodings of the same text from different leftover memory agree exactly
   when a ciphering algorithm wrote the text, or nothing of it was secured, or
   the leftovers agree where the text should be.
   */
  lemma LeftoverMemoryMatters(c: Primitives, s: SecCtx, input: OctetString,
                              stale: OctetString, slack: OctetString, stale': OctetString, slack': OctetString)
    requires |stale| == |stale'| == BUFFER_SIZE && |slack| == |slack'| == 3
    requires Fits(s, INTEGRITY_PROTECTED_CIPHERED, |input|)
    ensures Encoded(c, s, false, INTEGRITY_PROTECTED_CIPHERED, input, stale, slack)
            == Encoded(c, s, false, INTEGRITY_PROTECTED_CIPHERED, input, stale', slack')
            <==> s.encryption <= 2 || s.integrity == 0
                 || stale[HEADER_LENGTH..HEADER_LENGTH + |input|] == stale'[HEADER_LENGTH..HEADER_LENGTH + |input|]
  {
    var header := INTEGRITY_PROTECTED_CIPHERED;
    NibbleOfKnownHeader(header);
    var b, b' := Body(c, s, header, input, stale, slack), Body(c, s, header, input, stale', slack');
    if s.encryption <= 2 {
      CipheredPrefix(c, s, DOWNLINK, input, slack);
      CipheredPrefix(c, s, DOWNLINK, input, slack');
      assert b == b';
    } else if s.integrity != 0 && b != b' {
      assert Sealed(c, s, header, b)[HEADER_LENGTH..] != Sealed(c, s, header, b')[HEADER_LENGTH..];
    }
  }
}

/**
 The NAS security context and the two primitives every protected message goes
 through: the message authentication code and the ciphering of a text
 (amf_n1.cpp, nas_message_integrity_protected and nas_message_cipher_protected).
 */
module NasSecurity {
  import opened Octets

  const UPLINK: Octet := 0
  const DOWNLINK: Octet := 1
  const BEARER: Octet := 1

  /** TS 24.501 4.4.3.1: a 16-bit overflow counter and an 8-bit sequence number. */
  datatype Count = Count(overflow: bv16, seqNum: Octet)

  const ZERO_COUNT := Count(0, 0)

  datatype ScType = NotAvailable | PartialNative | FullNative | Mapped

  /** A four-bit field of `selected_algs`. */
  type Algorithm = a: nat | a < 16

  /** The value of a security context. */
  datatype SecCtx = SecCtx(
    vectorPointer: nat,
    scType: ScType,
    ngksi: nat,
    knasEnc: OctetString,
    knasInt: OctetString,
    dl: Count,
    ul: Count,
    encryption: Algorithm,
    integrity: Algorithm)

  const NO_KEY: OctetString := [0, 0, 0, 0, 0, 0, 0, 0, 0, 0, 0, 0, 0, 0, 0, 0]

  /** A value-initialised context, as `std::make_optional<nas_secu_ctx>()` builds it. */
  const EMPTY_CTX := SecCtx(0, NotAvailable, 0, NO_KEY, NO_KEY, ZERO_COUNT, ZERO_COUNT, 0, 0)

  /** The parameters of one run of a NAS algorithm (`nas_stream_cipher_t`). */
  datatype StreamCipher = StreamCipher(key: OctetString, count: bv32, bearer: Octet, direction: Octet)

  type MacOctets = m: OctetString | |m| == 4 witness [0, 0, 0, 0]

  /** The cryptographic primitives, left uninterpreted: any functions of these types. */
  datatype Primitives = Primitives(
    nia1: (StreamCipher, OctetString) -> MacOctets,
    nia2: (StreamCipher, OctetString) -> MacOctets,
    nea1: (StreamCipher, nat) -> Octet,
    nea2: (StreamCipher, nat) -> Octet)

  class NasSecuCtx {
    var vectorPointer: nat
    var scType: ScType
    var ngksi: nat
    var knasEnc: OctetString
    var knasInt: OctetString
    var dlCount: Count
    var ulCount: Count
    var encryption: Algorithm
    var integrity: Algorithm

    constructor (s: SecCtx)
      ensures View() == s
    {
      vectorPointer, scType, ngksi := s.vectorPointer, s.scType, s.ngksi;
      knasEnc, knasInt := s.knasEnc, s.knasInt;
      dlCount, ulCount := s.dl, s.ul;
      encryption, integrity := s.encryption, s.integrity;
    }

    function View(): SecCtx
      reads this
    {
      SecCtx(vectorPointer, scType, ngksi, knasEnc, knasInt, dlCount, ulCount, encryption, integrity)
    }
  }

  /** The 24-bit COUNT of TS 24.501 4.4.3.1, in a 32-bit word. */
  function CountWord(c: Count): bv32 {
    (((c.overflow as bv32) & 0xffff) << 8) | ((c.seqNum as bv32) & 0xff)
  }

  lemma CountWordValue(c: Count)
    ensures CountWord(c) as nat == c.seqNum as nat + 256 * c.overflow as nat
    ensures CountWord(c) < 0x100_0000
  {
    DropMasks(c.overflow, c.seqNum);
    ShiftIsTimes256(c.overflow, c.seqNum);
  }

  lemma DropMasks(o: bv16, s: bv8)
    ensures CountWord(Count(o, s)) == ((o as bv32) << 8) | (s as bv32)
    ensures CountWord(Count(o, s)) < 0x100_0000
  {
  }

  lemma ShiftIsTimes256(o: bv16, s: bv8)
    ensures (((o as bv32) << 8) | (s as bv32)) as nat == (o as nat) * 256 + s as nat
  {
  }

  // ---- Integrity ----

  /** The context after the check: an uplink check takes over the received sequence octet. */
  function AfterIntegrity(s: SecCtx, direction: Octet, input: OctetString): SecCtx
    requires |input| > 0
  {
    if direction == UPLINK then s.(ul := s.ul.(seqNum := input[0])) else s
  }

  /** The MAC octets under a given count; none of them for algorithm 0. */
  function MacUnder(c: Primitives, s: SecCtx, count: bv32, direction: Octet, input: OctetString): (m: MacOctets)
  {
    var stream := StreamCipher(s.knasInt, count, BEARER, direction);
    if s.integrity == 1 then c.nia1(stream, input)
    else if s.integrity == 2 then c.nia2(stream, input)
    else [0, 0, 0, 0]
  }

  /** The MAC the AMF computes: the count is the sequence octet alone, without the overflow. */
  function Mac(c: Primitives, s: SecCtx, direction: Octet, input: OctetString): (m: MacOctets)
    requires |input| > 0
  {
    MacUnder(c, s, input[0] as bv32, direction, input)
  }

  method NasMessageIntegrityProtected(c: Primitives, nsc: NasSecuCtx, direction: Octet, input: OctetString)
    returns (isProtected: bool, mac32: bv32)
    requires |input| > 0
    modifies nsc`ulCount
    ensures nsc.View() == AfterIntegrity(old(nsc.View()), direction, input)
    ensures isProtected == (nsc.integrity != 0)
    ensures isProtected ==> ToNetwork(mac32) == Mac(c, old(nsc.View()), direction, input)
    ensures var stream := StreamCipher(nsc.knasInt, input[0] as bv32, 1, direction);
            && (nsc.integrity == 1 ==> ToNetwork(mac32) == c.nia1(stream, input))
            && (nsc.integrity == 2 ==> ToNetwork(mac32) == c.nia2(stream, input))
            && (nsc.integrity > 2 ==> mac32 == 0)
  {
    var stream := StreamCipher(nsc.knasInt, input[0] as bv32, BEARER, direction);
    mac32 := 0;
    if direction == UPLINK {
      nsc.ulCount := nsc.ulCount.(seqNum := input[0]);
    }
    if nsc.integrity == 0 {
      return false, 0;
    } else if nsc.integrity == 1 {
      var mac := c.nia1(stream, input);
      mac32 := FromNetwork(mac);
      NetworkRoundTrip(mac);
    } else if nsc.integrity == 2 {
      var mac := c.nia2(stream, input);
      mac32 := FromNetwork(mac);
      NetworkRoundTrip(mac);
    }
    isProtected := true;
  }

  // ---- Ciphering ----

  function CipherStream(s: SecCtx, direction: Octet): StreamCipher {
    StreamCipher(s.knasEnc, CountWord(if direction == UPLINK then s.ul else s.dl), BEARER, direction)
  }

  function Keystream(c: Primitives, s: SecCtx, direction: Octet): nat -> Octet {
    var stream := CipherStream(s, direction);
    if s.encryption == 1 then (i: nat) => c.nea1(stream, i)
    else if s.encryption == 2 then (i: nat) => c.nea2(stream, i)
    else (i: nat) => 0 as Octet
  }

  /** Octets EA1 produces for an n-octet text: whole 32-bit words. */
  function WordRounded(n: nat): nat {
    (n * 8 + 31) / 32 * 4
  }

  lemma WordRoundedIsCeiling(n: nat)
    ensures n <= WordRounded(n) < n + 4 && WordRounded(n) % 4 == 0
  {
  }

  /**
   The text that ciphering yields. `slack` stands for the octets that follow the
   text in its memory block: EA1 works on whole words and takes them in. An
   algorithm above 2 yields nothing.
   */
  function Ciphered(c: Primitives, s: SecCtx, direction: Octet, input: OctetString, slack: OctetString): (r: OctetString)
    requires |slack| == 3
    ensures |r| == if s.encryption == 1 then WordRounded(|input|) else if s.encryption <= 2 then |input| else 0
  {
    WordRoundedIsCeiling(|input|);
    if s.encryption == 0 then input
    else if s.encryption == 1 then
      XorStream(input + slack[..WordRounded(|input|) - |input|], Keystream(c, s, direction))
    else if s.encryption == 2 then XorStream(input, Keystream(c, s, direction))
    else []
  }

  /** The first octets of the ciphered text, as many as the text has, do not depend on the slack. */
  lemma CipheredPrefix(c: Primitives, s: SecCtx, direction: Octet, input: OctetString, slack: OctetString)
    requires |slack| == 3 && s.encryption <= 2
    ensures |Ciphered(c, s, direction, input, slack)| >= |input|
    ensures Ciphered(c, s, direction, input, slack)[..|input|] == XorStream(input, Keystream(c, s, direction))
  {
    WordRoundedIsCeiling(|input|);
    var ks := Keystream(c, s, direction);
    if s.encryption == 0 {
      forall i | 0 <= i < |input| ensures input[i] == XorStream(input, ks)[i] {
        XorZero(input[i]);
      }
      assert input == XorStream(input, ks);
    } else if s.encryption == 1 {
      XorStreamPrefix(input, slack[..WordRounded(|input|) - |input|], ks);
    }
  }

  lemma XorZero(a: Octet)
    ensures a ^ 0 == a
  {
  }

  method NasMessageCipherProtected(c: Primitives, nsc: NasSecuCtx, direction: Octet, input: OctetString, slack: OctetString)
    returns (output: OctetString)
    requires |slack| == 3
    ensures output == Ciphered(c, nsc.View(), direction, input, slack)
  {
    var count := if direction != UPLINK then CountWord(nsc.dlCount) else CountWord(nsc.ulCount);
    var stream := StreamCipher(nsc.knasEnc, count, BEARER, direction);
    if nsc.encryption == 0 {
      return input;
    } else if nsc.encryption == 1 {
      WordRoundedIsCeiling(|input|);
      var message := input + slack[..WordRounded(|input|) - |input|];
      return XorStream(message, (i: nat) => c.nea1(stream, i));
    } else if nsc.encryption == 2 {
      return XorStream(input, (i: nat) => c.nea2(stream, i));
    }
    return [];
  }
}

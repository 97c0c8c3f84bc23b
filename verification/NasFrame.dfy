/**
 The layout of a security protected 5GS NAS message (TS 24.501, section 9.1.1):
 discriminator, security header type, four MAC octets, sequence number, text.
 */
module NasFrame {
  import opened Octets
  import opened NasSecurity

  const EPD: Octet := 0x7e
  const SEQUENCE_NUMBER_OCTET := 6
  const HEADER_LENGTH := 7

  const PLAIN: Octet := 0
  const INTEGRITY_PROTECTED: Octet := 1
  const INTEGRITY_PROTECTED_CIPHERED: Octet := 2
  const INTEGRITY_PROTECTED_NEW: Octet := 3
  const INTEGRITY_PROTECTED_CIPHERED_NEW: Octet := 4

  function Frame(header: Octet, mac: MacOctets, seqNum: Octet, body: OctetString): (f: OctetString)
    ensures |f| == HEADER_LENGTH + |body|
    ensures f[0] == EPD && f[1] == header && f[2..6] == mac
    ensures f[SEQUENCE_NUMBER_OCTET] == seqNum && f[HEADER_LENGTH..] == body
    ensures f[SEQUENCE_NUMBER_OCTET..] == [seqNum] + body
  {
    [EPD, header] + mac + [seqNum] + body
  }

  /** The low four bits of an octet, where the security header type is. */
  function LowNibble(o: Octet): Octet {
    o & 0x0f
  }
}

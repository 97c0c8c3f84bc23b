/**
 Octet strings, and the 32-bit host words that the AMF reads and writes over
 them. The host is little-endian, so a word travels through htonl and ntohl
 between the wire and the code that compares it.
 */
module Octets {

  type Octet = bv8
  type OctetString = seq<Octet>

  /** XOR of a text with a keystream given octet by octet. */
  function XorStream(text: OctetString, keystream: nat -> Octet): (r: OctetString)
    ensures |r| == |text|
  {
    seq(|text|, i requires 0 <= i < |text| => text[i] ^ keystream(i))
  }

  lemma XorStreamTwice(text: OctetString, keystream: nat -> Octet)
    ensures XorStream(XorStream(text, keystream), keystream) == text
  {
    forall i | 0 <= i < |text|
      ensures XorStream(XorStream(text, keystream), keystream)[i] == text[i]
    {
      XorTwice(text[i], keystream(i));
    }
  }

  lemma XorTwice(a: Octet, k: Octet)
    ensures (a ^ k) ^ k == a
  {
  }

  /** Ciphering an extension of a text extends the ciphertext of the text. */
  lemma XorStreamPrefix(text: OctetString, tail: OctetString, keystream: nat -> Octet)
    ensures XorStream(text + tail, keystream)[..|text|] == XorStream(text, keystream)
  {
  }

  /** The word a little-endian host sees in four octets of memory. */
  function LoadWord(b: OctetString): bv32
    requires |b| == 4
  {
    (b[0] as bv32) | ((b[1] as bv32) << 8) | ((b[2] as bv32) << 16) | ((b[3] as bv32) << 24)
  }

  /** The four octets of memory a little-endian host writes for a word. */
  function StoreWord(w: bv32): (b: OctetString)
    ensures |b| == 4
  {
    [(w & 0xff) as bv8, ((w >> 8) & 0xff) as bv8, ((w >> 16) & 0xff) as bv8, ((w >> 24) & 0xff) as bv8]
  }

  /** htonl and ntohl are the same octet reversal. */
  function SwapWord(w: bv32): bv32 {
    ((w & 0xff) << 24) | ((w & 0xff00) << 8) | ((w >> 8) & 0xff00) | (w >> 24)
  }

  lemma SwapWordTwice(w: bv32)
    ensures SwapWord(SwapWord(w)) == w
  {
  }

  lemma LoadStoreWord(w: bv32)
    ensures LoadWord(StoreWord(w)) == w
  {
  }

  lemma StoreLoadWord(b: OctetString)
    requires |b| == 4
    ensures StoreWord(LoadWord(b)) == b
  {
  }

  /** The host value of a code held in network order: ntohl of the loaded word. */
  function FromNetwork(b: OctetString): bv32
    requires |b| == 4
  {
    SwapWord(LoadWord(b))
  }

  /** The octets written for a host value put in network order: the stored htonl. */
  function ToNetwork(w: bv32): (b: OctetString)
    ensures |b| == 4
  {
    StoreWord(SwapWord(w))
  }

  /** Four octets survive the ntohl/htonl pair, so a code is sent as it was computed. */
  lemma NetworkRoundTrip(b: OctetString)
    requires |b| == 4
    ensures ToNetwork(FromNetwork(b)) == b
  {
    SwapWordTwice(LoadWord(b));
    StoreLoadWord(b);
  }

  /** A host value survives the htonl/ntohl pair, so codes compare as their octets do. */
  lemma HostRoundTrip(w: bv32)
    ensures FromNetwork(ToNetwork(w)) == w
  {
    LoadStoreWord(SwapWord(w));
    SwapWordTwice(w);
  }
}

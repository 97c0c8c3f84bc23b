/**
 The 16-bit PDU session sets of TS 24.501, sections 9.11.3.42, 9.11.3.44 and
 9.11.3.57, as amf_n1.cpp reads and writes them through a bitset.
 */
module PduSessionStatus {
  import opened Octets

  /** The value of a `std::bitset<16>`. */
  type Bits = b: seq<bool> | |b| == 16 witness NO_BITS

  const NO_BITS: seq<bool> := [false, false, false, false, false, false, false, false,
                               false, false, false, false, false, false, false, false]

  type BitIndex = i: nat | i < 16

  // ---- The word a bitset is made of ----

  predicate Has(w: bv16, mask: bv16) {
    w & mask != 0
  }

  function OfWord(w: bv16): Bits {
    [Has(w, 0x0001), Has(w, 0x0002), Has(w, 0x0004), Has(w, 0x0008),
     Has(w, 0x0010), Has(w, 0x0020), Has(w, 0x0040), Has(w, 0x0080),
     Has(w, 0x0100), Has(w, 0x0200), Has(w, 0x0400), Has(w, 0x0800),
     Has(w, 0x1000), Has(w, 0x2000), Has(w, 0x4000), Has(w, 0x8000)]
  }

  /** A word is determined by its bits, so a bitset stands for exactly one word. */
  lemma OfWordInjective(w: bv16, w': bv16)
    requires OfWord(w) == OfWord(w')
    ensures w == w'
  {
    FirstBits(w, w');
    SecondBits(w, w');
    ThirdBits(w, w');
    FourthBits(w, w');
    SameBits(w, w');
  }

  lemma FirstBits(w: bv16, w': bv16)
    requires OfWord(w) == OfWord(w')
    ensures (Has(w, 0x0001) <==> Has(w', 0x0001)) && (Has(w, 0x0002) <==> Has(w', 0x0002))
    ensures (Has(w, 0x0004) <==> Has(w', 0x0004)) && (Has(w, 0x0008) <==> Has(w', 0x0008))
  {
    var b, b' := OfWord(w), OfWord(w');
    assert b[0] == b'[0] && b[1] == b'[1] && b[2] == b'[2] && b[3] == b'[3];
  }

  lemma SecondBits(w: bv16, w': bv16)
    requires OfWord(w) == OfWord(w')
    ensures (Has(w, 0x0010) <==> Has(w', 0x0010)) && (Has(w, 0x0020) <==> Has(w', 0x0020))
    ensures (Has(w, 0x0040) <==> Has(w', 0x0040)) && (Has(w, 0x0080) <==> Has(w', 0x0080))
  {
    var b, b' := OfWord(w), OfWord(w');
    assert b[4] == b'[4] && b[5] == b'[5] && b[6] == b'[6] && b[7] == b'[7];
  }

  lemma ThirdBits(w: bv16, w': bv16)
    requires OfWord(w) == OfWord(w')
    ensures (Has(w, 0x0100) <==> Has(w', 0x0100)) && (Has(w, 0x0200) <==> Has(w', 0x0200))
    ensures (Has(w, 0x0400) <==> Has(w', 0x0400)) && (Has(w, 0x0800) <==> Has(w', 0x0800))
  {
    var b, b' := OfWord(w), OfWord(w');
    assert b[8] == b'[8] && b[9] == b'[9] && b[10] == b'[10] && b[11] == b'[11];
  }

  lemma FourthBits(w: bv16, w': bv16)
    requires OfWord(w) == OfWord(w')
    ensures (Has(w, 0x1000) <==> Has(w', 0x1000)) && (Has(w, 0x2000) <==> Has(w', 0x2000))
    ensures (Has(w, 0x4000) <==> Has(w', 0x4000)) && (Has(w, 0x8000) <==> Has(w', 0x8000))
  {
    var b, b' := OfWord(w), OfWord(w');
    assert b[12] == b'[12] && b[13] == b'[13] && b[14] == b'[14] && b[15] == b'[15];
  }

  lemma SameBits(w: bv16, w': bv16)
    requires (Has(w, 0x0001) <==> Has(w', 0x0001)) && (Has(w, 0x0002) <==> Has(w', 0x0002))
    requires (Has(w, 0x0004) <==> Has(w', 0x0004)) && (Has(w, 0x0008) <==> Has(w', 0x0008))
    requires (Has(w, 0x0010) <==> Has(w', 0x0010)) && (Has(w, 0x0020) <==> Has(w', 0x0020))
    requires (Has(w, 0x0040) <==> Has(w', 0x0040)) && (Has(w, 0x0080) <==> Has(w', 0x0080))
    requires (Has(w, 0x0100) <==> Has(w', 0x0100)) && (Has(w, 0x0200) <==> Has(w', 0x0200))
    requires (Has(w, 0x0400) <==> Has(w', 0x0400)) && (Has(w, 0x0800) <==> Has(w', 0x0800))
    requires (Has(w, 0x1000) <==> Has(w', 0x1000)) && (Has(w, 0x2000) <==> Has(w', 0x2000))
    requires (Has(w, 0x4000) <==> Has(w', 0x4000)) && (Has(w, 0x8000) <==> Has(w', 0x8000))
    ensures w == w'
  {
  }

  // ---- The sessions a bitset names ----

  /** The PDU session identities a status can name; identity 0 has a spare bit. */
  predicate IsSession(id: nat) {
    1 <= id <= 15
  }

  /** The bit of an identity; the spare bit 8 for what is not a session. */
  function BitOf(id: nat): BitIndex {
    if 1 <= id <= 7 then id + 8 else if 8 <= id <= 15 then id - 8 else 8
  }

  /** The sessions a status names. */
  function Named(b: Bits): set<nat> {
    set id: nat | 1 <= id <= 15 && b[BitOf(id)]
  }

  /** set_pdu_session_reactivation_result: an identity out of range changes nothing. */
  function Mark(id: nat, b: Bits): Bits {
    if 0 < id <= 7 then b[id + 8 := true]
    else if 7 < id <= 15 then b[id - 8 := true]
    else b
  }

  /** set_pdu_session_status_inactive. */
  function Unmark(id: nat, b: Bits): Bits {
    if 0 < id <= 7 then b[id + 8 := false]
    else if 7 < id <= 15 then b[id - 8 := false]
    else b
  }

  /** Marking and unmarking are insertion and removal on the named sessions, and leave the spare bit alone. */
  lemma MarkUnmark(id: nat, b: Bits)
    ensures Named(Mark(id, b)) == Named(b) + (if IsSession(id) then {id} else {})
    ensures Named(Unmark(id, b)) == Named(b) - {id}
    ensures Mark(id, b)[8] == Unmark(id, b)[8] == b[8]
  {
    forall other: nat | IsSession(other) && IsSession(id) && BitOf(other) == BitOf(id) ensures other == id {
    }
  }

  /** A status is determined by the sessions it names and its spare bit. */
  lemma BitsDetermined(b: Bits, b': Bits)
    requires Named(b) == Named(b') && b[8] == b'[8]
    ensures b == b'
  {
    forall i | 0 <= i < 16 ensures b[i] == b'[i] {
      if i != 8 {
        var id := if i < 8 then i + 8 else i - 8;
        assert BitOf(id) == i;
        assert id in Named(b) <==> id in Named(b');
      }
    }
  }

  // ---- The layout of the element ----

  /** The element's first octet holds identities 0 to 7, its second 8 to 15; the word has them in network order. */
  function OfOctets(first: Octet, second: Octet): bv16 {
    ((first as bv16) << 8) | (second as bv16)
  }

  predicate OctetHas(o: Octet, mask: Octet) {
    o & mask != 0
  }

  function OctetBits(o: Octet): (b: seq<bool>)
    ensures |b| == 8
  {
    [OctetHas(o, 0x01), OctetHas(o, 0x02), OctetHas(o, 0x04), OctetHas(o, 0x08),
     OctetHas(o, 0x10), OctetHas(o, 0x20), OctetHas(o, 0x40), OctetHas(o, 0x80)]
  }

  /** The bit the code looks at for an identity is the one the standard gives it: bit 1 of an octet is its lowest. */
  lemma LayoutIsStandard(first: Octet, second: Octet, id: nat)
    requires IsSession(id)
    ensures id in Named(OfWord(OfOctets(first, second)))
            <==> if id <= 7 then OctetBits(first)[id] else OctetBits(second)[id - 8]
  {
    LowOctet(first, second);
    HighOctet(first, second);
    assert OfWord(OfOctets(first, second))[BitOf(id)] == (OctetBits(second) + OctetBits(first))[BitOf(id)];
  }

  lemma LowOctet(first: Octet, second: Octet)
    ensures OfWord(OfOctets(first, second))[..8] == OctetBits(second)
  {
    LowBit(first, second, 0x01, 0x0001);
    LowBit(first, second, 0x02, 0x0002);
    LowBit(first, second, 0x04, 0x0004);
    LowBit(first, second, 0x08, 0x0008);
    LowBit(first, second, 0x10, 0x0010);
    LowBit(first, second, 0x20, 0x0020);
    LowBit(first, second, 0x40, 0x0040);
    LowBit(first, second, 0x80, 0x0080);
  }

  lemma HighOctet(first: Octet, second: Octet)
    ensures OfWord(OfOctets(first, second))[8..] == OctetBits(first)
  {
    HighBit(first, second, 0x01, 0x0100);
    HighBit(first, second, 0x02, 0x0200);
    HighBit(first, second, 0x04, 0x0400);
    HighBit(first, second, 0x08, 0x0800);
    HighBit(first, second, 0x10, 0x1000);
    HighBit(first, second, 0x20, 0x2000);
    HighBit(first, second, 0x40, 0x4000);
    HighBit(first, second, 0x80, 0x8000);
  }

  lemma HighBit(first: Octet, second: Octet, m: Octet, mask: bv16)
    requires mask == (m as bv16) << 8
    ensures Has(OfOctets(first, second), mask) <==> OctetHas(first, m)
  {
  }

  lemma LowBit(first: Octet, second: Octet, m: Octet, mask: bv16)
    requires mask == m as bv16
    ensures Has(OfOctets(first, second), mask) <==> OctetHas(second, m)
  {
  }

  /** get_pdu_session_to_be_activated: the named sessions, in bit order, each once. */
  method GetPduSessionToBeActivated(status: Bits) returns (ids: seq<nat>)
    ensures (set id | id in ids) == Named(status)
    ensures forall j, k :: 0 <= j < k < |ids| ==> BitOf(ids[j]) < BitOf(ids[k])
  {
    ids := [];
    for i := 0 to 16
      invariant forall id :: id in ids <==> id in Named(status) && BitOf(id) < i
      invariant forall j, k :: 0 <= j < k < |ids| ==> BitOf(ids[j]) < BitOf(ids[k])
    {
      if status[i] {
        if i <= 7 {
          ids := ids + [8 + i];
        } else if i > 8 {
          ids := ids + [i - 8];
        }
      }
    }
  }
}

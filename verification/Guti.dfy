/**
 The texts that key the index maps: the UE context key, the SUPI and the GUTI
 (utils/amf_conversions.cpp), and the GUTI text that a Deregistration Request
 names (common-src/nas/5gmm-msgs/DeregistrationRequest.cpp).
 */
module Guti {
  import opened Decimals

  /** A 32-bit temporary identity. */
  const TMSI_MODULUS: nat := 0x1_0000_0000

  type Tmsi = t: nat | t < TMSI_MODULUS

  // ---- UE context key and SUPI ----

  const KEY_PREFIX: string := "app_ue_ranid_"
  const KEY_MIDDLE: string := ":amfid_"

  function UeContextKey(ran: nat, amf: nat): string {
    KEY_PREFIX + (Dec(ran) + KEY_MIDDLE + Dec(amf))
  }

  /** A key belongs to one pair of identities only. */
  lemma UeContextKeyInjective(ran: nat, amf: nat, ran': nat, amf': nat)
    requires UeContextKey(ran, amf) == UeContextKey(ran', amf')
    ensures ran == ran' && amf == amf'
  {
    SameRest(KEY_PREFIX, Dec(ran) + KEY_MIDDLE + Dec(amf), Dec(ran') + KEY_MIDDLE + Dec(amf'));
    SameSplit(Dec(ran), KEY_MIDDLE, Dec(amf), Dec(ran'), Dec(amf'));
    DecInjective(ran, ran');
    DecInjective(amf, amf');
  }

  lemma SameRest(prefix: string, s: string, s': string)
    requires prefix + s == prefix + s'
    ensures s == s'
  {
    assert s == (prefix + s)[|prefix|..];
    assert s' == (prefix + s')[|prefix|..];
  }

  /** Text splits in one way at the first character that is not a digit. */
  lemma SameSplit(a: string, middle: string, b: string, a': string, b': string)
    requires a + middle + b == a' + middle + b'
    requires AllDigits(a) && AllDigits(a') && |middle| > 0 && !IsDigit(middle[0])
    ensures a == a' && b == b'
  {
    var s, s' := a + middle + b, a' + middle + b';
    assert s[|a|] == middle[0] && s'[|a'|] == middle[0];
    assert forall k :: 0 <= k < |a| ==> s[k] == a[k] && IsDigit(a[k]);
    assert forall k :: 0 <= k < |a'| ==> s'[k] == a'[k] && IsDigit(a'[k]);
    assert a == s[..|a|] && a' == s'[..|a'|];
    assert b == s[|a| + |middle|..] && b' == s'[|a'| + |middle|..];
  }

  function Supi(imsi: string): string {
    "imsi-" + imsi
  }

  // ---- Hexadecimal fields of fixed width ----

  const HEX: string := "0123456789abcdef"

  /** The digit of the low four bits. */
  function HexDigit(w: bv32): char {
    HEX[(w & 0xf) as nat]
  }

  /** Zero-filled lower-case prints of values of that many hex digits. */
  function Hex2(w: bv32): (s: string)
    ensures |s| == 2
  {
    [HexDigit(w >> 4), HexDigit(w)]
  }

  function Hex4(w: bv32): (s: string)
    ensures |s| == 4
  {
    Hex2(w >> 8) + Hex2(w)
  }

  function Hex6(w: bv32): (s: string)
    ensures |s| == 6
  {
    Hex2(w >> 16) + Hex4(w)
  }

  predicate SameDigit(w: bv32, w': bv32) {
    w & 0xf == w' & 0xf
  }

  lemma SameHexDigit(w: bv32, w': bv32)
    requires SameDigit(w, w')
    ensures HexDigit(w) == HexDigit(w')
  {
  }

  /** AMF region 8 bits, set 10 bits, pointer 6 bits. */
  function AmfId(region: bv8, setId: bv16, pointer: bv8): bv32 {
    0x00ffffff & (((region as bv32) << 16) | (((setId as bv32) & 0x03ff) << 6) | ((pointer as bv32) & 0x3f))
  }

  /** The set and pointer part of a 5G-S-TMSI as N2 decodes it. */
  function SetAndPointer(setId: bv16, pointer: bv8): bv32 {
    (((setId as bv32) & 0x03ff) << 6) | ((pointer as bv32) & 0x3f)
  }

  // ---- TMSI and GUTI ----

  function HexLength(n: nat): (l: nat)
    ensures l >= 1
  {
    if n < 16 then 1 else 1 + HexLength(n / 16)
  }

  function Pow16(k: nat): (p: nat)
    ensures p >= 1
  {
    if k == 0 then 1 else 16 * Pow16(k - 1)
  }

  lemma {:induction false} HexLengthBounds(n: nat, k: nat)
    ensures n < Pow16(k) && k > 0 ==> HexLength(n) <= k
    ensures n >= Pow16(k) ==> HexLength(n) >= k + 1
  {
    if k > 0 && n >= 16 {
      HexLengthBounds(n / 16, k - 1);
    }
  }

  lemma TmsiHexLength(t: Tmsi)
    ensures HexLength(t) <= 8
    ensures t >= 0x1000_0000 ==> HexLength(t) == 8
  {
    assert Pow16(8) == 0x1_0000_0000 && Pow16(7) == 0x1000_0000;
    HexLengthBounds(t, 8);
    HexLengthBounds(t, 7);
  }

  /** tmsi_to_string: padded as if it printed in hexadecimal, then printed in decimal. */
  function TmsiToString(t: Tmsi): string {
    TmsiHexLength(t);
    Zeros(8 - HexLength(t)) + Dec(t)
  }

  /** Whatever the padding, the text reads back as the TMSI in decimal. */
  lemma TmsiValue(t: Tmsi)
    ensures TmsiToString(t) != [] && AllDigits(TmsiToString(t)) && Value(TmsiToString(t)) == t
  {
    TmsiHexLength(t);
    DecRoundTrip(t);
    LeadingZeros(8 - HexLength(t), Dec(t));
  }

  lemma TmsiToStringInjective(t: Tmsi, t': Tmsi)
    requires TmsiToString(t) == TmsiToString(t')
    ensures t == t'
  {
    TmsiValue(t);
    TmsiValue(t');
  }

  datatype AmfIdentity = AmfIdentity(region: bv8, setId: bv16, pointer: bv8) {
    function Text(): (s: string)
      ensures |s| == 6
    {
      Hex6(AmfId(region, setId, pointer))
    }
  }

  /** The GUTI text a Security Mode Complete binds, for a PLMN as mobile country and network code. */
  function Allocated(plmn: string, amf: AmfIdentity, t: Tmsi): string {
    plmn + amf.Text() + TmsiToString(t)
  }

  /** The 5G-S-TMSI text that N2 decodes. */
  function STmsi(amf: AmfIdentity, t: Tmsi): string {
    Hex4(SetAndPointer(amf.setId, amf.pointer)) + TmsiToString(t)
  }

  /** The GUTI text an establishment request with a 5G-S-TMSI is looked up under. */
  function Reattached(plmn: string, region: bv8, sTmsi: string): string {
    plmn + Hex2(region as bv32) + sTmsi
  }

  /**
   The text of an AMF identity in hexadecimal digits: two of the region, two and a
   half of the set, in ten bits, and one and a half of the pointer, in six.
   */
  lemma AmfText(amf: AmfIdentity)
    ensures |amf.Text()| == 6 && amf.Text()[..2] == Hex2(amf.region as bv32)
    ensures IsLowText(amf.Text()[2..], amf.setId as bv32, amf.pointer as bv32)
  {
    AmfTextSplits(amf);
    SetAndPointerDigits(amf.setId, amf.pointer);
    LowText(SetAndPointer(amf.setId, amf.pointer), amf.setId as bv32, amf.pointer as bv32);
  }

  predicate IsLowText(text: string, setId: bv32, pointer: bv32) {
    text == [HexDigit(setId >> 6), HexDigit(setId >> 2),
             HexDigit((setId << 2) | ((pointer >> 4) & 3)), HexDigit(pointer)]
  }

  predicate HasLowDigits(low: bv32, setId: bv32, pointer: bv32) {
    && SameDigit(low >> 8 >> 4, setId >> 6) && SameDigit(low >> 8, setId >> 2)
    && SameDigit(low >> 4, (setId << 2) | ((pointer >> 4) & 3)) && SameDigit(low, pointer)
  }

  lemma LowText(low: bv32, setId: bv32, pointer: bv32)
    requires HasLowDigits(low, setId, pointer)
    ensures IsLowText(Hex4(low), setId, pointer)
  {
    SameHexDigit(low >> 8 >> 4, setId >> 6);
    SameHexDigit(low >> 8, setId >> 2);
    SameHexDigit(low >> 4, (setId << 2) | ((pointer >> 4) & 3));
    SameHexDigit(low, pointer);
  }

  lemma SetAndPointerDigits(setId: bv16, pointer: bv8)
    ensures HasLowDigits(SetAndPointer(setId, pointer), setId as bv32, pointer as bv32)
  {
  }

  /** The text of a TMSI: its decimal print, after as many zeros as its hexadecimal print is short of eight digits. */
  lemma TmsiText(t: Tmsi)
    ensures TmsiToString(t) ==
              (if t < 0x10 then "0000000" else if t < 0x100 then "000000" else if t < 0x1000 then "00000"
               else if t < 0x1_0000 then "0000" else if t < 0x10_0000 then "000"
               else if t < 0x100_0000 then "00" else if t < 0x1000_0000 then "0" else "") + Dec(t)
  {
    TmsiHexLength(t);
    HexDigitCount(t);
    assert Zeros(1) == "0" && Zeros(2) == "00" && Zeros(3) == "000" && Zeros(4) == "0000";
    assert Zeros(5) == "00000" && Zeros(6) == "000000" && Zeros(7) == "0000000" && Zeros(0) == "";
  }

  lemma HexDigitCount(t: Tmsi)
    ensures HexLength(t) == if t < 0x10 then 1 else if t < 0x100 then 2 else if t < 0x1000 then 3
                            else if t < 0x1_0000 then 4 else if t < 0x10_0000 then 5
                            else if t < 0x100_0000 then 6 else if t < 0x1000_0000 then 7 else 8
  {
    assert Pow16(1) == 0x10 && Pow16(2) == 0x100 && Pow16(3) == 0x1000 && Pow16(4) == 0x1_0000;
    assert Pow16(5) == 0x10_0000 && Pow16(6) == 0x100_0000 && Pow16(7) == 0x1000_0000 && Pow16(8) == 0x1_0000_0000;
    forall k: nat | k <= 8
      ensures t < Pow16(k) && k > 0 ==> HexLength(t) <= k
      ensures t >= Pow16(k) ==> HexLength(t) >= k + 1
    {
      HexLengthBounds(t, k);
    }
  }

  /** A GUTI text is the PLMN, the AMF identity and the TMSI, in this order; keys and SUPIs have their prefixes. */
  lemma TextsInOrder(plmn: string, amf: AmfIdentity, t: Tmsi, sTmsi: string, imsi: string, ranId: nat, amfId: nat)
    ensures Allocated(plmn, amf, t) == plmn + amf.Text() + TmsiToString(t)
    ensures var region := amf.region as nat;
            Reattached(plmn, amf.region, sTmsi) == plmn + [HEX[region / 16], HEX[region % 16]] + sTmsi
    ensures Supi(imsi) == "imsi-" + imsi
    ensures UeContextKey(ranId, amfId) == "app_ue_ranid_" + Dec(ranId) + ":amfid_" + Dec(amfId)
  {
    RegionDigits(amf.region);
    assert KEY_PREFIX + (Dec(ranId) + KEY_MIDDLE + Dec(amfId)) == KEY_PREFIX + Dec(ranId) + KEY_MIDDLE + Dec(amfId);
  }

  /** Hexadecimal digits are decimal ones, and the lower-case letters from a on. */
  lemma HexPrint(d: nat)
    requires d < 16
    ensures HEX[d] as int == if d < 10 then '0' as int + d else 'a' as int + d - 10
  {
  }

  /** A UE that comes back with its 5G-S-TMSI on the same PLMN is looked up under the GUTI it was given. */
  lemma ReattachFindsAllocated(plmn: string, amf: AmfIdentity, t: Tmsi)
    ensures Reattached(plmn, amf.region, STmsi(amf, t)) == Allocated(plmn, amf, t)
  {
    AmfTextSplits(amf);
    assert plmn + (Hex2(amf.region as bv32) + Hex4(SetAndPointer(amf.setId, amf.pointer))) + TmsiToString(t)
        == plmn + Hex2(amf.region as bv32) + STmsi(amf, t);
  }

  lemma AmfTextSplits(amf: AmfIdentity)
    ensures amf.Text() == Hex2(amf.region as bv32) + Hex4(SetAndPointer(amf.setId, amf.pointer))
  {
    HighDigitsAgree(amf.region, amf.setId, amf.pointer);
    LowDigitsAgree(amf.region, amf.setId, amf.pointer);
    Hex6Splits(AmfId(amf.region, amf.setId, amf.pointer), amf.region as bv32, SetAndPointer(amf.setId, amf.pointer));
  }

  lemma Hex6Splits(id: bv32, high: bv32, low: bv32)
    requires SameDigit(id >> 16 >> 4, high >> 4) && SameDigit(id >> 16, high)
    requires SameDigit(id >> 8 >> 4, low >> 8 >> 4) && SameDigit(id >> 8, low >> 8)
    requires SameDigit(id >> 4, low >> 4) && SameDigit(id, low)
    ensures Hex6(id) == Hex2(high) + Hex4(low)
  {
    SameHexDigit(id >> 16 >> 4, high >> 4);
    SameHexDigit(id >> 16, high);
    SameHexDigit(id >> 8 >> 4, low >> 8 >> 4);
    SameHexDigit(id >> 8, low >> 8);
    SameHexDigit(id >> 4, low >> 4);
    SameHexDigit(id, low);
  }

  lemma HighDigitsAgree(region: bv8, setId: bv16, pointer: bv8)
    ensures var id := AmfId(region, setId, pointer);
            SameDigit(id >> 16 >> 4, (region as bv32) >> 4) && SameDigit(id >> 16, region as bv32)
  {
  }

  lemma LowDigitsAgree(region: bv8, setId: bv16, pointer: bv8)
    ensures var id, low := AmfId(region, setId, pointer), SetAndPointer(setId, pointer);
            && SameDigit(id >> 8 >> 4, low >> 8 >> 4) && SameDigit(id >> 8, low >> 8)
            && SameDigit(id >> 4, low >> 4) && SameDigit(id, low)
  {
  }

  /** Mobile country and network code: five or six digits. */
  predicate IsPlmn(plmn: string) {
    |plmn| == 5 || |plmn| == 6
  }

  /** One nonzero decimal digit six times over. */
  predicate Repeats(text: string) {
    |text| == 6 && text[0] != '0' && IsDigit(text[0]) && forall k :: 0 < k < 6 ==> text[k] == text[k - 1]
  }

  ghost predicate Unambiguous(amf: AmfIdentity) {
    forall plmn: string, plmn': string, t: Tmsi, t': Tmsi ::
      IsPlmn(plmn) && IsPlmn(plmn') && Allocated(plmn, amf, t) == Allocated(plmn', amf, t') ==> plmn == plmn' && t == t'
  }

  /**
   GUTI texts belong to one PLMN and one TMSI each, unless the AMF's own
   identity is one nonzero decimal digit six times over: then the padding of the TMSI makes the
   texts of a five-digit and a six-digit PLMN meet.
   */
  lemma GutiUnambiguous(amf: AmfIdentity)
    ensures Unambiguous(amf) <==> !Repeats(amf.Text())
  {
    if Repeats(amf.Text()) {
      var t, t' := CollidingTmsis(amf.Text());
      assert IsPlmn("00101") && IsPlmn("00101" + [amf.Text()[0]]);
      assert Allocated("00101", amf, t) == Allocated("00101" + [amf.Text()[0]], amf, t');
    } else {
      forall plmn: string, plmn': string, t: Tmsi, t': Tmsi
        | IsPlmn(plmn) && IsPlmn(plmn') && Allocated(plmn, amf, t) == Allocated(plmn', amf, t')
        ensures plmn == plmn' && t == t'
      {
        AllocatedInjective(plmn, plmn', amf, t, t');
      }
    }
  }

  lemma AllocatedInjective(plmn: string, plmn': string, amf: AmfIdentity, t: Tmsi, t': Tmsi)
    requires IsPlmn(plmn) && IsPlmn(plmn') && !Repeats(amf.Text())
    requires Allocated(plmn, amf, t) == Allocated(plmn', amf, t')
    ensures plmn == plmn' && t == t'
  {
    if |plmn| == |plmn'| {
      SameThreeParts(plmn, amf.Text(), TmsiToString(t), plmn', amf.Text(), TmsiToString(t'));
      TmsiToStringInjective(t, t');
    } else if |plmn| < |plmn'| {
      Shifted(plmn, amf.Text(), t, plmn', t');
    } else {
      Shifted(plmn', amf.Text(), t', plmn, t);
    }
  }

  lemma SameThreeParts(a: string, b: string, c: string, a': string, b': string, c': string)
    requires a + b + c == a' + b' + c' && |a| == |a'| && |b| == |b'|
    ensures a == a' && b == b' && c == c'
  {
    var s, s' := a + b + c, a' + b' + c';
    assert a == s[..|a|] && a' == s'[..|a|];
    assert b == s[|a|..|a| + |b|] && b' == s'[|a|..|a| + |b|];
    assert c == s[|a| + |b|..] && c' == s'[|a| + |b|..];
  }

  /** Texts of PLMNs of different lengths agree only if the middle repeats one digit. */
  lemma Shifted(plmn: string, text: string, t: Tmsi, plmn': string, t': Tmsi)
    requires |plmn| == 5 && |plmn'| == 6 && |text| == 6
    requires plmn + text + TmsiToString(t) == plmn' + text + TmsiToString(t')
    ensures Repeats(text)
  {
    var g, g' := plmn + text + TmsiToString(t), plmn' + text + TmsiToString(t');
    assert forall k :: 0 <= k < 6 ==> g[5 + k] == text[k];
    assert forall k :: 0 <= k < 6 ==> g'[6 + k] == text[k];
    assert forall k :: 0 < k < 6 ==> text[k] == text[k - 1] by {
      forall k | 0 < k < 6 ensures text[k] == text[k - 1] {
        assert g[5 + k] == g'[6 + (k - 1)];
      }
    }
    assert g[11] == g'[6 + 5] == text[5] == text[0];
    assert TmsiToString(t) == g[11..] && TmsiToString(t') == g'[12..];
    assert TmsiToString(t) == [text[0]] + TmsiToString(t');
    OneMoreDigit(text[0], t, t');
  }

  /** One TMSI text can be a digit and another TMSI text, but that digit is not zero. */
  lemma OneMoreDigit(c: char, t: Tmsi, t': Tmsi)
    requires TmsiToString(t) == [c] + TmsiToString(t')
    ensures IsDigit(c) && c != '0'
  {
    TmsiValue(t);
    TmsiValue(t');
    assert TmsiToString(t)[0] == c;
    if c == '0' {
      assert [c] + TmsiToString(t') == Zeros(1) + TmsiToString(t');
      LeadingZeros(1, TmsiToString(t'));
    }
  }

  /** TMSI texts that differ by the leading digit a repeating AMF identity is made of. */
  lemma CollidingTmsis(text: string) returns (t: Tmsi, t': Tmsi)
    requires Repeats(text)
    ensures 1 <= t' < t
    ensures forall plmn: string :: plmn + text + TmsiToString(t) == plmn + [text[0]] + text + TmsiToString(t')
  {
    var d := DigitValue(text[0]);
    if d <= 4 {
      t, t' := d * 1000000000 + 10, 10;
      LongTmsi(d);
    } else {
      t, t' := d * 100000000 + 1, 1;
      ShortTmsi(d);
    }
    assert DIGITS[d] == text[0];
    forall plmn: string ensures plmn + text + TmsiToString(t) == plmn + [text[0]] + text + TmsiToString(t') {
      assert text[1] == text[0] && text[2] == text[1] && text[3] == text[2] && text[4] == text[3] && text[5] == text[4];
      assert text + [text[0]] == [text[0]] + text;
      assert plmn + text + ([text[0]] + TmsiToString(t')) == plmn + (text + [text[0]]) + TmsiToString(t');
      assert plmn + ([text[0]] + text) + TmsiToString(t') == plmn + [text[0]] + text + TmsiToString(t');
    }
  }

  lemma LongTmsi(d: nat)
    requires 1 <= d <= 4
    ensures TmsiToString(d * 1000000000 + 10) == [DIGITS[d]] + TmsiToString(10)
  {
    ShiftedValues(d);
    UnpaddedSum(d, 10, 9);
    SmallPads();
  }

  lemma ShortTmsi(d: nat)
    requires 5 <= d <= 9
    ensures TmsiToString(d * 100000000 + 1) == [DIGITS[d]] + TmsiToString(1)
  {
    ShiftedValues(d);
    UnpaddedSum(d, 1, 8);
    SmallPads();
  }

  lemma UnpaddedSum(d: nat, m: nat, k: nat)
    requires 1 <= d <= 9 && m < TimesPow10(1, k) && 0x1000_0000 <= TimesPow10(d, k) + m < 0x1_0000_0000
    ensures TmsiToString(TimesPow10(d, k) + m) == [DIGITS[d]] + Pad(m, k)
  {
    var t: Tmsi := TimesPow10(d, k) + m;
    assert TmsiToString(t) == Dec(t) by { EightHexDigits(t); }
    assert Dec(t) == [DIGITS[d]] + Pad(m, k) by { DecOfSum(d, m, k); }
  }

  lemma ShiftedValues(d: nat)
    ensures TimesPow10(d, 8) == d * 100000000 && TimesPow10(d, 9) == d * 1000000000
    ensures TimesPow10(1, 8) == 100000000 && TimesPow10(1, 9) == 1000000000
  {
    Shifted8(d);
    Shifted8(1);
  }

  lemma TenTimes(d: nat, k: nat)
    ensures TimesPow10(d, 0) == d && TimesPow10(d, k + 1) == 10 * TimesPow10(d, k)
  {
  }

  lemma Shifted8(d: nat)
    ensures TimesPow10(d, 8) == d * 100000000
  {
    TenTimes(d, 0);
    TenTimes(d, 1);
    TenTimes(d, 2);
    TenTimes(d, 3);
    TenTimes(d, 4);
    TenTimes(d, 5);
    TenTimes(d, 6);
    TenTimes(d, 7);
  }

  lemma SmallPads()
    ensures Pad(1, 8) == TmsiToString(1) && Pad(10, 9) == TmsiToString(10)
  {
    PadZero(7);
    assert Pad(10, 9) == Pad(1, 8) + "0";
    assert Zeros(7) + "1" + "0" == Zeros(7) + "10";
    assert Dec(10) == "10" && Dec(1) == "1";
  }

  /** A number this large has eight hexadecimal digits, so its text is not padded. */
  lemma EightHexDigits(t: Tmsi)
    requires t >= 0x1000_0000
    ensures TmsiToString(t) == Dec(t)
  {
    TmsiHexLength(t);
  }

  /** n followed by k decimal zeros. */
  function TimesPow10(n: nat, k: nat): (p: nat)
    ensures p >= n
  {
    if k == 0 then n else 10 * TimesPow10(n, k - 1)
  }

  /** The last k decimal digits, zeros included. */
  function Pad(m: nat, k: nat): string {
    if k == 0 then "" else Pad(m / 10, k - 1) + [DIGITS[m % 10]]
  }

  lemma {:induction false} DecOfSum(d: nat, m: nat, k: nat)
    requires 1 <= d <= 9 && m < TimesPow10(1, k)
    ensures Dec(TimesPow10(d, k) + m) == [DIGITS[d]] + Pad(m, k)
  {
    if k > 0 {
      var n := TimesPow10(d, k) + m;
      DecOfSum(d, m / 10, k - 1);
      DecStep(n);
      assert n / 10 == TimesPow10(d, k - 1) + m / 10 && n % 10 == m % 10;
      assert [DIGITS[d]] + Pad(m / 10, k - 1) + [DIGITS[m % 10]] == [DIGITS[d]] + (Pad(m / 10, k - 1) + [DIGITS[m % 10]]);
    }
  }

  lemma DecStep(n: nat)
    requires n >= 10
    ensures Dec(n) == Dec(n / 10) + [DIGITS[n % 10]]
  {
  }

  lemma {:induction false} PadZero(k: nat)
    ensures Pad(0, k) == Zeros(k)
  {
    if k > 0 {
      PadZero(k - 1);
      assert Zeros(k) == Zeros(k - 1) + "0";
    }
  }

  /** Such an AMF identity is 0x111111: two UEs then share a GUTI text. */
  lemma AllocatedCollides()
    ensures var amf := AmfIdentity(0x11, 68, 17);
            Allocated("00101", amf, 1000000010) == Allocated("001011", amf, 10)
  {
    CollidingAmfId();
    LongTmsi(1);
    assert "00101" + "111111" + ([DIGITS[1]] + TmsiToString(10)) == "001011" + "111111" + TmsiToString(10);
  }

  lemma CollidingAmfId()
    ensures AmfIdentity(0x11, 68, 17).Text() == "111111"
  {
    assert AmfId(0x11, 68, 17) == 0x111111;
    OnesInHex();
    assert HexDigit(1) == '1';
    SameHexDigit(0x111111 >> 16 >> 4, 1);
    SameHexDigit(0x111111 >> 16, 1);
    SameHexDigit(0x111111 >> 8 >> 4, 1);
    SameHexDigit(0x111111 >> 8, 1);
    SameHexDigit(0x111111 >> 4, 1);
    SameHexDigit(0x111111, 1);
  }

  lemma OnesInHex()
    ensures var w: bv32 := 0x111111;
            && SameDigit(w >> 16 >> 4, 1) && SameDigit(w >> 16, 1) && SameDigit(w >> 8 >> 4, 1)
            && SameDigit(w >> 8, 1) && SameDigit(w >> 4, 1) && SameDigit(w, 1)
  {
  }

  // ---- The GUTI a Deregistration Request names ----

  /** Region, set and pointer in decimal. */
  function Named(plmn: string, amf: AmfIdentity, t: Tmsi): string {
    plmn + Dec(amf.region as nat) + Dec(amf.setId as nat) + Dec(amf.pointer as nat) + TmsiToString(t)
  }

  /**
   A UE that deregisters with the GUTI it was given names a text that no AMF
   identity ever stores it under, so the entry stays.
   */
  lemma NamedIsNotAllocated(plmn: string, amf: AmfIdentity, t: Tmsi)
    ensures Named(plmn, amf, t) != Allocated(plmn, amf, t)
  {
    DecimalIsNotText(amf);
    NotInside(plmn, Dec(amf.region as nat), Dec(amf.setId as nat), Dec(amf.pointer as nat), amf.Text(), TmsiToString(t));
  }

  lemma NotInside(plmn: string, a: string, b: string, c: string, x: string, t: string)
    requires a + b + c != x
    ensures plmn + a + b + c + t != plmn + x + t
  {
    if plmn + a + b + c + t == plmn + x + t {
      assert plmn + a + b + c + t == plmn + (a + b + c) + t;
      SameInner(plmn, a + b + c, x, t);
    }
  }

  lemma DecimalIsNotText(amf: AmfIdentity)
    ensures Dec(amf.region as nat) + Dec(amf.setId as nat) + Dec(amf.pointer as nat) != amf.Text()
  {
    AmfTextSplits(amf);
    RegionDigits(amf.region);
    DecimalIsNotHex(amf.region as nat, amf.setId as nat, amf.pointer as nat, Hex4(SetAndPointer(amf.setId, amf.pointer)));
  }

  lemma SameInner(prefix: string, s: string, s': string, suffix: string)
    requires prefix + s + suffix == prefix + s' + suffix
    ensures s == s'
  {
    assert |s| == |s'|;
    assert s == (prefix + s + suffix)[|prefix|..|prefix| + |s|];
    assert s' == (prefix + s' + suffix)[|prefix|..|prefix| + |s|];
  }

  lemma DecimalIsNotHex(region: nat, setId: nat, pointer: nat, low: string)
    requires region < 256 && pointer < 256 && |low| == 4
    ensures Dec(region) + Dec(setId) + Dec(pointer) != [HEX[region / 16], HEX[region % 16]] + low
  {
    if region < 10 {
      FirstDigits(region);
      FirstDigits(setId);
      FirstDigits(pointer);
      if Dec(region) + Dec(setId) + Dec(pointer) == [HEX[region / 16], HEX[region % 16]] + low {
        OneDigitRegion(region, Dec(setId), Dec(pointer), low);
      }
    } else {
      TwoDigitsDiffer(region);
      FirstTwo(Dec(region), Dec(setId) + Dec(pointer));
      assert Dec(region) + (Dec(setId) + Dec(pointer)) == Dec(region) + Dec(setId) + Dec(pointer);
    }
  }

  lemma FirstTwo(s: string, rest: string)
    requires |s| >= 2
    ensures (s + rest)[..2] == s[..2]
  {
  }

  lemma TwoDigitsDiffer(region: nat)
    requires 10 <= region < 256
    ensures |Dec(region)| >= 2 && Dec(region)[..2] != [HEX[region / 16], HEX[region % 16]]
  {
    FirstDigits(region);
    QuotientsDiffer(region);
    var d := Dec(region)[..2];
    if region < 100 {
      HexInjective(region / 10, region / 16);
      HexInjective(region % 10, region % 16);
      assert d[0] == HEX[region / 10] && d[1] == HEX[region % 10];
    } else {
      HexInjective(region / 100, region / 16);
      assert d[0] == HEX[region / 100];
    }
  }

  lemma QuotientsDiffer(region: nat)
    ensures 10 <= region < 100 ==> region / 10 != region / 16 || region % 10 != region % 16
    ensures 100 <= region < 256 ==> region / 100 < region / 16
  {
  }

  /** With one region digit, the texts can only agree if set and region are zero, and then the lengths differ. */
  lemma OneDigitRegion(region: nat, setText: string, pointerText: string, low: string)
    requires region < 10 && |low| == 4 && |setText| > 0
    requires [HEX[region]] + setText + pointerText == [HEX[region / 16], HEX[region % 16]] + low
    ensures region == 0 && setText[0] == '0' && |setText| + |pointerText| == 5
  {
    HexInjective(region, 0);
    var d := [HEX[region]] + setText + pointerText;
    assert d[0] == HEX[region] && d[1] == setText[0];
  }

  lemma HexInjective(i: nat, j: nat)
    requires i < 16 && j < 16
    ensures HEX[i] == HEX[j] <==> i == j
  {
  }

  lemma RegionDigits(region: bv8)
    ensures Hex2(region as bv32) == [HEX[region as nat / 16], HEX[region as nat % 16]]
  {
    assert (((region as bv32) >> 4) & 0xf) as nat == region as nat / 16;
    assert ((region as bv32) & 0xf) as nat == region as nat % 16;
  }

  /** The first digit of a decimal print is zero for zero only; small numbers have few digits. */
  lemma {:induction false} FirstDigits(n: nat)
    ensures Dec(n)[0] == '0' ==> n == 0
    ensures n < 10 ==> Dec(n) == [HEX[n]]
    ensures 10 <= n < 100 ==> Dec(n) == [HEX[n / 10], HEX[n % 10]]
    ensures 100 <= n < 1000 ==> Dec(n) == [HEX[n / 100], HEX[n / 10 % 10], HEX[n % 10]]
  {
    SameDigits(n % 10);
    if n >= 10 {
      FirstDigits(n / 10);
      assert Dec(n) == Dec(n / 10) + [HEX[n % 10]] by { DecStep(n); }
      HundredIsTen(n);
    }
  }

  lemma SameDigits(d: nat)
    requires d < 10
    ensures DIGITS[d] == HEX[d] && (HEX[d] == '0' <==> d == 0)
  {
  }

  lemma HundredIsTen(n: nat)
    ensures n / 10 / 10 == n / 100
  {
  }
}

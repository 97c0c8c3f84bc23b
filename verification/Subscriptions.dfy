/**
 The subscriptions of other network functions to N1N2 messages of a UE and to
 N2 information (amf_app.cpp): two tables fed by one identifier generator, and
 identifiers that leave as text and come back as text.
 */
module Subscriptions {
  import opened Wrappers
  import opened Decimals
  import UintGenerator

  const OK: nat := 204
  const BAD_REQUEST: nat := 400

  const ID_MODULUS: nat := 0x1_0000_0000

  // ---- Reading an identifier ----

  predicate IsSpace(c: char) {
    c == ' ' || '\t' <= c <= '\r'
  }

  function SkipSpaces(s: string): string {
    if s != [] && IsSpace(s[0]) then SkipSpaces(s[1..]) else s
  }

  function LeadingDigits(s: string): (d: string)
    ensures AllDigits(d) && |d| <= |s| && d == s[..|d|]
    ensures |d| < |s| ==> !IsDigit(s[|d|])
  {
    if s != [] && IsDigit(s[0]) then
      var d := LeadingDigits(s[1..]);
      assert s == [s[0]] + s[1..];
      [s[0]] + d
    else ""
  }

  function Unsigned(t: string): string {
    if t != [] && (t[0] == '-' || t[0] == '+') then t[1..] else t
  }

  function Signed(isNegative: bool, n: nat): int {
    if isNegative then 0 - n else n
  }

  function InRange(v: int): Option<int> {
    if -0x8000_0000 <= v < 0x8000_0000 then Some(v) else None
  }

  /** `std::stoi`: space, sign, digits, and whatever follows; None where it throws. */
  function Stoi(s: string): Option<int> {
    var t := SkipSpaces(s);
    var d := LeadingDigits(Unsigned(t));
    if d == "" then None else InRange(Signed(t != [] && t[0] == '-', Value(d)))
  }

  /** The 32-bit identifier a text stands for. */
  function ParseId(s: string): Option<nat> {
    if Stoi(s).None? then None else Some(Stoi(s).value % ID_MODULUS)
  }

  lemma DigitsLead(s: string)
    requires AllDigits(s)
    ensures LeadingDigits(s) == s
  {
    assert forall k :: 0 <= k < |s| ==> IsDigit(s[k]);
  }

  lemma StoiOfDigits(d: string)
    requires AllDigits(d) && d != ""
    ensures Stoi(d) == InRange(Value(d))
  {
    assert IsDigit(d[0]);
    assert SkipSpaces(d) == d && Unsigned(d) == d;
    assert LeadingDigits(d) == d by { DigitsLead(d); }
  }

  lemma StoiOfNegative(s: string, d: string)
    requires AllDigits(d) && d != "" && s != "" && s[0] == '-' && s[1..] == d
    ensures Stoi(s) == InRange(0 - Value(d))
  {
    assert SkipSpaces(s) == s;
    assert LeadingDigits(d) == d by { DigitsLead(d); }
  }

  /**
   What `std::stoi` reads, whatever is around it: white space, then a sign or none,
   then digits, then anything that does not begin with a digit.
   */
  lemma StoiReads(space: string, sign: string, digits: string, rest: string)
    requires forall c :: c in space ==> c in " \t\n\r" || c == '\U{000B}' || c == '\U{000C}'
    requires sign in ["", "+", "-"] && AllDigits(digits) && digits != "" && (rest == "" || !IsDigit(rest[0]))
    ensures var v := if sign == "-" then 0 - Value(digits) else Value(digits);
            Stoi(space + sign + digits + rest) == if -0x8000_0000 <= v <= 0x7FFF_FFFF then Some(v) else None
  {
    var text := sign + digits + rest;
    assert space + sign + digits + rest == space + text;
    SignOrDigitLeads(sign, digits, rest);
    SpacesSkipped(space, text);
    SpacesSkipped("", text);
    StoiSigned(sign, digits, rest);
  }

  lemma SignOrDigitLeads(sign: string, digits: string, rest: string)
    requires sign in ["", "+", "-"] && AllDigits(digits) && digits != ""
    ensures var text := sign + digits + rest;
            text != "" && !IsSpace(text[0]) && Unsigned(text) == digits + rest && (text[0] == '-' <==> sign == "-")
  {
    if sign == "" {
      assert sign + digits + rest == digits + rest;
      assert IsDigit((digits + rest)[0]);
    }
  }

  lemma StoiSigned(sign: string, digits: string, rest: string)
    requires sign in ["", "+", "-"] && AllDigits(digits) && digits != "" && (rest == "" || !IsDigit(rest[0]))
    ensures Stoi(sign + digits + rest) == InRange(Signed(sign == "-", Value(digits)))
  {
    SignOrDigitLeads(sign, digits, rest);
    DigitsLeadText(digits, rest);
  }

  lemma {:induction false} SpacesSkipped(space: string, text: string)
    requires (forall c :: c in space ==> IsSpace(c)) && (text == "" || !IsSpace(text[0]))
    ensures SkipSpaces(space + text) == text
  {
    if space == "" {
      assert space + text == text;
    } else {
      assert (space + text)[1..] == space[1..] + text;
      SpacesSkipped(space[1..], text);
    }
  }

  lemma {:induction false} DigitsLeadText(digits: string, rest: string)
    requires AllDigits(digits) && (rest == "" || !IsDigit(rest[0]))
    ensures LeadingDigits(digits + rest) == digits
  {
    if digits == "" {
      assert digits + rest == rest;
    } else {
      assert (digits + rest)[1..] == digits[1..] + rest;
      DigitsLeadText(digits[1..], rest);
    }
  }

  /** A number in range reads as itself, whatever its text. */
  lemma ReadsAs(s: string, v: int)
    requires Stoi(s) == InRange(v)
    ensures ParseId(s) == if 0 <= v < 0x8000_0000 then Some(v)
                          else if -0x8000_0000 <= v < 0 then Some(v + ID_MODULUS) else None
  {
  }

  /** An identifier's own text reads back as the identifier exactly if it is below 2^31; above, reading it throws. */
  lemma OwnText(id: nat)
    ensures ParseId(Dec(id)) == if id < 0x8000_0000 then Some(id) else None
  {
    DecRoundTrip(id);
    StoiOfDigits(Dec(id));
    ReadsAs(Dec(id), id);
  }

  /** The identifiers from 2^31 on can still be named: by the text of the negative number they wrap around from. */
  lemma WrappedText(id: nat)
    requires 0x8000_0000 <= id < ID_MODULUS
    ensures ParseId("-" + Dec(ID_MODULUS - id)) == Some(id)
  {
    var d := Dec(ID_MODULUS - id);
    DecRoundTrip(ID_MODULUS - id);
    StoiOfNegative("-" + d, d);
    ReadsAs("-" + d, id - ID_MODULUS);
  }

  // ---- The tables ----

  /** The tables as values: N1N2 subscriptions by UE context and identifier, N2 information by identifier. */
  datatype Tables<D, E> = Tables(n1n2: map<(string, nat), D>, nonUe: map<nat, E>, generated: set<nat>)

  /** Identifiers in use came from the generator, and none is in use twice. */
  ghost predicate Sound<D, E>(t: Tables<D, E>) {
    && (forall k :: k in t.n1n2 ==> k.1 in t.generated && k.1 !in t.nonUe)
    && (forall id :: id in t.nonUe ==> id in t.generated)
    && (forall k, k' :: k in t.n1n2 && k' in t.n1n2 && k.1 == k'.1 ==> k == k')
  }

  function Unsubscribed<D, E>(t: Tables<D, E>, ueContext: string, subscription: string): (Tables<D, E>, nat) {
    var id := ParseId(subscription);
    if id.Some? && (ueContext, id.value) in t.n1n2 then (t.(n1n2 := t.n1n2 - {(ueContext, id.value)}), OK)
    else (t, BAD_REQUEST)
  }

  function NonUeUnsubscribed<D, E>(t: Tables<D, E>, subscription: string): (Tables<D, E>, nat) {
    var id := ParseId(subscription);
    if id.Some? && id.value in t.nonUe then (t.(nonUe := t.nonUe - {id.value}), OK)
    else (t, BAD_REQUEST)
  }

  function Subscribed<D, E>(t: Tables<D, E>, ueContext: string, id: nat, data: D): Tables<D, E> {
    t.(n1n2 := t.n1n2[(ueContext, id) := data], generated := t.generated + {id})
  }

  function NonUeSubscribed<D, E>(t: Tables<D, E>, id: nat, data: E): Tables<D, E> {
    t.(nonUe := t.nonUe[id := data], generated := t.generated + {id})
  }

  /**
   Subscribing and unsubscribing with the returned text leaves the table as it
   was, with answer 204, and a repeat answers 400 and changes nothing: all of it
   exactly if the identifier is below 2^31.
   */
  lemma SubscriptionRoundTrip<D, E>(t: Tables<D, E>, ueContext: string, id: nat, data: D)
    requires Sound(t) && id !in t.generated
    ensures var t1 := Subscribed(t, ueContext, id, data);
            var (t2, code) := Unsubscribed(t1, ueContext, Dec(id));
            && (t2.n1n2 == t.n1n2 && code == 204 <==> id < 0x8000_0000)
            && (id >= 0x8000_0000 ==> t2 == t1 && code == 400)
            && t2.nonUe == t.nonUe
            && Unsubscribed(t2, ueContext, Dec(id)) == (t2, 400)
  {
    OwnText(id);
    assert (ueContext, id) !in t.n1n2;
    assert t.n1n2[(ueContext, id) := data] - {(ueContext, id)} == t.n1n2;
  }

  lemma NonUeRoundTrip<D, E>(t: Tables<D, E>, id: nat, data: E)
    requires Sound(t) && id !in t.generated
    ensures var t1 := NonUeSubscribed(t, id, data);
            var (t2, code) := NonUeUnsubscribed(t1, Dec(id));
            && (t2.nonUe == t.nonUe && code == 204 <==> id < 0x8000_0000)
            && (id >= 0x8000_0000 ==> t2 == t1 && code == 400)
            && t2.n1n2 == t.n1n2
            && NonUeUnsubscribed(t2, Dec(id)) == (t2, 400)
  {
    OwnText(id);
    assert id !in t.nonUe;
    assert t.nonUe[id := data] - {id} == t.nonUe;
  }

  /** Unsubscribing takes away at most one entry, never from the other table, and gives no identifier back. */
  lemma UnsubscribeIsLocal<D, E>(t: Tables<D, E>, ueContext: string, subscription: string)
    requires Sound(t)
    ensures var (t1, code) := Unsubscribed(t, ueContext, subscription);
            && Sound(t1) && t1.nonUe == t.nonUe && t1.generated == t.generated
            && (forall k :: k in t.n1n2 && k !in t1.n1n2 ==> k.0 == ueContext && ParseId(subscription) == Some(k.1))
            && (forall k :: k in t1.n1n2 ==> k in t.n1n2 && t1.n1n2[k] == t.n1n2[k])
    ensures var (t2, code) := NonUeUnsubscribed(t, subscription);
            && Sound(t2) && t2.n1n2 == t.n1n2 && t2.generated == t.generated
            && (forall id :: id in t.nonUe && id !in t2.nonUe ==> ParseId(subscription) == Some(id))
  {
  }

  /** A new identifier keeps the tables apart, in the one table and in the other. */
  lemma SubscribedSound<D, E>(t: Tables<D, E>, ueContext: string, id: nat, data: D)
    requires Sound(t) && id !in t.generated
    ensures Sound(Subscribed(t, ueContext, id, data)) && (ueContext, id) !in t.n1n2
  {
  }

  lemma NonUeSubscribedSound<D, E>(t: Tables<D, E>, id: nat, data: E)
    requires Sound(t) && id !in t.generated
    ensures Sound(NonUeSubscribed(t, id, data)) && id !in t.nonUe
  {
  }

  class SubscriptionTables<D, E> {
    const generator: UintGenerator.Generator
    var n1n2: map<(string, nat), D>
    var nonUe: map<nat, E>

    ghost predicate Valid()
      reads this, generator
    {
      generator.Valid() && generator.modulus == ID_MODULUS && Sound(View())
    }

    function View(): Tables<D, E>
      reads this, generator
    {
      Tables(n1n2, nonUe, generator.generated)
    }

    constructor ()
      ensures Valid() && fresh(generator) && View() == Tables(map[], map[], {})
    {
      generator := new UintGenerator.Generator(ID_MODULUS);
      n1n2, nonUe := map[], map[];
    }

    method N1N2MessageSubscribe(ueContext: string, data: D) returns (subscription: string, ghost id: nat)
      requires Valid() && |generator.generated| < generator.modulus
      modifies this`n1n2, generator
      ensures Valid() && id !in old(generator.generated) && id < ID_MODULUS
      ensures subscription == Dec(id) && View() == Subscribed(old(View()), ueContext, id, data)
    {
      var uid := generator.GetUid();
      SubscribedSound(old(View()), ueContext, uid, data);
      if (ueContext, uid) !in n1n2 {
        n1n2 := n1n2[(ueContext, uid) := data];
      }
      id := uid;
      subscription := Dec(uid);
    }

    method N1N2MessageUnsubscribe(ueContext: string, subscription: string) returns (code: nat)
      requires Valid()
      modifies this`n1n2
      ensures Valid() && (View(), code) == Unsubscribed(old(View()), ueContext, subscription)
    {
      UnsubscribeIsLocal(View(), ueContext, subscription);
      var id := ParseId(subscription);
      if id.None? {
        return BAD_REQUEST;
      }
      if (ueContext, id.value) in n1n2 {
        n1n2 := n1n2 - {(ueContext, id.value)};
        return OK;
      }
      return BAD_REQUEST;
    }

    method NonUeN2InfoSubscribe(data: E) returns (subscription: string, ghost id: nat)
      requires Valid() && |generator.generated| < generator.modulus
      modifies this`nonUe, generator
      ensures Valid() && id !in old(generator.generated) && id < ID_MODULUS
      ensures subscription == Dec(id) && View() == NonUeSubscribed(old(View()), id, data)
    {
      var uid := generator.GetUid();
      NonUeSubscribedSound(old(View()), uid, data);
      if uid !in nonUe {
        nonUe := nonUe[uid := data];
      }
      id := uid;
      subscription := Dec(uid);
    }

    method NonUeN2InfoUnsubscribe(subscription: string) returns (code: nat)
      requires Valid()
      modifies this`nonUe
      ensures Valid() && (View(), code) == NonUeUnsubscribed(old(View()), subscription)
    {
      UnsubscribeIsLocal(View(), "", subscription);
      var id := ParseId(subscription);
      if id.None? {
        return BAD_REQUEST;
      }
      if id.value in nonUe {
        nonUe := nonUe - {id.value};
        return OK;
      }
      return BAD_REQUEST;
    }
  }
}

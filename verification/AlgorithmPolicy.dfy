/**
 From the configured algorithm lists to the algorithms of a security context:
 amf_config_yaml.cpp (from_yaml, get_supported_*_algorithms, to_amf_config) and
 amf_n1.cpp (security_select_algorithms).
 */
module AlgorithmPolicy {
  import opened Wrappers
  import opened Octets

  /** What the configuration file holds under an algorithm list's key. */
  datatype YamlNode = Scalar | Sequence(items: seq<string>)

  /** One of the eight values of `_5g_ia_e` and `_5g_ea_e`. */
  type AlgId = a: nat | a < 8

  /** "NIA" or "NEA". */
  type Family = f: string | f == "NIA" || f == "NEA" witness "NIA"

  function Name(family: Family, algorithm: AlgId): (s: string)
    ensures |s| == 4 && s[..3] == family
  {
    family + [['0', '1', '2', '3', '4', '5', '6', '7'][algorithm]]
  }

  function Defaults(family: Family): seq<string> {
    [Name(family, 0), Name(family, 1), Name(family, 2)]
  }

  /** The validation pattern ^NIA[0-7]$ or ^NEA[0-7]$. */
  predicate Validates(family: Family, s: string) {
    |s| == 4 && s[..3] == family && '0' <= s[3] <= '7'
  }

  lemma ValidatesIffNamed(family: Family, s: string)
    ensures Validates(family, s) <==> exists a: AlgId :: s == Name(family, a)
  {
    if Validates(family, s) {
      var a := s[3] as nat - '0' as nat;
      assert s == s[..3] + [s[3]];
      assert s == Name(family, a);
    }
  }

  /** The list a configuration names: its items, or the defaults when it names none. */
  function Configured(family: Family, node: Option<YamlNode>): seq<string> {
    if node.Some? && node.value.Sequence? && node.value.items != [] then node.value.items else Defaults(family)
  }

  class SupportedAlgorithms {
    const family: Family
    var list: seq<string>

    constructor (family: Family)
      ensures this.family == family && list == []
    {
      this.family := family;
      list := [];
    }

    method FromYaml(node: YamlNode)
      modifies this
      ensures list == old(list) + Configured(family, Some(node))
    {
      var noItemAvailable := false;
      if !node.Sequence? {
        noItemAvailable := true;
      } else {
        for i := 0 to |node.items|
          invariant list == old(list) + node.items[..i]
          invariant noItemAvailable == false
        {
          list := list + [node.items[i]];
        }
        if |node.items| == 0 {
          noItemAvailable := true;
        }
      }
      if noItemAvailable {
        list := list + [Name(family, 0)];
        list := list + [Name(family, 1)];
        list := list + [Name(family, 2)];
      }
    }

    /** False where the source throws on an item that misses the pattern. */
    method Validate() returns (ok: bool)
      ensures ok <==> forall s :: s in list ==> Validates(family, s)
    {
      for i := 0 to |list|
        invariant forall k :: 0 <= k < i ==> Validates(family, list[k])
      {
        if !Validates(family, list[i]) {
          return false;
        }
      }
      ok := true;
    }

    method GetSupported() returns (names: seq<string>)
      ensures names == if list == [] then Defaults(family) else list
    {
      names := [];
      for i := 0 to |list|
        invariant names == list[..i]
      {
        names := names + [list[i]];
      }
      if |names| == 0 {
        names := Defaults(family);
      }
    }
  }

  /** The algorithm numbers that a list of names stands for; other names stand for nothing. */
  function Numbers(family: Family, names: seq<string>): seq<AlgId> {
    if names == [] then []
    else
      var last := names[|names| - 1];
      Numbers(family, names[..|names| - 1]) +
      (if Validates(family, last) then [last[3] as nat - '0' as nat] else [])
  }

  lemma {:induction false} NumbersKeepOrder(family: Family, names: seq<string>)
    requires forall s :: s in names ==> Validates(family, s)
    ensures |Numbers(family, names)| == |names|
    ensures forall k :: 0 <= k < |names| ==> names[k] == Name(family, Numbers(family, names)[k])
  {
    if names != [] {
      var init := names[..|names| - 1];
      NumbersKeepOrder(family, init);
      var last := names[|names| - 1];
      assert last in names && Validates(family, last);
      assert last == last[..3] + [last[3]];
    }
  }

  /** The number of a name, once the comparisons have come past it. */
  function NumbersBelow(family: Family, s: string, a: nat): seq<AlgId> {
    if Validates(family, s) && s[3] as nat - '0' as nat < a then [s[3] as nat - '0' as nat] else []
  }

  /** to_amf_config for one family: a comparison with each of the eight names per item. */
  method ToPreference(family: Family, names: seq<string>) returns (preference: seq<AlgId>)
    ensures preference == if names == [] then [0, 1, 2] else Numbers(family, names)
  {
    preference := [];
    for i := 0 to |names|
      invariant preference == Numbers(family, names[..i])
    {
      ghost var before := preference;
      var s := names[i];
      for a := 0 to 8
        invariant preference == before + NumbersBelow(family, s, a)
      {
        NameIsOwn(family, s, a);
        if s == Name(family, a) {
          preference := preference + [a];
        }
      }
      assert names[..i + 1][..i] == names[..i];
    }
    assert names[..|names|] == names;
    if |names| == 0 {
      preference := [0, 1, 2];
    }
  }

  lemma NameIsOwn(family: Family, s: string, a: AlgId)
    ensures s == Name(family, a) <==> Validates(family, s) && s[3] as nat - '0' as nat == a
  {
    if Validates(family, s) {
      assert s == s[..3] + [s[3]];
    }
  }

  /** The preference list of a configuration, from the file to the running AMF. */
  function Preference(family: Family, node: Option<YamlNode>): seq<AlgId> {
    Numbers(family, Configured(family, node))
  }

  /** The whole path of one family; the result is None where validation throws. */
  method LoadPreference(family: Family, node: Option<YamlNode>) returns (preference: Option<seq<AlgId>>)
    ensures preference == if forall s :: s in Configured(family, node) ==> Validates(family, s)
                          then Some(Preference(family, node)) else None
  {
    var supported := new SupportedAlgorithms(family);
    if node.Some? {
      supported.FromYaml(node.value);
    }
    var ok := supported.Validate();
    DefaultsValidate(family);
    assert supported.list == if node.Some? then Configured(family, node) else [];
    if !ok {
      return None;
    }
    var names := supported.GetSupported();
    var numbers := ToPreference(family, names);
    preference := Some(numbers);
  }

  lemma DefaultsValidate(family: Family)
    ensures forall s :: s in Defaults(family) ==> Validates(family, s)
  {
    ValidatesIffNamed(family, Name(family, 0));
    ValidatesIffNamed(family, Name(family, 1));
    ValidatesIffNamed(family, Name(family, 2));
  }

  /**
   A validated configuration keeps its order and its length; without a usable
   list the preference is 0, 1, 2, each once.
   */
  lemma PreferenceMeaning(family: Family, node: Option<YamlNode>)
    requires forall s :: s in Configured(family, node) ==> Validates(family, s)
    ensures |Preference(family, node)| == |Configured(family, node)| > 0
    ensures forall k :: 0 <= k < |Preference(family, node)| ==>
      Configured(family, node)[k] == Name(family, Preference(family, node)[k])
    ensures node.None? || node.value.Scalar? || node.value.items == [] ==> Preference(family, node) == [0, 1, 2]
    ensures node.Some? && node.value.Sequence? && node.value.items != [] ==>
              |Preference(family, node)| == |node.value.items| &&
              forall k :: 0 <= k < |node.value.items| ==>
                node.value.items[k] == Name(family, Preference(family, node)[k])
  {
    NumbersKeepOrder(family, Configured(family, node));
    var p := Preference(family, node);
    if Configured(family, node) == Defaults(family) {
      forall k | 0 <= k < 3 ensures p[k] == k {
        NameIsOwn(family, Name(family, k), k);
        NameIsOwn(family, Name(family, k), p[k]);
      }
      assert p == [0, 1, 2];
    }
  }

  // ---- Selection ----

  /** Bit 8 of the capability octet is algorithm 0, bit 1 is algorithm 7. */
  predicate Supports(capability: Octet, algorithm: AlgId) {
    capability & (0x80 >> algorithm) != 0
  }

  /** The weights of the capability bits: TS 24.501, section 9.11.3.54, has algorithm 0 in the highest bit. */
  const WEIGHTS: seq<nat> := [128, 64, 32, 16, 8, 4, 2, 1]

  /** The UE's capability, read as a number, has the bit of the algorithm. */
  predicate IsCapable(capability: Octet, algorithm: AlgId) {
    capability as nat / WEIGHTS[algorithm] % 2 == 1
  }

  /** The bit looked at for an algorithm is the one the standard gives it. */
  lemma CapabilityLayout(capability: Octet, algorithm: AlgId)
    ensures Supports(capability, algorithm) <==> IsCapable(capability, algorithm)
  {
    HighBits(capability);
    LowBits(capability);
    Masks(algorithm);
  }

  lemma Masks(algorithm: AlgId)
    ensures (0x80 as Octet) >> algorithm ==
            if algorithm == 0 then 0x80 else if algorithm == 1 then 0x40 else if algorithm == 2 then 0x20
            else if algorithm == 3 then 0x10 else if algorithm == 4 then 0x08 else if algorithm == 5 then 0x04
            else if algorithm == 6 then 0x02 else 0x01
  {
  }

  lemma HighBits(o: Octet)
    ensures (o & 0x80 != 0 <==> o as nat / 128 % 2 == 1) && (o & 0x40 != 0 <==> o as nat / 64 % 2 == 1)
    ensures (o & 0x20 != 0 <==> o as nat / 32 % 2 == 1) && (o & 0x10 != 0 <==> o as nat / 16 % 2 == 1)
  {
    BitsOfOctet(o);
    BitAt(o, 0x80, 7);
    BitAt(o, 0x40, 6);
    BitAt(o, 0x20, 5);
    BitAt(o, 0x10, 4);
  }

  lemma LowBits(o: Octet)
    ensures (o & 0x08 != 0 <==> o as nat / 8 % 2 == 1) && (o & 0x04 != 0 <==> o as nat / 4 % 2 == 1)
    ensures (o & 0x02 != 0 <==> o as nat / 2 % 2 == 1) && (o & 0x01 != 0 <==> o as nat % 2 == 1)
  {
    BitsOfOctet(o);
    BitAt(o, 0x08, 3);
    BitAt(o, 0x04, 2);
    BitAt(o, 0x02, 1);
    LowestBit(o);
  }

  lemma BitsOfOctet(o: Octet)
    ensures (o >> 7) as nat == o as nat / 128 && (o >> 6) as nat == o as nat / 64
    ensures (o >> 5) as nat == o as nat / 32 && (o >> 4) as nat == o as nat / 16
    ensures (o >> 3) as nat == o as nat / 8 && (o >> 2) as nat == o as nat / 4
    ensures (o >> 1) as nat == o as nat / 2 && (o >> 0) as nat == o as nat
  {
  }

  lemma BitAt(o: Octet, mask: Octet, k: nat)
    requires k < 8 && mask == (1 as Octet) << k
    ensures o & mask != 0 <==> (o >> k) as nat % 2 == 1
  {
    LowestBit(o >> k);
    assert o & mask != 0 <==> (o >> k) & 1 == 1;
  }

  lemma LowestBit(o: Octet)
    ensures o & 1 == 1 <==> o as nat % 2 == 1
  {
  }

  ghost predicate IsFirstSupported(preference: seq<AlgId>, capability: Octet, k: nat)
  {
    && k < |preference|
    && Supports(capability, preference[k])
    && forall j :: 0 <= j < k ==> !Supports(capability, preference[j])
  }

  /** The first preferred algorithm that the UE supports. */
  function FirstSupported(preference: seq<AlgId>, capability: Octet): (r: Option<AlgId>)
    ensures r.Some? <==> exists a :: a in preference && Supports(capability, a)
    ensures r.Some? ==> exists k: nat :: IsFirstSupported(preference, capability, k) && r.value == preference[k]
  {
    if preference == [] then None
    else if Supports(capability, preference[0]) then
      assert IsFirstSupported(preference, capability, 0);
      Some(preference[0])
    else
      var r := FirstSupported(preference[1..], capability);
      assert forall a :: a in preference <==> a == preference[0] || a in preference[1..];
      assert r.Some? ==> exists k: nat :: IsFirstSupported(preference, capability, k) && r.value == preference[k] by {
        if r.Some? {
          var k: nat :| IsFirstSupported(preference[1..], capability, k) && r.value == preference[1..][k];
          forall j | 0 <= j < k + 1 ensures !Supports(capability, preference[j]) {
            if j > 0 { assert !Supports(capability, preference[1..][j - 1]); }
          }
          assert IsFirstSupported(preference, capability, k + 1);
        }
      }
      r
  }

  /** One of the two loops of security_select_algorithms. */
  method SelectFrom(preference: seq<AlgId>, capability: Octet) returns (found: bool, algorithm: AlgId)
    ensures found == FirstSupported(preference, capability).Some?
    ensures algorithm == FirstSupported(preference, capability).GetOr(0)
  {
    found, algorithm := false, 0;
    var i := 0;
    while i < |preference|
      invariant i <= |preference|
      invariant !found && algorithm == 0
      invariant FirstSupported(preference, capability) == FirstSupported(preference[i..], capability)
    {
      if Supports(capability, preference[i]) {
        return true, preference[i];
      }
      assert preference[i..][1..] == preference[i + 1..];
      i := i + 1;
    }
  }

  datatype Selection = Selection(nea: AlgId, nia: AlgId, ok: bool)

  function Select(neaPreference: seq<AlgId>, niaPreference: seq<AlgId>, nea: Octet, nia: Octet): Selection
  {
    var e, i := FirstSupported(neaPreference, nea), FirstSupported(niaPreference, nia);
    Selection(e.GetOr(0), i.GetOr(0), e.Some? && i.Some?)
  }

  /** The preference does not hold it before position k, but there: the algorithm the capability octet asks for. */
  ghost predicate IsChosen(preference: seq<AlgId>, capability: Octet, algorithm: AlgId) {
    exists k :: 0 <= k < |preference| && preference[k] == algorithm && IsCapable(capability, algorithm)
                && forall j :: 0 <= j < k ==> !IsCapable(capability, preference[j])
  }

  ghost predicate NoneCapable(preference: seq<AlgId>, capability: Octet) {
    forall a :: a in preference ==> !IsCapable(capability, a)
  }

  /** The first preferred algorithm whose capability bit is set, or algorithm 0 if there is none. */
  ghost predicate IsSelected(preference: seq<AlgId>, capability: Octet, algorithm: nat) {
    if NoneCapable(preference, capability) then algorithm == 0
    else algorithm < 8 && IsChosen(preference, capability, algorithm)
  }

  /**
   What the selection comes to, told by the capability octets as numbers: that
   algorithm in each family, with success exactly if both have a preferred one the
   UE is capable of.
   */
  lemma SelectionByWeights(neaPreference: seq<AlgId>, niaPreference: seq<AlgId>, nea: Octet, nia: Octet)
    ensures var r := Select(neaPreference, niaPreference, nea, nia);
            && IsSelected(neaPreference, nea, r.nea) && IsSelected(niaPreference, nia, r.nia)
            && (r.ok <==> !NoneCapable(neaPreference, nea) && !NoneCapable(niaPreference, nia))
  {
    FirstByWeights(neaPreference, nea);
    FirstByWeights(niaPreference, nia);
  }

  lemma FirstByWeights(preference: seq<AlgId>, capability: Octet)
    ensures var r := FirstSupported(preference, capability);
            if NoneCapable(preference, capability) then r.None?
            else r.Some? && IsChosen(preference, capability, r.value)
  {
    forall a: AlgId ensures Supports(capability, a) <==> IsCapable(capability, a) {
      CapabilityLayout(capability, a);
    }
    var r := FirstSupported(preference, capability);
    if r.Some? {
      var k: nat :| IsFirstSupported(preference, capability, k) && r.value == preference[k];
      assert preference[k] in preference;
    }
  }

  method SecuritySelectAlgorithms(neaPreference: seq<AlgId>, niaPreference: seq<AlgId>, nea: Octet, nia: Octet)
    returns (r: Selection)
    ensures r == Select(neaPreference, niaPreference, nea, nia)
  {
    var foundNea, amfNea := SelectFrom(neaPreference, nea);
    var foundNia, amfNia := SelectFrom(niaPreference, nia);
    r := Selection(amfNea, amfNia, foundNea && foundNia);
  }

  /**
   End to end: with a validated configuration the selected algorithm is the one
   whose name stands first among those the UE supports, and 0 with no success
   when the UE supports none of them.
   */
  lemma NegotiationFollowsConfiguration(family: Family, node: Option<YamlNode>, capability: Octet)
    requires forall s :: s in Configured(family, node) ==> Validates(family, s)
    ensures var names, r := Configured(family, node), FirstSupported(Preference(family, node), capability);
            if r.None? then NoneNamed(family, names, capability)
            else IsCapable(capability, r.value) && IsNamedFirst(family, names, capability, r.value)
  {
    PreferenceMeaning(family, node);
    NamesAreNumbers(family, node);
    var names, p := Configured(family, node), Preference(family, node);
    FirstByWeights(p, capability);
    if NoneCapable(p, capability) {
      NoneCapableNamed(family, names, p, capability);
    } else {
      ChosenIsNamed(family, names, p, capability, FirstSupported(p, capability).value);
    }
  }

  /** The algorithm's name is there, and no name of a supported one before it. */
  ghost predicate IsNamedFirst(family: Family, names: seq<string>, capability: Octet, algorithm: AlgId) {
    exists k :: 0 <= k < |names| && names[k] == Name(family, algorithm) && NoneNamed(family, names[..k], capability)
  }

  lemma ChosenIsNamed(family: Family, names: seq<string>, p: seq<AlgId>, capability: Octet, algorithm: AlgId)
    requires |p| == |names| && IsChosen(p, capability, algorithm)
    requires forall k :: 0 <= k < |p| ==> names[k] == Name(family, p[k])
    requires forall j: nat, a: AlgId :: j < |names| && names[j] == Name(family, a) ==> p[j] == a
    ensures IsNamedFirst(family, names, capability, algorithm)
  {
    var k :| 0 <= k < |p| && p[k] == algorithm && IsCapable(capability, algorithm)
             && forall j :: 0 <= j < k ==> !IsCapable(capability, p[j]);
    NoneCapableNamed(family, names[..k], p[..k], capability);
  }

  /** No name of an algorithm that the UE is capable of is among these. */
  ghost predicate NoneNamed(family: Family, names: seq<string>, capability: Octet) {
    forall a: AlgId :: Name(family, a) in names ==> !IsCapable(capability, a)
  }

  lemma NoneCapableNamed(family: Family, names: seq<string>, p: seq<AlgId>, capability: Octet)
    requires |p| == |names| && NoneCapable(p, capability)
    requires forall j: nat, a: AlgId :: j < |names| && names[j] == Name(family, a) ==> p[j] == a
    ensures NoneNamed(family, names, capability)
  {
    forall a: AlgId | Name(family, a) in names ensures !IsCapable(capability, a) {
      var j :| 0 <= j < |names| && names[j] == Name(family, a);
      assert p[j] == a && p[j] in p;
    }
  }

  lemma NamesAreNumbers(family: Family, node: Option<YamlNode>)
    requires forall s :: s in Configured(family, node) ==> Validates(family, s)
    ensures |Preference(family, node)| == |Configured(family, node)|
    ensures forall j: nat, a: AlgId ::
              j < |Configured(family, node)| && Configured(family, node)[j] == Name(family, a) ==>
                Preference(family, node)[j] == a
  {
    PreferenceMeaning(family, node);
    var names, p := Configured(family, node), Preference(family, node);
    forall j: nat, a: AlgId | j < |names| && names[j] == Name(family, a) ensures p[j] == a {
      NameIsOwn(family, names[j], a);
      NameIsOwn(family, names[j], p[j]);
    }
  }
}

/**
 Slice decisions (amf_n1.cpp): whether this AMF can serve the slices of a UE
 (check_subscribed_nssai), and how a Registration Accept splits the requested
 slices into allowed and rejected (initialize_registration_accept).
 */
module Slices {
  import opened Wrappers

  const SD_NO_VALUE: nat := 0xFFFFFF

  /** A slice by its service type and differentiator, the latter as a number. */
  datatype Snssai = Snssai(sst: nat, sd: nat)

  datatype Tai = Tai(mcc: string, mnc: string, tac: nat)

  datatype PlmnItem = PlmnItem(mcc: string, mnc: string, tac: nat, slices: seq<Snssai>)

  predicate Matches(tai: Tai, p: PlmnItem) {
    tai.mcc == p.mcc && tai.mnc == p.mnc && tai.tac == p.tac
  }

  /** Requested slices the UE is subscribed to; failing any, the default subscribed slices. */
  function Needed(requested: seq<Snssai>, defaults: seq<Snssai>, singles: seq<Snssai>): set<Snssai> {
    var common := set s | s in requested && (s in defaults || s in singles);
    if common != {} then common else set s | s in defaults
  }

  predicate Serves(p: PlmnItem, needed: set<Snssai>) {
    forall s :: s in needed ==> s in p.slices
  }

  ghost predicate IsLastMatch(tai: Tai, plmns: seq<PlmnItem>, k: nat) {
    && k < |plmns|
    && Matches(tai, plmns[k])
    && forall j :: k < j < |plmns| ==> !Matches(tai, plmns[j])
  }

  /** The last configured entry for a tracking area, none if there is none. */
  function LastMatching(tai: Tai, plmns: seq<PlmnItem>): (r: Option<PlmnItem>)
    ensures r.None? <==> forall p :: p in plmns ==> !Matches(tai, p)
    ensures r.Some? ==> exists k: nat :: IsLastMatch(tai, plmns, k) && r.value == plmns[k]
  {
    if plmns == [] then None
    else
      var n := |plmns| - 1;
      assert plmns == plmns[..n] + [plmns[n]];
      if Matches(tai, plmns[n]) then
        assert IsLastMatch(tai, plmns, n);
        Some(plmns[n])
      else
        var r := LastMatching(tai, plmns[..n]);
        assert r.Some? ==> exists k: nat :: IsLastMatch(tai, plmns, k) && r.value == plmns[k] by {
          if r.Some? {
            var k: nat :| IsLastMatch(tai, plmns[..n], k) && r.value == plmns[..n][k];
            forall j | k < j < |plmns| ensures !Matches(tai, plmns[j]) {
              if j < n { assert plmns[j] == plmns[..n][j]; }
            }
            assert IsLastMatch(tai, plmns, k);
          }
        }
        r
  }

  /** The requested slices the UE is subscribed to, once per subscription list that has them. */
  method CommonSnssais(requested: seq<Snssai>, defaults: seq<Snssai>, singles: seq<Snssai>) returns (common: seq<Snssai>)
    ensures forall s :: s in common <==> s in requested && (s in defaults || s in singles)
  {
    common := [];
    for i := 0 to |requested|
      invariant forall s :: s in common <==> s in requested[..i] && (s in defaults || s in singles)
    {
      var s := requested[i];
      ghost var before := common;
      for j := 0 to |defaults|
        invariant common == before && s !in defaults[..j]
      {
        if s.sst == defaults[j].sst && defaults[j].sd == s.sd {
          common := common + [defaults[j]];
          break;
        }
      }
      assert common == before + (if s in defaults then [s] else []);
      ghost var middle := common;
      for j := 0 to |singles|
        invariant common == middle && s !in singles[..j]
      {
        if s.sst == singles[j].sst && singles[j].sd == s.sd {
          common := common + [singles[j]];
          break;
        }
      }
      assert common == middle + (if s in singles then [s] else []);
      assert requested[..i + 1] == requested[..i] + [s];
    }
    assert requested[..|requested|] == requested;
  }

  /** Whether every one of the wanted slices is in a list of served slices. */
  method AllServed(wanted: seq<Snssai>, served: seq<Snssai>) returns (result: bool)
    ensures result <==> forall s :: s in wanted ==> s in served
  {
    result := true;
    for i := 0 to |wanted|
      invariant result && forall s :: s in wanted[..i] ==> s in served
    {
      var found := false;
      for j := 0 to |served|
        invariant !found && wanted[i] !in served[..j]
      {
        if served[j].sst == wanted[i].sst && wanted[i].sd == served[j].sd {
          found := true;
          break;
        }
      }
      assert found <==> wanted[i] in served;
      if !found {
        result := false;
        break;
      }
      assert wanted[..i + 1] == wanted[..i] + [wanted[i]];
    }
    assert result ==> wanted[..|wanted|] == wanted;
  }

  method CheckSubscribedNssai(tai: Option<Tai>, plmns: seq<PlmnItem>,
                              requested: seq<Snssai>, defaults: seq<Snssai>, singles: seq<Snssai>) returns (result: bool)
    ensures result <==> tai.Some? && LastMatching(tai.value, plmns).Some?
                        && Serves(LastMatching(tai.value, plmns).value, Needed(requested, defaults, singles))
  {
    if tai.None? {
      return false;
    }
    result := false;
    for i := 0 to |plmns|
      invariant result <==> var p := LastMatching(tai.value, plmns[..i]);
                            p.Some? && Serves(p.value, Needed(requested, defaults, singles))
    {
      var p := plmns[i];
      assert plmns[..i + 1][..i] == plmns[..i];
      if tai.value.mcc != p.mcc || tai.value.mnc != p.mnc || tai.value.tac != p.tac {
        continue;
      }
      var common := CommonSnssais(requested, defaults, singles);
      NeededIsCommon(requested, defaults, singles, common);
      if |requested| == 0 || |common| == 0 {
        result := AllServed(defaults, p.slices);
      } else {
        result := AllServed(common, p.slices);
      }
    }
    assert plmns[..|plmns|] == plmns;
  }

  lemma NeededIsCommon(requested: seq<Snssai>, defaults: seq<Snssai>, singles: seq<Snssai>, common: seq<Snssai>)
    requires forall s :: s in common <==> s in requested && (s in defaults || s in singles)
    ensures forall s :: s in Needed(requested, defaults, singles) <==> if |common| == 0 then s in defaults else s in common
  {
    var c := set s | s in requested && (s in defaults || s in singles);
    assert forall s :: s in c <==> s in common;
    if |common| != 0 {
      assert common[0] in c;
    }
  }

  predicate IsAt(tai: Tai, p: PlmnItem) {
    p.mcc == tai.mcc && p.mnc == tai.mnc && p.tac == tai.tac
  }

  /** Requested and subscribed, as a default or as a single slice. */
  predicate IsEntitled(s: Snssai, requested: seq<Snssai>, defaults: seq<Snssai>, singles: seq<Snssai>) {
    s in requested && (s in defaults || s in singles)
  }

  /**
   What the check comes to: the last entry for the UE's PLMN and tracking area has
   every slice the UE is entitled to, or every default one if it is entitled to
   none; without such an entry the answer is no.
   */
  lemma CheckMeaning(tai: Tai, plmns: seq<PlmnItem>, requested: seq<Snssai>, defaults: seq<Snssai>, singles: seq<Snssai>)
    ensures var p := LastMatching(tai, plmns);
            var result := p.Some? && Serves(p.value, Needed(requested, defaults, singles));
            && ((forall k :: 0 <= k < |plmns| ==> !IsAt(tai, plmns[k])) ==> !result)
            && forall k :: 0 <= k < |plmns| && IsAt(tai, plmns[k])
                           && (forall j :: k < j < |plmns| ==> !IsAt(tai, plmns[j])) ==>
                 (result <==>
                    && (forall s :: IsEntitled(s, requested, defaults, singles) ==> s in plmns[k].slices)
                    && ((forall s :: !IsEntitled(s, requested, defaults, singles)) ==>
                          forall s :: s in defaults ==> s in plmns[k].slices))
  {
    var needed := Needed(requested, defaults, singles);
    var common := set s | s in requested && (s in defaults || s in singles);
    assert forall s :: s in common <==> IsEntitled(s, requested, defaults, singles);
    forall k | 0 <= k < |plmns| && IsAt(tai, plmns[k]) && (forall j :: k < j < |plmns| ==> !IsAt(tai, plmns[j]))
      ensures LastMatching(tai, plmns) == Some(plmns[k])
    {
      LastIs(tai, plmns, k);
    }
  }

  lemma {:induction false} LastIs(tai: Tai, plmns: seq<PlmnItem>, k: nat)
    requires k < |plmns| && IsAt(tai, plmns[k]) && forall j :: k < j < |plmns| ==> !IsAt(tai, plmns[j])
    ensures LastMatching(tai, plmns) == Some(plmns[k])
  {
    if k < |plmns| - 1 {
      LastIs(tai, plmns[..|plmns| - 1], k);
    }
  }

  // ---- The split in a Registration Accept ----

  const SST_LENGTH: nat := 1
  const SD_LENGTH: nat := 3

  /** A slice with the length of its encoding. */
  datatype AllowedSnssai = AllowedSnssai(sst: nat, sd: nat, length: nat)

  /** A rejected slice; the cause is the source's fixed value 1. */
  datatype RejectedSnssai = RejectedSnssai(sst: nat, sd: Option<nat>, cause: nat)

  function ToAllowed(s: Snssai): AllowedSnssai {
    AllowedSnssai(s.sst, s.sd, if s.sd == SD_NO_VALUE then SST_LENGTH else SST_LENGTH + SD_LENGTH)
  }

  function ToRejected(s: Snssai): RejectedSnssai {
    RejectedSnssai(s.sst, if s.sd != SD_NO_VALUE then Some(s.sd) else None, 1)
  }

  /** The slices asked for: those of the request, or without any those of the subscription. */
  function Asked(requested: seq<Snssai>, subscribed: seq<(bool, Snssai)>): seq<Snssai> {
    if |requested| > 0 then requested else seq(|subscribed|, i requires 0 <= i < |subscribed| => subscribed[i].1)
  }

  /** The slices of a list that are not common, in the order of the list. */
  function Uncommon(asked: seq<Snssai>, common: seq<Snssai>): seq<Snssai> {
    if asked == [] then []
    else
      var last := asked[|asked| - 1];
      Uncommon(asked[..|asked| - 1], common) + (if last in common then [] else [last])
  }

  function Positions(asked: seq<Snssai>, common: seq<Snssai>): seq<nat> {
    if asked == [] then []
    else
      var n := |asked| - 1;
      Positions(asked[..n], common) + (if asked[n] in common then [] else [n])
  }

  /**
   The uncommon slices are the subsequence of the list at exactly those
   positions whose slice is not common, in order.
   */
  lemma {:induction false} UncommonIsSubsequence(asked: seq<Snssai>, common: seq<Snssai>)
    ensures var u, p := Uncommon(asked, common), Positions(asked, common);
            && |u| == |p|
            && (forall k :: 0 <= k < |p| ==> p[k] < |asked| && u[k] == asked[p[k]] && u[k] !in common)
            && (forall j, k :: 0 <= j < k < |p| ==> p[j] < p[k])
            && (forall n :: 0 <= n < |asked| && asked[n] !in common ==> n in p)
  {
    if asked != [] {
      var n := |asked| - 1;
      UncommonIsSubsequence(asked[..n], common);
      var p := Positions(asked[..n], common);
      forall m | 0 <= m < |asked| && asked[m] !in common ensures m in Positions(asked, common) {
        if m < n {
          assert asked[..n][m] == asked[m];
          assert m in p;
        }
      }
    }
  }

  function CommonCount(asked: seq<Snssai>, common: seq<Snssai>): nat {
    if asked == [] then 0
    else CommonCount(asked[..|asked| - 1], common) + (if asked[|asked| - 1] in common then 1 else 0)
  }

  /** Every asked slice is counted on one side, and no slice is on both. */
  lemma {:induction false} SplitIsPartition(asked: seq<Snssai>, common: seq<Snssai>)
    ensures CommonCount(asked, common) + |Uncommon(asked, common)| == |asked|
    ensures forall s :: s in asked <==> s in Uncommon(asked, common) || (s in common && s in asked)
    ensures forall s :: s in Uncommon(asked, common) ==> s !in common
  {
    if asked != [] {
      var n := |asked| - 1;
      SplitIsPartition(asked[..n], common);
      assert asked == asked[..n] + [asked[n]];
    }
  }

  /** Rejected are the requested slices that are not common, or without any requested, the subscribed ones. */
  lemma RejectedAreAsked(requested: seq<Snssai>, subscribed: seq<(bool, Snssai)>, common: seq<Snssai>)
    ensures forall s :: s in Uncommon(Asked(requested, subscribed), common) <==>
              s !in common && if requested != [] then s in requested else IsSubscribed(s, subscribed)
  {
    var asked := Asked(requested, subscribed);
    SplitIsPartition(asked, common);
    if requested == [] {
      forall s ensures s in asked <==> IsSubscribed(s, subscribed) {
        if IsSubscribed(s, subscribed) {
          var i :| 0 <= i < |subscribed| && subscribed[i].1 == s;
          assert asked[i] == s;
        }
      }
    }
  }

  ghost predicate IsSubscribed(s: Snssai, subscribed: seq<(bool, Snssai)>) {
    exists i :: 0 <= i < |subscribed| && subscribed[i].1 == s
  }

  /** One rejection with cause 1 for each slice, without a differentiator exactly where the slice has none. */
  predicate IsRejection(rejected: seq<RejectedSnssai>, slices: seq<Snssai>) {
    && |rejected| == |slices|
    && forall k :: 0 <= k < |slices| ==>
         && rejected[k].sst == slices[k].sst && rejected[k].cause == 1
         && (if slices[k].sd == 0xFFFFFF then rejected[k].sd == None else rejected[k].sd == Some(slices[k].sd))
  }

  /** The slice fields of a NAS context. */
  class NssaiContext {
    var requestedNssai: seq<Snssai>
    var subscribedSnssai: seq<(bool, Snssai)>
    var allowedNssai: seq<AllowedSnssai>

    method SplitNssai(common: seq<Snssai>) returns (allowed: seq<AllowedSnssai>, rejected: seq<RejectedSnssai>)
      modifies this`allowedNssai
      ensures |allowed| == |common| && forall k :: 0 <= k < |common| ==>
                && allowed[k].sst == common[k].sst && allowed[k].sd == common[k].sd
                && allowed[k].length == if common[k].sd == 0xFFFFFF then 1 else 4
      ensures allowedNssai == old(allowedNssai) + allowed
      ensures IsRejection(rejected, Uncommon(Asked(requestedNssai, subscribedSnssai), common))
    {
      var asked := [];
      if |requestedNssai| > 0 {
        asked := requestedNssai;
      } else {
        for i := 0 to |subscribedSnssai|
          invariant |asked| == i && forall k :: 0 <= k < i ==> asked[k] == subscribedSnssai[k].1
        {
          asked := asked + [subscribedSnssai[i].1];
        }
      }
      assert asked == Asked(requestedNssai, subscribedSnssai);
      allowed := [];
      for i := 0 to |common|
        invariant |allowed| == i && forall k :: 0 <= k < i ==> allowed[k] == ToAllowed(common[k])
        invariant allowedNssai == old(allowedNssai) + allowed
      {
        allowed := allowed + [ToAllowed(common[i])];
        allowedNssai := allowedNssai + [ToAllowed(common[i])];
      }
      rejected := Rejected(asked, common);
    }

    static method Rejected(asked: seq<Snssai>, common: seq<Snssai>) returns (rejected: seq<RejectedSnssai>)
      ensures IsRejection(rejected, Uncommon(asked, common))
    {
      rejected := [];
      for i := 0 to |asked|
        invariant var u := Uncommon(asked[..i], common);
                  |rejected| == |u| && forall k :: 0 <= k < |u| ==> rejected[k] == ToRejected(u[k])
      {
        var found := false;
        for j := 0 to |common|
          invariant !found && asked[i] !in common[..j]
        {
          if asked[i].sst == common[j].sst && asked[i].sd == common[j].sd {
            found := true;
            break;
          }
        }
        assert found <==> asked[i] in common;
        assert asked[..i + 1][..i] == asked[..i];
        if !found {
          rejected := rejected + [ToRejected(asked[i])];
        }
      }
      assert asked[..|asked|] == asked;
    }
  }
}

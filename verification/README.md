# The AMF's NAS and registration core, verified

A Dafny model of the part of the OAI AMF that keeps state: the NAS security
channel of a UE, the registration state machine with the index maps that find
its contexts, PDU session reactivation, the slice decisions, the registration
with NRFs, the promise table, and the subscription tables. `dafny verify
dfyconfig.toml` checks all of it.

## How it is laid out

| file | holds |
|---|---|
| `Octets`, `NasSecurity`, `NasFrame` | octet strings and host words, the security context, MAC and ciphering, the frame of TS 24.501, section 9.1.1 |
| `NasDownlink`, `NasUplink` | protecting into the 4096-octet buffer, and the security header switch |
| `NasWire` | secured messages octet by octet in both directions, told by the primitives alone |
| `NasChannel` | a security context over its whole life: Security Mode Command, numbering, delivery |
| `AlgorithmPolicy` | from the configuration file to the selected algorithms |
| `NasContexts`, `Registration` | NAS contexts and the shared state as values, and what each event does to them |
| `AmfTasks` | the same on objects: `NasContext` and the index maps of `Amf`, every handler proved to do what the value step says |
| `HandlerEffects` | what the handling of each message does, told field by field and octet by octet |
| `RegistrationSafety` | the invariant every event keeps, and what holds in every reachable state |
| `RegistrationRuns` | the runs that end the process, move a GUTI or record a pair that leads nowhere, with the exact conditions |
| `RegistrationFlow`, `KeyDerivation` | whole procedures, and the counts gNB keys are derived under |
| `Guti`, `Decimals`, `UintGenerator` | the texts that key the maps, and the generator of identifiers |
| `PduSessionStatus`, `PduSessions` | the 16-bit session sets and the reactivation loop |
| `Slices` | whether the AMF can serve a UE, and the split into allowed and rejected slices |
| `Nrf`, `Promises`, `Subscriptions` | the three smaller protocols of `amf_app.cpp` |

A handler that changes objects is a method; its contract equates the abstract
state afterwards with a function of the abstract state before. The properties
are then lemmas about those functions: what each does to fields, indexes and
octets, without naming it (`NasWire`, `HandlerEffects`), and what holds over every
sequence of events of the AMF_APP, N1 and N2 tasks in any order. NAS contexts are named by references, so
that several index entries can lead to one context, as the shared pointers of
the source do.

## What is assumed

- Cryptographic primitives, key derivation and message codecs are arbitrary
  functions (fields of `Primitives`, `Env` and `AmfEnv`); AUSF, UDM, NSSF, SMF
  and NRF answers, and the success of encoders and of the queue to N2, are
  arbitrary inputs (`Answers`, `Reply`, event parameters).
- Handlers are atomic with respect to each other, and the queue to N1 is first
  in, first out.
- Fewer than 2^32 TMSIs have been handed out; after that the generator searches
  for ever. PLMNs have five or six digits (`Registration.Enabled`). An uplink message may
  come under any pair of identities.
- A secured message that arrives has at least its seven header octets: the
  source reads that far without looking at the length, and what it does with a
  shorter one is undefined (`Registration.Readable`, a condition of the arriving
  events; with it the queue never gets stuck, `RegistrationRuns.QueueNeverStuck`).
- The host is little-endian. The texts handed to the encoder are at most 4088
  octets long, and encoders do not return -1.

## What the proofs found

- The MAC is computed under the sequence octet alone (amf_n1.cpp:3115-3116),
  while deciphering uses the COUNT with the AMF's own overflow counter, which no
  code moves: in every reachable state both overflow counters are zero
  (`RegistrationSafety.DownlinkNumbering`). So a UE that follows the standard is
  understood exactly while its own overflow counter is zero, that is for its first
  256 messages, or if nothing is protected (`RegistrationSafety.StandardPeerWhileZero`;
  `NasUplink.StandardPeerIsUnderstood` for every context). After that its messages
  are dropped (`NasUplink.PeerIsRefused`, as a run `RegistrationRuns.LatePeerIsLost`)
  or delivered garbled (`NasUplink.PeerIsGarbled`). Downlink COUNTs repeat every
  256 messages (`RegistrationSafety.CountsRepeat`).
- A Service Request that opens a connection and arrives ciphered derives the gNB
  key under uplink sequence number 0 instead of its own
  (`KeyDerivation.ServiceRequestCount`).
- A Service Request that names the GUTI of another context copies its security
  context. Both go on, with the same keys and the same next downlink COUNT
  (`RegistrationFlow.CopiedContextsShareCount`).
- `tmsi_to_string` pads by the hexadecimal length and then prints in decimal. It
  is injective all the same, but GUTI texts of PLMNs of different lengths can
  meet under an AMF identity that is one nonzero decimal digit six times over
  (`Guti.GutiUnambiguous`, `Guti.AllocatedCollides`). Over runs, a bound GUTI
  can pass to another context exactly under such an identity
  (`RegistrationRuns.GutiStabilityExactly`), in the run of `RegistrationRuns.GutiMoves`
  after more than 500 million TMSIs.
- A Deregistration Request prints region, set and pointer of its GUTI in decimal,
  while the entry is stored under hexadecimal text, so a UE's own GUTI is never
  unbound (`RegistrationFlow.DeregistrationLeavesGuti`).
- Subscription identifiers from 2^31 on cannot be unsubscribed with the text they
  were returned as, because `std::stoi` refuses it
  (`Subscriptions.SubscriptionRoundTrip`).
- Every further call of `register_to_nrf()`, as after a configuration update,
  starts one more heartbeat cycle per NRF that never ends
  (`Nrf.HeartbeatsNeitherDieNorFork`).
- N2 only logs an uplink message whose two identities do not belong together
  (amf_n2.cpp:848-853) and passes it on, and an Identity Response records such a
  pair for its SUPI although there is no UE context for it. Recorded pairs lead to
  UE contexts throughout a run exactly if that does not happen
  (`RegistrationSafety.RoutingResolves`, `RegistrationRuns.MisrecordIsReachable`).
- A GUTI is bound and security mode control ended before the handler looks for a
  security context (amf_n1.cpp:2766-2773). A later Service Request on a new
  connection that names such a GUTI takes the value of an empty optional
  (amf_n1.cpp:1066-1067). Nothing catches that exception, neither the N1 task
  (amf_n1.cpp:90-140) nor the thread it runs on (itti.cpp:155-176), so the
  process ends. `RegistrationRuns.CrashExactly` and `DownExactly` say exactly
  when this exception does so, and `CrashIsReachable` gives a run.
- In `registration_request_handle` the context is used before it is compared
  with null (amf_n1.cpp:1476), so the branches for a missing context are not
  part of the model: they cannot be taken.

## Model

| member | source | states |
|---|---|---|
| NasSecurity.CountWordValue | component/oai-amf/src/amf-app/amf_n1.cpp:3100-3107 | the 24-bit COUNT word is the sequence octet plus 256 times the overflow counter (TS 24.501, section 4.4.3.1) |
| NasSecurity.NasMessageIntegrityProtected | component/oai-amf/src/amf-app/amf_n1.cpp:3097-3157 | the code is that of 128-5G-IA1 under integrity 1 and of 128-5G-IA2 under 2, over integrity key, sequence octet as count, bearer 1 and direction, zero under others, and there is none exactly for algorithm 0; an uplink check takes over the received sequence octet and nothing else changes |
| NasSecurity.NasMessageCipherProtected | component/oai-amf/src/amf-app/amf_n1.cpp:3160-3220 | the text is XORed with the keystream of the COUNT of its direction; EA1 yields whole words, EA2 and EA0 as many octets as the text has, other algorithms none |
| NasSecurity.CipheredPrefix | component/oai-amf/src/amf-app/amf_n1.cpp:3186-3219 | as many octets as the text has do not depend on the memory behind the text, although EA1 ciphers whole words |
| Octets.NetworkRoundTrip | component/oai-amf/src/amf-app/amf_n1.cpp:3067-3070 | the four octets of a MAC survive the ntohl/htonl pair, so they are sent as computed |
| NasDownlink.EncodeNasMessageProtected | component/oai-amf/src/amf-app/amf_n1.cpp:3015-3094 | the 4096-octet buffer holds exactly the secured message, or the plain one under IA0, or nothing comes out of the early return; the downlink counter moves on by one octet except on the early return |
| NasDownlink.DownlinkRoundTrip | component/oai-amf/src/amf-app/amf_n1.cpp:3015-3094 | a UE with the same keys, algorithms and overflow counter recovers exactly the protected text from types 2 and 3, for every text and whatever the buffer held before |
| NasDownlink.DownlinkSize | component/oai-amf/src/amf-app/amf_n1.cpp:3029-3094 | seven octets more than the text under IA1 and IA2, even under EA1, and the bare text under IA0 |
| NasDownlink.FitsExactly | component/oai-amf/src/amf-app/amf_n1.cpp:3019-3045 | every write stays inside the buffer exactly up to 4088 octets of text under EA1 and 4089 otherwise, hence for all texts of up to 1024 octets |
| NasDownlink.LeftoverMemoryMatters | component/oai-amf/src/amf-app/amf_n1.cpp:3029-3044 | what is sent is determined by the text exactly when the ciphering algorithm is at most 2 or nothing is integrity protected, or the leftover buffer agrees |
| NasWire.DownlinkOnWire | component/oai-amf/src/amf-app/amf_n1.cpp:3029-3093 | every message the AMF protects, octet by octet and told by the primitives alone: header, the code of nia1 or nia2 by the algorithm, under integrity key, sequence octet as count, bearer 1 and direction 1, over all from the sequence octet on; the text XORed with nea1 or nea2 under ciphering key and whole COUNT, as it is in a Security Mode Command; plain under IA0 |
| NasWire.UnselectedUnused | component/oai-amf/src/amf-app/amf_n1.cpp:3132-3155 | the algorithms a context has not selected have no part in what it sends: under IA2 the message does not depend on nia1, and so on |
| NasWire.DownlinkRefused | component/oai-amf/src/amf-app/amf_n1.cpp:3061-3065 | a message for a new security context without one yields nothing and moves no counter; header types without a case yield no octets and move it |
| NasWire.UnwrittenText | component/oai-amf/src/amf-app/amf_n1.cpp:3029-3044 | under a ciphering algorithm above 2 what goes out as the text is what the buffer held there before |
| NasUplink.UnprotectUplink | component/oai-amf/src/amf-app/amf_n1.cpp:430-521 | the security header switch: what is delivered or dropped, and that only the uplink sequence number of the context changes; NasWire.UplinkUnchecked, UplinkCode and UplinkText say what that is octet by octet |
| NasWire.UplinkDropped | component/oai-amf/src/amf-app/amf_n1.cpp:424-521 | dropped unread: no 5GMM message, no known header type, or one whose code is to be checked without a security context |
| NasWire.IntegrityProtectedIsDelivered | component/oai-amf/src/amf-app/amf_n1.cpp:442-455 | an integrity protected message is delivered as exactly its text with exactly its sequence octet, for every MAC, every text and every context, or none |
| NasWire.UplinkUnchecked | component/oai-amf/src/amf-app/amf_n1.cpp:437-455 | a plain message is delivered whole, one of type 1 without its seven header octets, neither touching the context |
| NasWire.UplinkCode | component/oai-amf/src/amf-app/amf_n1.cpp:456-518 | a message of type 2, 3 or 4 is delivered exactly if its code is that of nia1 (IA1) or nia2 (IA2) under integrity key, sequence octet as count, bearer 1 and direction 0, or nothing is checked; its sequence octet is taken over either way |
| NasWire.UplinkText | component/oai-amf/src/amf-app/amf_n1.cpp:3160-3220 | what is delivered then, octet by octet: XORed with nea1 or nea2 under ciphering key, own overflow counter with the received sequence octet, bearer 1 and direction 0 |
| NasUplink.PeerMessageOutcome | component/oai-amf/src/amf-app/amf_n1.cpp:456-518 | what happens to a message of a peer with a counter of its own and a MAC taken under any count: delivered exactly when the MAC agrees with the one under the sequence octet alone, and then it is the body deciphered at the overflow counter of the AMF |
| NasUplink.UplinkRoundTrip | component/oai-amf/src/amf-app/amf_n1.cpp:456-518 | a message of type 2, 3 or 4 by a peer with the same keys and overflow counter, its MAC taken under the sequence octet, is accepted, and the text recovered is the original under EA0 and EA2 and starts with it, rounded up to whole words, under EA1; this rests on the integrity check setting the sequence number before deciphering |
| NasUplink.StandardPeerIsUnderstood | component/oai-amf/src/amf-app/amf_n1.cpp:3115-3120 | a peer at any COUNT of its own that takes MAC and keystream under it, as TS 24.501 asks, is understood, its message delivered and the text recovered, whatever the primitives are, exactly if its overflow counter is zero or neither IA1 nor IA2 is selected, and is the AMF's or nothing is ciphered; under ciphering algorithms 0 to 2 |
| NasUplink.PeerIsRefused | component/oai-amf/src/amf-app/amf_n1.cpp:3115-3120 | the failing message: with a MAC that tells counts apart, every message of a peer whose overflow counter is not zero is dropped |
| NasUplink.PeerIsGarbled | component/oai-amf/src/amf-app/amf_n1.cpp:3160-3220 | the other one: without a MAC check to stop it, but ciphered by a keystream that tells counts apart, a text is delivered that is not the one sent |
| NasUplink.KgnbCountAgrees | component/oai-amf/src/amf-app/amf_n1.cpp:2866-2869 | after a deciphered message the count for the gNB key is the COUNT it was deciphered under: sequence octet plus 256 times overflow |
| NasChannel.StartSecurityModeControl | component/oai-amf/src/amf-app/amf_n1.cpp:2551-2607 | installs algorithms, keys and zeroed counters exactly when the context was not available, and protects the Security Mode Command |
| NasChannel.SmcAnnouncesInstalled | component/oai-amf/src/amf-app/amf_n1.cpp:2537-2633 | a command that yields a message announces the installed algorithms, the first preferred ones the UE supports, and is message 0 of a FULL_NATIVE context with both counters just reset; otherwise no octets are produced and the context is unchanged |
| NasChannel.UplinkIsReceive | component/oai-amf/src/amf-app/amf_n1.cpp:3117-3120 | an uplink message changes at most the received sequence number of the context |
| NasChannel.Numbering | component/oai-amf/src/amf-app/amf_n1.cpp:3061-3093 | over every run of a context, the k-th message since the counters were last reset carries sequence octet k mod 256, the Security Mode Command being number 0; nothing but sending moves the counter and both overflow counters stay zero |
| NasChannel.EverythingOpens | component/oai-amf/src/amf-app/amf_n1.cpp:3015-3094 | over every run, each message sent since the keys were installed is recovered by a UE that holds them, under ciphering algorithms 0 to 2 |
| KeyDerivation.SecurityModeCompleteCount | component/oai-amf/src/amf-app/amf_n1.cpp:2866-2869 | if handling a deciphered Security Mode Complete derives a gNB key, then under the COUNT the message was deciphered under: its sequence octet plus 256 times the overflow counter |
| KeyDerivation.ServiceRequestCount | component/oai-amf/src/amf-app/amf_n1.cpp:608-615 | if handling a secured Service Request on a new connection derives a gNB key, under the context found or the recalled one, then under the COUNT of the message exactly when the message was integrity protected only, or its sequence number is zero |
| AlgorithmPolicy.SupportedAlgorithms.FromYaml | component/oai-amf/src/amf-app/amf_config_yaml.cpp:394-416 | appends the configured items, or the three defaults when there are none |
| AlgorithmPolicy.SupportedAlgorithms.Validate | component/oai-amf/src/amf-app/amf_config_yaml.cpp:449-459 | passes exactly when every item is one of the eight names of the family |
| AlgorithmPolicy.SupportedAlgorithms.GetSupported | component/oai-amf/src/amf-app/amf_config_yaml.cpp:433-446 | the items in their order, the defaults when there are none |
| AlgorithmPolicy.ToPreference | component/oai-amf/src/amf-app/amf_config_yaml.cpp:949-1016 | the numbers of the names in their order, [0, 1, 2] for no names |
| AlgorithmPolicy.LoadPreference | component/oai-amf/src/amf-app/amf_config_yaml.cpp:394-459 | from the file to the preference list, None exactly when validation throws |
| AlgorithmPolicy.PreferenceMeaning | component/oai-amf/src/amf-app/amf_config_yaml.cpp:949-1016 | a validated configuration with items gives the numbers of its names, one for one, and an empty, scalar or missing list gives [0, 1, 2], so the list is never empty |
| AlgorithmPolicy.CapabilityLayout | component/oai-amf/src/amf-app/amf_n1.cpp:2614-2630 | the bit looked at for algorithm a is the one TS 24.501, section 9.11.3.54, gives it: the capability octet as a number, divided by 128, 64 and so on to 1, is odd |
| AlgorithmPolicy.FirstSupported | component/oai-amf/src/amf-app/amf_n1.cpp:2614-2621 | the first preferred algorithm whose capability bit is set, none exactly when no preferred one is supported |
| AlgorithmPolicy.SelectFrom | component/oai-amf/src/amf-app/amf_n1.cpp:2614-2621 | one selection loop finds that algorithm, or 0 without success |
| AlgorithmPolicy.SecuritySelectAlgorithms | component/oai-amf/src/amf-app/amf_n1.cpp:2610-2633 | both loops; success exactly when both found an algorithm |
| AlgorithmPolicy.SelectionByWeights | component/oai-amf/src/amf-app/amf_n1.cpp:2610-2633 | what the selection comes to, told by the capability octets as numbers: in each family the first preferred algorithm whose bit is set, or 0 if there is none; success exactly when both families have one |
| AlgorithmPolicy.NegotiationFollowsConfiguration | component/oai-amf/src/amf-app/amf_config_yaml.cpp:394-446 | end to end: the selected algorithm is the one whose name stands first in a validated configuration among those whose capability bit is set, none exactly if no such name is there |
| PduSessionStatus.OfWordInjective | component/oai-amf/src/amf-app/amf_n1.cpp:5377-5402 | a bitset stands for exactly one status word |
| PduSessionStatus.MarkUnmark | component/oai-amf/src/amf-app/amf_n1.cpp:5377-5402 | setting and clearing a session are insertion and removal in the set of named sessions, for every identity, and leave the spare bit alone |
| PduSessionStatus.BitsDetermined | component/oai-amf/src/amf-app/amf_n1.cpp:4325-4336 | a status is determined by the sessions it names and its spare bit |
| PduSessionStatus.LayoutIsStandard | component/oai-amf/src/amf-app/amf_n1.cpp:4325-4336 | the bit looked at for an identity is the one TS 24.501, section 9.11.3.44, gives it in the element's two octets |
| PduSessionStatus.GetPduSessionToBeActivated | component/oai-amf/src/amf-app/amf_n1.cpp:4325-4336 | exactly the named sessions, each once, in bit order |
| PduSessions.UeSessions.TriggerUpActivation | component/oai-amf/src/amf-app/amf_app.cpp:1955-2029 | success exactly when the session exists and its answer was 200 or 204; then it is activated, and N2 SM data is stored when the answer brings some |
| PduSessions.UeSessions.Reactivate | component/oai-amf/src/amf-app/amf_n1.cpp:1263-1383 | the outgoing map has exactly the sessions of Uplink Data Status, else of PDU Session Status; the SMF is asked for the deactivated ones, whose answer 200 or 204 activates them and whose data, if any, replaces theirs, and each item is the data held then; sessions in another state, and other sessions, keep their value. The reactivation result names exactly the requested sessions without data; the returned status is the received one minus exactly those. The Security Mode Complete loop (2722-2818) is the same with every session asked for |
| Slices.LastMatching | component/oai-amf/src/amf-app/amf_n1.cpp:4797-4806 | the last configured entry for the UE's PLMN and tracking area, none exactly when no entry matches |
| Slices.CommonSnssais | component/oai-amf/src/amf-app/amf_n1.cpp:4810-4844 | exactly the requested slices that are default or single subscribed slices |
| Slices.AllServed | component/oai-amf/src/amf-app/amf_n1.cpp:4846-4893 | whether every wanted slice is in the entry's list |
| Slices.CheckSubscribedNssai | component/oai-amf/src/amf-app/amf_n1.cpp:4785-4897 | true exactly when an entry matches and the last such entry serves all of requested and subscribed slices in common, or all default slices when there are none, for any lists with duplicates |
| Slices.CheckMeaning | component/oai-amf/src/amf-app/amf_n1.cpp:4797-4893 | what the check comes to: the last entry at PLMN and tracking area has every slice that is requested and subscribed, or every default one if there is none such |
| Slices.UncommonIsSubsequence | component/oai-amf/src/amf-app/amf_n1.cpp:4421-4460 | the rejected slices are the asked ones at exactly the positions whose slice is not common, in order |
| Slices.SplitIsPartition | component/oai-amf/src/amf-app/amf_n1.cpp:4397-4460 | matched and rejected counts add up, and no slice is on both sides |
| Slices.NssaiContext.SplitNssai | component/oai-amf/src/amf-app/amf_n1.cpp:4388-4466 | allowed equals common element by element, of length 1 without a differentiator and 4 with one, and extends the stored list by exactly that; rejected, with cause 1, are the asked slices that are not common |
| Slices.RejectedAreAsked | component/oai-amf/src/amf-app/amf_n1.cpp:4397-4460 | the rejected slices are exactly the requested ones that are not common, or without any requested, the subscribed ones that are not |
| Slices.NssaiContext.Rejected | component/oai-amf/src/amf-app/amf_n1.cpp:4421-4460 | the rejection loop yields exactly the slices that are not common, in order |
| Guti.UeContextKeyInjective | component/oai-amf/src/utils/amf_conversions.cpp:347-352 | a UE context key belongs to one pair of identities |
| Guti.TmsiValue | component/oai-amf/src/utils/amf_conversions.cpp:43-52 | whatever the padding, the text of a TMSI reads back as the TMSI in decimal |
| Guti.TmsiToStringInjective | component/oai-amf/src/utils/amf_conversions.cpp:43-52 | different TMSIs have different texts |
| Guti.TmsiText | component/oai-amf/src/utils/amf_conversions.cpp:43-52 | the text digit by digit: the decimal print after seven zeros for a TMSI below 16, six below 256, and so on to none from 2^28 on |
| Guti.AmfText | component/oai-amf/src/utils/amf_conversions.cpp:391-400 | the six hexadecimal digits of an AMF identity: region, ten bits of set, six of pointer |
| Guti.TextsInOrder | component/oai-amf/src/utils/amf_conversions.cpp:347-400 | a GUTI text is PLMN, AMF identity and TMSI in this order, a looked-up one PLMN, region and 5G-S-TMSI; keys and SUPIs have their prefixes |
| Guti.GutiUnambiguous | component/oai-amf/src/utils/amf_conversions.cpp:391-400 | GUTI texts belong to one PLMN and one TMSI each, over PLMNs of five and six digits, exactly if the AMF's own identity is not one nonzero decimal digit six times over |
| Guti.AllocatedInjective | component/oai-amf/src/utils/amf_conversions.cpp:391-400 | the injectivity of GUTI texts that stability rests on |
| Guti.AllocatedCollides | component/oai-amf/src/utils/amf_conversions.cpp:391-400 | a concrete pair of UEs that share a GUTI text under AMF identity 0x111111 |
| Guti.ReattachFindsAllocated | component/oai-amf/src/utils/amf_conversions.cpp:383-400 | the text looked up for a 5G-S-TMSI is the text the GUTI was bound under |
| Guti.NamedIsNotAllocated | component/oai-amf/src/common-src/nas/5gmm-msgs/DeregistrationRequest.cpp:109-122 | the text a Deregistration Request prints for a GUTI is never the text the GUTI was bound under |
| UintGenerator.Generator.GetUid | component/oai-amf/src/utils/uint_generator.hpp:48-62 | the first identifier after the last that is not in use, so none is handed out twice; it terminates while one is free |
| UintGenerator.Generator.FreeUid | component/oai-amf/src/utils/uint_generator.hpp:64-68 | an identifier given back is the only one that leaves use; no code calls it |
| AmfTasks.NasContext.StartAuthenticationProcedure | component/oai-amf/src/amf-app/amf_n1.cpp:2297-2340 | refused exactly when a common procedure runs; otherwise authentication is marked running, even if encoding fails |
| AmfTasks.NasContext.CheckCommonProcedureOngoing | component/oai-amf/src/amf-app/amf_n1.cpp:2343-2362 | whether any of the four common procedures is marked running |
| AmfTasks.NasContext.HandleAuthVectors | component/oai-amf/src/amf-app/amf_n1.cpp:2268-2294 | vectors present, a security context not yet available if there was none, and authentication started |
| AmfTasks.NasContext.RunRegistrationProcedure | component/oai-amf/src/amf-app/amf_n1.cpp:2020-2084 | authentication for a known subscriber with vectors, an identity request otherwise, nothing for an unavailable context |
| AmfTasks.NasContext.StartSecurityModeControlProcedure | component/oai-amf/src/amf-app/amf_n1.cpp:2537-2607 | security mode control marked running; a message exactly when there is a security context and it was not available, and that message is then the only one in the log |
| AmfTasks.NasContext.HandleAuthenticationResponse | component/oai-amf/src/amf-app/amf_n1.cpp:2365-2456 | authentication ended, security mode control started exactly when confirmed |
| AmfTasks.NasContext.HandleAuthenticationFailure | component/oai-amf/src/amf-app/amf_n1.cpp:2459-2534 | authentication ended, and started again for a synchronisation failure with new vectors or a key set identifier in use with a security context |
| AmfTasks.NasContext.ProtectDownlink | component/oai-amf/src/amf-app/amf_n1.cpp:3015-3094 | the message is the protected text, it goes to the log, and only the downlink counter of the security context changes |
| AmfTasks.NasContext.Unprotect | component/oai-amf/src/amf-app/amf_n1.cpp:430-521 | the outcome of the security header switch on the context's own security context |
| AmfTasks.NasContext.AcceptService | component/oai-amf/src/amf-app/amf_n1.cpp:1295-1345 | one protected accept, logged; REGISTERED when there are sessions to activate or the message was sent; and the gNB key count, given exactly when there is a KAMF |
| AmfTasks.NasContext.AcceptRegistration | component/oai-amf/src/amf-app/amf_n1.cpp:2766-2906 | GUTI set and security mode control ended before the security context is looked for; REGISTERED only with one; the gNB key count is that of the context on arrival, given exactly when a UE context is requested |
| AmfTasks.NasContext.SendServiceReject | component/oai-amf/src/amf-app/amf_n1.cpp:1429-1465 | DEREGISTERED exactly when the reject was encoded and sent |
| AmfTasks.NasContext.RunRegistrationType | component/oai-amf/src/amf-app/amf_n1.cpp:1769-1809 | the procedure of the registration type; a mobility update without a security context registers instead |
| AmfTasks.Amf.RegistrationRequestHandle | component/oai-amf/src/amf-app/amf_n1.cpp:1468-1809 | the whole new state after a Registration Request, index entries included |
| AmfTasks.Amf.IdentityResponseHandle | component/oai-amf/src/amf-app/amf_n1.cpp:727-818 | the whole new state after an Identity Response, a new context included |
| AmfTasks.Amf.InitialServiceRequestHandle | component/oai-amf/src/amf-app/amf_n1.cpp:1036-1426 | the whole new state after an initial Service Request and the count the gNB key is derived under, if one is; the process is down where the context of the named GUTI has no security context |
| AmfTasks.Amf.ServiceRequestHandle | component/oai-amf/src/amf-app/amf_n1.cpp:821-1033 | the NAS state after a Service Request on a connection |
| AmfTasks.Amf.SecurityModeCompleteHandle | component/oai-amf/src/amf-app/amf_n1.cpp:2636-2927 | the next TMSI of the generator, the GUTI made from it bound, the whole new state, and the count the gNB key is derived under, if one is |
| AmfTasks.Amf.DeregistrationHandle | component/oai-amf/src/amf-app/amf_n1.cpp:3223-3447 | the whole new state after a deregistration: DEREGISTERED and no entries under AMF identity, SUPI and the named GUTI text |
| AmfTasks.Amf.RemoveUeContext | component/oai-amf/src/amf-app/amf_n2.cpp:2754-2791 | a released UE loses its entries by AMF identity and SUPI, and no GUTI entry; a step of the state machine that keeps its invariant |
| AmfTasks.Amf.DownlinkNasTransfer | component/oai-amf/src/amf-app/amf_n1.cpp:210-230 | a protected message, logged, exactly when the context exists and has a security context; a step that keeps the invariant |
| AmfTasks.Amf.HandoverNotifyHandle | component/oai-amf/src/amf-app/amf_n2.cpp:2107-2232 | the UE context of the new pair is there with the identities of its key, and the NAS context has the new RAN identity; a step that keeps the invariant |
| AmfTasks.Amf.NasSignallingEstablishmentRequest | component/oai-amf/src/amf-app/amf_app.cpp:474-555 | a new identity, a UE context with the identities of its key, and a queued indication that names that pair and the GUTI of the 5G-S-TMSI; a step that keeps the invariant |
| AmfTasks.Amf.UplinkNasTransport | component/oai-amf/src/amf-app/amf_n2.cpp:830-878 | an uplink message is queued behind all others, under the pair of identities it came with; a step that keeps the invariant |
| AmfTasks.Amf.NasSignallingEstablishmentRequestHandle | component/oai-amf/src/amf-app/amf_n1.cpp:543-625 | a context is created exactly when none was found, is found under the AMF identity, and the message is handled; the count of a gNB key derived on the way |
| AmfTasks.Amf.UplinkNasMsgHandle | component/oai-amf/src/amf-app/amf_n1.cpp:628-701 | the dispatch of an uplink message to its handler, and the count of the gNB key a Security Mode Complete derives |
| AmfTasks.Amf.FindContext | component/oai-amf/src/amf-app/amf_n1.cpp:370-420 | the context by GUTI or AMF identity; one found by GUTI takes over the new identities in all indexes |
| AmfTasks.Amf.OpenUplink | component/oai-amf/src/amf-app/amf_n1.cpp:370-521 | the state and outcome once the context is found and the message unprotected |
| AmfTasks.Amf.HandleUplinkNasDataInd | component/oai-amf/src/amf-app/amf_n1.cpp:352-540 | the whole uplink handler does to the objects what the abstract step does to their values; for a Security Mode Complete and a Service Request on a new connection, the gNB key is derived exactly when and under the count that step says |
| AmfTasks.Amf.RunN1 | component/oai-amf/src/amf-app/amf_n1.cpp:90-105 | one turn of the N1 task is a step of the state machine that is possible whatever the message at the head of the queue, and keeps the invariant on the objects; gNB keys as in HandleUplinkNasDataInd |
| HandlerEffects.FindingEffects | component/oai-amf/src/amf-app/amf_n1.cpp:370-420 | the context a message is for: by GUTI text if it brings one, else by AMF identity; one found by GUTI takes the new pair, keeps the former beside it, and is found under the new AMF identity and its SUPI |
| HandlerEffects.UncipheredIsHandled | component/oai-amf/src/amf-app/amf_n1.cpp:430-540 | a plain or integrity protected message is handled as exactly the text it carries, and a new connection with exactly its sequence octet as uplink count, whatever the MAC and the context |
| HandlerEffects.CipheredIsHandled | component/oai-amf/src/amf-app/amf_n1.cpp:456-540 | a ciphered message moves the uplink number of its context, delivered or not, and what it delivers is handled with uplink count 0; without security it is dropped |
| HandlerEffects.EstablishEffects | component/oai-amf/src/amf-app/amf_n1.cpp:543-625 | a context with nothing but the pair exactly if none was found, the index entry for either, and which handler goes on with what |
| HandlerEffects.RegistrationEffects | component/oai-amf/src/amf-app/amf_n1.cpp:1468-1809 | a Registration Request, field by field: the identity it names, the new pair, the context armed for a new command, key set identifier and capability, and all seven index entries |
| HandlerEffects.RegistrationTypeEffects | component/oai-amf/src/amf-app/amf_n1.cpp:1769-1809 | initial registrations, and mobility updates without security, run the registration procedure; mobility updates with it, and periodic ones, send one protected accept if it encodes |
| HandlerEffects.ProcedureEffects | component/oai-amf/src/amf-app/amf_n1.cpp:2020-2084 | the registration procedure, field by field: vectors taken, key set identifier, security context made if there was none, authentication marked unless a common procedure is |
| HandlerEffects.AuthenticationResponseEffects | component/oai-amf/src/amf-app/amf_n1.cpp:2365-2456 | the KAMF of the confirmation is taken over; confirmed and with a context not yet available, the command goes out as message 0 with the selected algorithms, under keys from that KAMF, octet by octet |
| HandlerEffects.AuthenticationFailureEffects | component/oai-amf/src/amf-app/amf_n1.cpp:2459-2534 | new vectors and their KAMF after a synchronisation failure (21), the next key set identifier of seven after one in use (71), and nothing else of the context |
| HandlerEffects.CompletionEffects | component/oai-amf/src/amf-app/amf_n1.cpp:2636-2927 | a Security Mode Complete: GUTI bound from the TMSI, security mode ended, and with security one accept sent, octet by octet, and REGISTERED; the gNB key is derived exactly if a UE context is asked for |
| HandlerEffects.ServiceRequestEffects | component/oai-amf/src/amf-app/amf_n1.cpp:821-1033 | a Service Request on a connection: with some session 1 to 15 named by Uplink Data Status, else PDU Session Status, exactly one protected message and the state as it was; with none, nothing sent and DEREGISTERED exactly if the reject is encoded and sent |
| HandlerEffects.FormerEffects | component/oai-amf/src/amf-app/amf_n1.cpp:1052-1063 | the context a Service Request recalls: looked up under PLMN of the UE context, region of the AMF, and set, pointer and TMSI of the message, if the context it came for has no GUTI |
| HandlerEffects.RecallEffects | component/oai-amf/src/amf-app/amf_n1.cpp:1064-1077 | exactly what is taken over from that context: security with the new uplink number, KAMF, capability and subscriber |
| HandlerEffects.InitialServiceEffects | component/oai-amf/src/amf-app/amf_n1.cpp:1036-1426 | a Service Request on a new connection: rejected without security, else one message sent under it and REGISTERED if sessions were named or it was sent; found in every index; and when a gNB key is derived |
| HandlerEffects.IdentityEffects | component/oai-amf/src/amf-app/amf_n1.cpp:727-818 | an Identity Response: subscriber and pair taken, context made if there was none, the SUPI recorded, and the registration procedure run exactly if the context waits for it |
| HandlerEffects.DeregistrationEffects | component/oai-amf/src/amf-app/amf_n1.cpp:3223-3447 | deregistered and gone from the three indexes, if the context's own pair has a UE context and the accept encodes or is not needed |
| HandlerEffects.ConnectionEffects | component/oai-amf/src/amf-app/amf_app.cpp:474-555 | a new connection: next identity of 32 bits, UE context of the pair, and an indication behind all others |
| HandlerEffects.TransferEffects | component/oai-amf/src/amf-app/amf_n1.cpp:210-230 | exactly one protected message under the context of the AMF identity, octet by octet, if it has security |
| HandlerEffects.ReleaseEffects | component/oai-amf/src/amf-app/amf_n2.cpp:2754-2791 | a released UE loses two index entries, and the context and its GUTI entry stay |
| HandlerEffects.HandoverEffects | component/oai-amf/src/amf-app/amf_n2.cpp:2107-2232 | the UE context of the new pair, made or kept, on the PLMN of the message, and the new RAN identity |
| NasContexts.RunRegistrationKeepsSound | component/oai-amf/src/amf-app/amf_n1.cpp:2020-2084 | keeps exclusion, security of registered contexts, and the channel history |
| NasContexts.AuthenticationResponseKeepsSound | component/oai-amf/src/amf-app/amf_n1.cpp:2365-2456 | the same across confirmation, rejection and a failed start of security mode control |
| NasContexts.AuthenticationFailureKeepsSound | component/oai-amf/src/amf-app/amf_n1.cpp:2459-2534 | the same across resynchronisation and a key set identifier in use |
| NasContexts.FailureRestarts | component/oai-amf/src/amf-app/amf_n1.cpp:2459-2534 | after a failure authentication runs again exactly for a synchronisation failure with new vectors, or a key set identifier in use with a security context, and only while no other common procedure runs; a new key set identifier is taken in the latter case |
| RegistrationSafety.RegisterQuiet | component/oai-amf/src/amf-app/amf_n1.cpp:1468-1809 | a Registration Request keeps the invariant, forgets nothing, and leaves GUTIs alone |
| RegistrationSafety.IdentifyKept | component/oai-amf/src/amf-app/amf_n1.cpp:727-818 | so does an Identity Response, under any pair of identities; the pair it records for the SUPI resolves exactly if it has a UE context |
| RegistrationSafety.ServeInitialQuiet | component/oai-amf/src/amf-app/amf_n1.cpp:1036-1426 | so does an initial Service Request, also one that ends the process |
| RegistrationSafety.ServeConnectedQuiet | component/oai-amf/src/amf-app/amf_n1.cpp:821-1033 | so does a Service Request on a connection |
| RegistrationSafety.CompleteGood | component/oai-amf/src/amf-app/amf_n1.cpp:2636-2927 | a Security Mode Complete keeps the invariant and forgets nothing |
| RegistrationSafety.DeregisterGood | component/oai-amf/src/amf-app/amf_n1.cpp:3223-3447 | so does a deregistration |
| RegistrationSafety.ConnectGood | component/oai-amf/src/amf-app/amf_app.cpp:474-555 | so does a new signalling connection |
| RegistrationSafety.HandOverGood | component/oai-amf/src/amf-app/amf_n2.cpp:2107-2232 | so does a handover notification |
| RegistrationSafety.NextKept | component/oai-amf/src/amf-app/amf_n1.cpp:352-540 | every event of the tasks keeps the invariant and forgets no context, security context, UE context, recorded SUPI or issued TMSI; recorded pairs that resolved go on doing so, except after an Identity Response under a pair without a UE context, after which they do not |
| RegistrationSafety.CommonProcedureExclusion | component/oai-amf/src/amf-app/amf_n1.cpp:2297-2308 | in every reachable state authentication and security mode control are never both marked running |
| RegistrationSafety.RegisteredIsSecured | component/oai-amf/src/amf-app/amf_n1.cpp:2770-2773 | in every reachable state a registered context has a security context, and one once present stays |
| RegistrationSafety.DownlinkNumbering | component/oai-amf/src/amf-app/amf_n1.cpp:3061-3093 | in every reachable state, of every context with security: the messages its handlers protected since its counters were last at zero are numbered in order, the Security Mode Command being number 0; the downlink counter is their number and both overflow counters are zero; and the holder of the keys recovers each of them under ciphering algorithms 0 to 2 |
| RegistrationSafety.CountsRepeat | component/oai-amf/src/amf-app/amf_n1.cpp:3061-3093 | in every reachable state, under a MAC, two logged messages carry the same COUNT exactly if their numbers differ by a multiple of 256 |
| RegistrationSafety.StandardPeerWhileZero | component/oai-amf/src/amf-app/amf_n1.cpp:3115-3120 | in every reachable state, of every context with security: a UE that follows the standard is understood, whatever the primitives are, exactly if its own overflow counter is still zero, or there is neither a MAC nor anything ciphered; under ciphering algorithms 0 to 2 |
| RegistrationSafety.UeContextsAgree | component/oai-amf/src/amf-app/amf_app.cpp:474-555 | in every reachable state both identities are recorded for a SUPI or none, UE contexts carry the identities of their key, and SUPIs of UE contexts and queued new connections lead to one |
| RegistrationSafety.RoutingResolves | component/oai-amf/src/amf-app/amf_n1.cpp:4484-4493 | over every run from the start: the pair recorded for each SUPI leads to a UE context throughout, exactly if no event handles an Identity Response under a pair without a UE context |
| RegistrationRuns.MisrecordIsReachable | component/oai-amf/src/amf-app/amf_n1.cpp:747-778 | the failing run: a connection, and an Identity Response under its RAN identity and another AMF identity, which N2 passes on |
| RegistrationSafety.NextKeepsGutis | component/oai-amf/src/amf-app/amf_n1.cpp:1904-1931 | no event gives an issued GUTI to another context, or takes one away that it does not name |
| RegistrationSafety.GutiStability | component/oai-amf/src/amf-app/amf_n1.cpp:2744-2767 | outside the repeating AMF identities, from any good state, over any run, an issued GUTI leads to the same context or none, and to none only after a deregistration that named it |
| RegistrationSafety.GutiStableFromStart | component/oai-amf/src/amf-app/amf_n1.cpp:2744-2767 | the same for every GUTI bound at any time since the AMF started; RegistrationRuns.GutiStabilityExactly has the other direction |
| RegistrationRuns.GutiStabilityExactly | component/oai-amf/src/utils/amf_conversions.cpp:391-400 | over all runs from the start, TMSIs counted up as the generator does, every bound GUTI leads to its context, or to none after a deregistration that named it, exactly if the AMF identity is not one nonzero decimal digit six times over |
| RegistrationRuns.GutiMoves | component/oai-amf/src/amf-app/amf_n1.cpp:2744-2767 | the failing run: under such an AMF identity, a completion on a six-digit PLMN under TMSI 1 or 10, then completions on a five-digit PLMN until the generator comes to the colliding TMSI; the second context takes the GUTI of the first |
| RegistrationRuns.CountUp | component/oai-amf/src/utils/uint_generator.hpp:48-62 | completion after completion on one connection brings the TMSI generator from its value to any larger one, each time the next number |
| RegistrationRuns.CrashExactly | component/oai-amf/src/amf-app/amf_n1.cpp:1063-1067 | a step ends the process by this exception exactly when its message gets through as a decoded Service Request on a new connection, the context it is handled under has no GUTI, and the GUTI it names leads to a context without a security context |
| RegistrationRuns.DownExactly | component/oai-amf/src/amf-app/amf_n1.cpp:90-105 | over every run from the start: the process is down afterwards exactly if the last message was such a one, and a run does not go on after it |
| RegistrationRuns.CrashIsReachable | component/oai-amf/src/amf-app/amf_n1.cpp:2766-2773 | a run from the start that ends the process: a connection never secured, a plain Security Mode Complete on it, and a plain Service Request naming the GUTI that bound |
| RegistrationRuns.QueueNeverStuck | component/oai-amf/src/amf-app/amf_n1.cpp:90-105 | in every reachable state with the process up and TMSIs left, the N1 task can take the next message, whatever it is |
| RegistrationRuns.LatePeerIsLost | component/oai-amf/src/amf-app/amf_n1.cpp:3115-3120 | a run from the start: an initial registration up to a security mode command that selects a MAC; then a message the UE protects under any COUNT past its first 256 is dropped, and of it only the sequence number stays, if the MAC tells counts apart |
| RegistrationFlow.RegistrationSucceeds | component/oai-amf/src/amf-app/amf_n1.cpp:1468-1809 | an initial registration by SUCI that gets good answers succeeds from every reachable state: registered, found under all indexes, with the preferred algorithms the UE supports, the command and the accept being messages 0 and 1 of its log |
| RegistrationFlow.ReattachmentFindsContext | component/oai-amf/src/amf-app/amf_n1.cpp:370-410 | a UE that returns with its 5G-S-TMSI on the same PLMN finds the context it had, with its security context, rebound to the new identities |
| RegistrationFlow.ServiceRequestResumes | component/oai-amf/src/amf-app/amf_n1.cpp:1052-1110 | a Service Request on a new connection goes on with the keys and the next downlink number of the context its GUTI names |
| RegistrationFlow.CopiedContextsShareCount | component/oai-amf/src/amf-app/amf_n1.cpp:1064-1077 | what the copy of a security context does to numbering: the new context's log is the older one's and the accept, and the next message under the older context goes out with the same keys under the same COUNT as the accept |
| RegistrationFlow.DeregistrationLeavesGuti | component/oai-amf/src/amf-app/amf_n1.cpp:3386-3415 | a UE that deregisters with the GUTI it was given is gone from the indexes by AMF identity and SUPI, while its GUTI entry stays |
| Nrf.NrfClient.RegisterToNrfs | component/oai-amf/src/amf-app/amf_app.cpp:1500-1523 | one request for each appropriate NRF |
| Nrf.NrfClient.StartHeartbeat | component/oai-amf/src/amf-app/amf_app.cpp:974-979 | a timer is armed, and its identity kept only if it is the first for its NRF |
| Nrf.NrfClient.HandleResponse | component/oai-amf/src/amf-app/amf_app.cpp:960-988 | a registration response leads to a heartbeat or retry timer; an update response (1016-1039) to a heartbeat timer and the registered mark, or to a new registration |
| Nrf.NrfClient.HandleTimeout | component/oai-amf/src/amf-app/amf_app.cpp:1654-1684 | a heartbeat timeout sends an update, a retry timeout a registration |
| Nrf.HandleEffects | component/oai-amf/src/amf-app/amf_app.cpp:960-1039 | 200 and 201 to a registration arm a heartbeat after the interval of the answer, 200 and 204 to an update the next one and mark the NRF as registered; others are tried again after 20 seconds, or at once; the first timer identity is the one kept |
| Nrf.ExpireAndAnswerEffects | component/oai-amf/src/amf-app/amf_app.cpp:1654-1684 | a due heartbeat sends an update and a retry a registration, and an answer goes back to the NRF's request |
| Nrf.GoodHeartbeat | component/oai-amf/src/amf-app/amf_app.cpp:1016-1039 | a good heartbeat from timer to timer: update, answer, and the same interval again |
| Nrf.TokensConserved | component/oai-amf/src/amf-app/amf_app.cpp:960-1039 | each response and timeout handler, and SBI, replaces one message or timer of an NRF by exactly one of the same NRF; only starting registration adds one |
| Nrf.HeartbeatsNeitherDieNorFork | component/oai-amf/src/amf-app/amf_app.cpp:960-1039 | over every run an NRF has exactly as many messages and timers as registration was started for it |
| Nrf.OneHeartbeatEach | component/oai-amf/src/amf-app/amf_app.cpp:1500-1523 | started once, an NRF has one message or one timer at any time, and not both |
| Nrf.TokenIsEnabled | component/oai-amf/src/amf-app/amf_app.cpp:1654-1684 | a token is a message to answer or handle, or a timer to expire |
| Nrf.RegisteredHaveTimers | component/oai-amf/src/amf-app/amf_app.cpp:1027-1038 | registered NRFs always have a timer identity, and timer identities belong to NRFs whose heartbeat goes on |
| Promises.PromiseTable.AddPromise | component/oai-amf/src/amf-app/amf_app.cpp:1687-1692 | an identifier already in the table keeps its promise; the objects take the step of the interleaving model |
| Promises.PromiseTable.TriggerProcessResponse | component/oai-amf/src/amf-app/amf_app.cpp:1695-1707 | an answer sets the promise of its identifier, which was not set before, and takes it out; without one nothing changes |
| Promises.StepEffects | component/oai-amf/src/amf-app/amf_app.cpp:1687-1707 | a promise waits under its identifier unless that is taken, and an answer takes it out, is added to what it was set to, and touches no other |
| Promises.SetAtMostOnce | component/oai-amf/src/amf-app/amf_app.cpp:1687-1707 | in every interleaving of adds and answers each promise is set at most once and keeps its value |
| Promises.RepeatedAnswer | component/oai-amf/src/amf-app/amf_app.cpp:1695-1707 | a second answer to an identifier changes nothing |
| Promises.FirstAnswerSettles | component/oai-amf/src/amf-app/amf_app.cpp:1695-1707 | however answers arrive, a waiting promise is set to the first that names its identifier, and waits on exactly if none does |
| Promises.TriggerPduSessionRelease | component/oai-amf/src/amf-app/amf_app.cpp:1710-1777 | exactly one request per session and every promise awaited once, by ascending identifier; all sessions are gone if some promise in the table had been set to a success by the time it was waited on, and all kept otherwise; the deregistration handler (amf_n1.cpp:3256-3318) has the same loop |
| Promises.TriggerPduSessionUpDeactivation | component/oai-amf/src/amf-app/amf_app.cpp:1780-1863 | exactly one request per session, awaited by ascending session identity, and exactly the sessions whose own promise had been set to a success by then are deactivated |
| Subscriptions.OwnText | component/oai-amf/src/amf-app/amf_app.cpp:1088-1096 | an identifier's own text reads back as the identifier exactly if it is below 2^31 |
| Subscriptions.WrappedText | component/oai-amf/src/amf-app/amf_app.cpp:1088-1096 | from 2^31 on, the text of the negative number it wraps around from names the identifier |
| Subscriptions.StoiReads | component/oai-amf/src/amf-app/amf_app.cpp:1088-1096 | what std::stoi reads, whatever is around it: white space, sign or none, digits, and a rest; and that it throws exactly outside 32 bits |
| Subscriptions.SubscriptionRoundTrip | component/oai-amf/src/amf-app/amf_app.cpp:729-791 | unsubscribing with the returned text removes exactly the entry and answers 204, and a repeat answers 400, exactly for identifiers below 2^31; above, it answers 400 and changes nothing |
| Subscriptions.NonUeRoundTrip | component/oai-amf/src/amf-app/amf_app.cpp:794-857 | the same for subscriptions to N2 information |
| Subscriptions.UnsubscribeIsLocal | component/oai-amf/src/amf-app/amf_app.cpp:1082-1106 | unsubscribing takes away at most the entry named, never from the other table, and gives no identifier back |
| Subscriptions.SubscribedSound | component/oai-amf/src/amf-app/amf_app.cpp:737-747 | a new identifier keeps the two tables without a common identifier |
| Subscriptions.NonUeSubscribedSound | component/oai-amf/src/amf-app/amf_app.cpp:801-808 | the same from the other side |
| Subscriptions.SubscriptionTables.N1N2MessageSubscribe | component/oai-amf/src/amf-app/amf_app.cpp:729-764 | a new identifier, its text returned, and one entry more |
| Subscriptions.SubscriptionTables.N1N2MessageUnsubscribe | component/oai-amf/src/amf-app/amf_app.cpp:1082-1106 | the table and the answer after an unsubscription, for every text |
| Subscriptions.SubscriptionTables.NonUeN2InfoSubscribe | component/oai-amf/src/amf-app/amf_app.cpp:794-830 | a new identifier from the same generator, and one entry more |
| Subscriptions.SubscriptionTables.NonUeN2InfoUnsubscribe | component/oai-amf/src/amf-app/amf_app.cpp:1163-1186 | the table and the answer after an unsubscription, for every text |

## Left out

- Cryptographic primitives, key derivation, AUSF and UDM exchanges: their results are arbitrary.
- NAS, NGAP and JSON codecs, YAML parsing, HTTP, ITTI internals, logging, statistics and event exposure: input and output plumbing; decoded messages are datatypes.
- Messages to N2 and other functions, apart from protected NAS messages: the model says what state a handler leaves, not which rejects, releases or notifications it sends.
- Timers of NAS procedures, mobile reachability and implicit deregistration: their handlers do not change the modelled state.
- Fields of a NAS context that nothing modelled reads: serving network, registration type, IMEISV, timers, capabilities other than the algorithms, and the slice lists, which `Slices` has on its own.
- AmfTasks.Amf.NasSignallingEstablishmentRequest: UE contexts are values held under their key, so that the map from SUPI names a key instead of sharing the object; no modelled handler puts one UE context under two keys. Cell, gNB and RRC data are not modelled.
- NasUplink.UnprotectUplink: secured messages of fewer than seven octets are excluded; the source reads past them and passes negative lengths on, which has no defined meaning.
- AmfTasks.NasContext.Unprotect: the same.
- AmfTasks.Amf.OpenUplink: the same.
- AmfTasks.Amf.HandleUplinkNasDataInd: the same; and the gNB key that a mobility registration update derives and does not use (amf_n1.cpp:3689-3697).
- AmfTasks.Amf.RunN1: the same key; short messages are excluded where they would arrive, not here.
- AmfTasks.Amf.DownlinkNasTransfer: the gNB key of an initial context setup (amf_n1.cpp:300-310) is not part of the contract.
- AmfTasks.Amf.ServiceRequestHandle: the four-argument overload is modelled for its effect on NAS state only; its reply words are set before the loop and are not part of the model.
- AmfTasks.Amf.InitialServiceRequestHandle: the text of the accept is arbitrary; what its status and reactivation words are is in `PduSessions.UeSessions.Reactivate`, and that they are what is encoded is not part of the model.
- AmfTasks.Amf.DeregistrationHandle: the release of PDU sessions is in `Promises` and not part of this step.
- AmfTasks.Amf.HandoverNotifyHandle: the exchange with the SMF and the NGAP context are not modelled, and neither is the key for the next hop of a handover (amf_n2.cpp:1784-1796).
- RegistrationRuns.CrashExactly: the process counts as down after the uncaught exception of amf_n1.cpp:1066-1067 only; undefined behaviour elsewhere, as erasing an end iterator from `rand_record` (amf_n1.cpp:2212-2213), is not modelled.
- RegistrationRuns.DownExactly: the same.
- PduSessions.UeSessions.TriggerUpActivation: the exchange with the SMF through a promise is given as a reply.
- PduSessions.UeSessions.Reactivate: the SMF's answers are given per session; that they arrive through the promise table is not modelled here.
- Promises.TriggerPduSessionRelease: promise identifiers are taken as distinct and not in use, although the source truncates a 64-bit identifier to 32 bits; no other task changes the session table, or adds a promise, during the loop; how long a wait lasts is in which answers arrive during it.
- Promises.TriggerPduSessionUpDeactivation: the same.
- Nrf.HeartbeatsNeitherDieNorFork: deregistration from an NRF is not an event, SBI answers every request, and sending does not fail.
- The target AMF side of a reroute (`itti_sbi_n1_message_notification`), `get_amf_set_id`, `amf_config` to and from JSON, `remove_event_subscription`, and the return value of the all-sessions `trigger_pdu_session_up_activation`.
- `check_requested_nssai`, whose only call is commented out, and the search for a target AMF.

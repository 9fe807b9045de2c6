# MQTT Bridge: a verified model

This project models the parts of the enigma2 MQTT Bridge - a plugin that connects a satellite receiver to an MQTT
broker and to Home Assistant - whose promises span whole runs, and proves those promises in Dafny 4.11. `dafny verify
dfyconfig.toml` checks everything.

Nine cores are modelled, each in its own modules:

| core | modules | what is proved |
|---|---|---|
| Ed25519 verification | `PrimeField`, `EdwardsAlgebra`, `EdwardsGroup`, `EdwardsScalar`, `Ed25519`, `RootOfMinusOne` | the projective formulas compute a complete, associative group law; decoding is canonical; `verify` accepts exactly the signatures the equation accepts |
| Lists of choices | `ChoiceListSpec`, `ChoiceListProofs`, `ChoiceListLaws`, `ChoiceList` | one outcome per list in every run, bounded waiting, and what each event does |
| Retained topics | `Packet`, `Json`, `Discovery`, `Retained`, `RetainedLaws`, `Bridge` | canonical JSON tells all values apart; broker, state file, change cache and Home Assistant agree |
| Release index | `Trust`, `ReleaseIndex`, `ReleaseLaws`, `KeyEvolution`, `StoredState` | serials only rise on any branch history and in any reader, recovery works, key sets only move up |
| Rasteriser | `Coverage` | exact coverage under the non-zero winding rule |
| CEC standby workaround | `CecSpec`, `CecProofs`, `CecLaws`, `Cec` | only the television's entries are ever removed, the flag is always given back |
| EPG grid | `Decimal`, `GridJson`, `GridText`, `EpgFitting`, `EpgGrid`, `EpgRows` | the largest grid that fits one packet, in few measurements; batches build what one lookup builds |
| Bouquet slugs | `Channels` | distinct topics, with the least free number |
| Contract compatibility | `Contract`, `ContractLaws` | exactly what is reported, and a preorder over chains of releases |

## How the model is built

Code that updates fields is a class (`ListPublisher`, `Node`, `StateStore`, `History`, `CecPublisher`, `Fitter`,
`GridState`, `GridBuilder`) or a method with the source's loop. Each such method is proved to take one step of a
function on the model's state, and the promises are lemmas about that function and about every run of it. The modules
named `...Laws`, and `EpgRows`, say what each step does on the fields alone, without the helpers it is built from.
What the plugin cannot decide - whether a client takes a publish, a screen opens, a timer starts, the info bar drains
the queue - is an argument of the step, so every statement holds for every answer.

Three facts about published constants are hypotheses, gathered in `Ed25519.NumberTheory`: P is prime, D is no square
modulo P, and the base point has order L. Fermat's little theorem and the associativity of the curve's addition are
proved. The hash is any function from bytes to bytes.

Hypotheses about the outside, each named where it is used: a publish the client took reaches the broker, and nobody
else writes the node's topics; an EPG lookup answers channel by channel (`EpgGrid.Distributes`); the image sets its CEC
flag to True only around the television's queueing call, and no other notification is queued inside that bracket; two
key sets with different ids never have the same fingerprint (`StoredState.Distinguishes`). The retained-topic results
hold for any canonical encoder (`Retained.Canonical`); the bridge's own is proved to be one.

Every lemma carries `{:induction false}`: each proof is the one written.

## Where the code and its documentation differ

- `retract` forgets a topic without asking whether the client took the retraction, although `_take_back` states the
  opposite rule. The model follows the code; `Retained.KnownExactly` says exactly when that loses a topic.
- `publish_discovery` records a payload's components although the client may not have taken it. The comment speaks
  only of a withheld payload; `Retained.AnnouncementKeepsRecord` says exactly when the record goes wrong, and
  `Retained.DiscoverCanLose` shows it going wrong.
- `_least_added` is described as a floor for any count. From no event to the first, where the code never asks because
  a remembered cut is at least 1, the first event of each list takes no comma: `GridJson.FloorFromNoneExactly` says
  exactly when it is a floor there.
- `check_record` leaves a date that changes to `compare`, which "may never change" it. Across a new major `compare`
  looks at nothing, so there it may (`Contract.NextMajorMayRedate`).
- A held CEC flag is overwritten by the television's own bracket during the close: `CecProofs.HoldLasts` says that
  nothing else does it and that only the next close writes it again, and `CecProofs.HoldOverwritten` is a run in which
  it happens. That the echo is always stopped is not claimed.
- `key_evolution_problems` calls readers safe even when a release drops a key above one it keeps, because a silenced
  key stays silenced. It does (`StoredState.SilencedForGood`), but a key that a later release ranks between the two is
  accepted below the one that was (`StoredState.WithoutTheLastRule`).

## Model

| member | source | states |
|---|---|---|
| PrimeField.Fermat | src/MQTTBridge/ed25519.py:81 | `pow(a, p - 1, p)` is 1 for every `a` that `p` does not divide: why `pow(z, P - 2, P)` divides |
| PrimeField.InverseIs | src/MQTTBridge/ed25519.py:81 | `pow(z, p - 2, p)` times `z` is 1 modulo a prime `p`, for every non-zero `z` |
| PrimeField.QuotientExactly | src/MQTTBridge/ed25519.py:81 | `x` is `a * pow(z, p - 2, p) % p` exactly when `x` is canonical and `x * z` is `a` modulo p |
| EdwardsGroup.DenominatorsNonZero | src/MQTTBridge/ed25519.py:49-56 | the denominators `1 + e` and `1 - e` of the curve's addition never vanish when D is no square and -1 is one: the formula is complete |
| EdwardsGroup.SumUnique | src/MQTTBridge/ed25519.py:49-56 | the sum is the only canonical pair that solves the two equations of the addition law |
| EdwardsGroup.SumOnCurve | src/MQTTBridge/ed25519.py:49-56 | the sum of two points of the curve is on the curve |
| EdwardsGroup.SumCommutes | src/MQTTBridge/ed25519.py:49-56 | addition is commutative |
| EdwardsGroup.Associative | src/MQTTBridge/ed25519.py:49-56 | addition is associative on the whole curve - proved, not assumed |
| EdwardsScalar.MultipleStarts | src/MQTTBridge/ed25519.py:59-66 | no time a point is the neutral element (0, 1), once it is the point |
| EdwardsScalar.MultipleAdd | src/MQTTBridge/ed25519.py:59-66 | `(m + n) a = m a + n a` for the fold of the addition |
| EdwardsScalar.MultiplesDiffer | src/MQTTBridge/ed25519.py:124-126 | below the order of a point, different scalars give different multiples |
| EdwardsScalar.MultipleReduced | src/MQTTBridge/ed25519.py:127 | a scalar may be reduced modulo the order of its point |
| Ed25519.ValidMeansOne | src/MQTTBridge/ed25519.py:45 | a point in extended coordinates with Z non-zero and X Y = Z T stands for exactly one affine point with canonical coordinates, and that one is on the curve |
| Ed25519.AddCorrect | src/MQTTBridge/ed25519.py:49-56 | `_add` of two valid points is valid - its Z is never 0 - and stands for their affine sum, doubling included |
| Ed25519.EqualCorrect | src/MQTTBridge/ed25519.py:69-73 | comparing both coordinates projectively is true exactly when the two points stand for the same affine point |
| Ed25519.Multiply | src/MQTTBridge/ed25519.py:59-66 | the double-and-add loop returns a valid point that stands for the scalar-fold sum of its argument, for every scalar |
| Ed25519.RecoverDenominator | src/MQTTBridge/ed25519.py:81 | `D y^2 + 1` is never 0, so the division in `_recover_x` is one |
| Ed25519.CandidateRoot | src/MQTTBridge/ed25519.py:85-88 | the square of the candidate root of a non-zero square is that square or its negative |
| Ed25519.RecoverXCorrect | src/MQTTBridge/ed25519.py:76-92 | `_recover_x` returns a canonical x with this y and sign on the curve, and None exactly when there is none |
| Ed25519.XUnique | src/MQTTBridge/ed25519.py:76-92 | at most one canonical x has a given y and sign |
| Ed25519.RecoverFinds | src/MQTTBridge/ed25519.py:76-92 | whenever a canonical x with this y and sign exists, `_recover_x` returns it |
| Ed25519.RootDoesNotMatter | src/MQTTBridge/ed25519.py:85-88 | `_recover_x` gives the same answer whichever of the two roots of -1 it multiplies by |
| Ed25519.LittleGrows | src/MQTTBridge/ed25519.py:102-103 | bytes are read little-endian: the byte behind n others counts 256 to the power n |
| Ed25519.EncodedParts | src/MQTTBridge/ed25519.py:95-105 | an encoding is y, with the parity of x in the top bit |
| Ed25519.DecodeThenEncode | src/MQTTBridge/ed25519.py:95-105 | a decoded point is a valid point with Z = 1, and encoding it gives back the same 32 bytes |
| Ed25519.DecodingIsCanonical | src/MQTTBridge/ed25519.py:95-105 | two encodings that decode to equal points are the same bytes, and a failed decoding names no point of the curve |
| Ed25519.EncodeThenDecode | tools/make-index-vectors.py:111-115 | every valid point's encoding has 32 bytes and decodes to an equal point |
| Ed25519.Verify | src/MQTTBridge/ed25519.py:113-128 | `verify` is true exactly when the lengths are right, both points decode, S is below L and [S]B = R + [k]A holds in the group |
| Ed25519.AcceptedExactly | src/MQTTBridge/ed25519.py:113-128 | what is accepted, with nothing but the decodings named: the hash is of R, the key and the message in this order, modulo L |
| Ed25519.SignatureUnique | src/MQTTBridge/ed25519.py:124-126 | for one key, message and R at most one signature is accepted, whatever the hash |
| Ed25519.HonestSignatureAccepted | src/MQTTBridge/ed25519.py:113-128 | a signature made with the key's secret scalar, any nonce and the hash of R, the key and the message is accepted (section 5.1.6 of RFC 8032) |
| Ed25519.ConstantsSound | src/MQTTBridge/ed25519.py:36-43 | the published constants meet everything the proofs need, given that P is prime, D is no square and B has order L |
| Ed25519.ConstantsDivided | src/MQTTBridge/ed25519.py:39 | the written-out D and y of B are the quotients the module computes |
| RootOfMinusOne.RootIsThePower | src/MQTTBridge/ed25519.py:40 | `pow(2, (P - 1) // 4, P)` is the written-out root of -1, squaring by squaring |
| Ed25519.BaseRecovered | src/MQTTBridge/ed25519.py:108-110 | the written-out x of B is the one `_recover_x` finds |
| ChoiceListProofs.StepKeeps | src/MQTTBridge/choicelist.py:1169-1371 | every step - command, key, tick, retry, screen closing, standby, stop, skin reload - keeps: one open list at most, every ended list has its one outcome and it matches its ending, a waiting list has a running timer with fewer than 40 turns counted |
| ChoiceListProofs.OneOutcomeEach | src/MQTTBridge/choicelist.py:1350-1371 | in every run from the start, a list that has ended has exactly one outcome - one answer or one refusal, never both - and one that has not ended has none; never two lists open |
| ChoiceListProofs.EndingsAreFinal | src/MQTTBridge/choicelist.py:1350-1369 | no step changes an ending, takes an outcome back, or makes an older list wait again |
| ChoiceListProofs.WaitIsBounded | src/MQTTBridge/choicelist.py:1235-1250 | a list that still waits has seen fewer than 40 turns of its timer, whatever happened between them |
| ChoiceListProofs.StaysSettled | src/MQTTBridge/choicelist.py:1198-1222 | a list that no longer waits never waits again |
| ChoiceListProofs.RequestReplaces | src/MQTTBridge/choicelist.py:1183-1194 | an accepted command ends every open older list `replaced`, leaves every other ending alone and adds exactly one list |
| ChoiceListProofs.ClosedMeansClosed | src/MQTTBridge/choicelist.py:1148-1165 | after standby or stop no list is open |
| ChoiceListProofs.TimeoutIsDue | src/MQTTBridge/choicelist.py:1331-1337 | a list ends `timeout` only on a tick of its own countdown, while it is on the screen and its deadline has come |
| ChoiceListProofs.StepScreened | src/MQTTBridge/choicelist.py:1257-1346 | every step that leaves a list on the screen leaves its deadline alone, and the one that puts it there sets the deadline to its clock plus the whole timeout |
| ChoiceListProofs.WholeTimeoutOnScreen | src/MQTTBridge/choicelist.py:1286-1337 | in every run, a list that ends `timeout` has been on the screen without a break since some step, and the tick that ends it comes no earlier than that step's clock plus its timeout, less half a millisecond |
| ChoiceListLaws.TickDecides | src/MQTTBridge/choicelist.py:1331-1346 | a tick at the deadline, or half a millisecond before it, ends the list `timeout` with its default; an earlier one changes nothing while the timer starts again, and ends the list `closed` when it does not |
| ChoiceListLaws.OkDecides | src/MQTTBridge/choicelist.py:386-389 | OK on an offered row of an open list picks that row; anything else is ignored |
| ChoiceListLaws.CancelDecides | src/MQTTBridge/choicelist.py:391-393 | cancel ends an open list `dismissed` |
| ChoiceListLaws.KeyDecides | src/MQTTBridge/choicelist.py:395-402 | a key picks the first row that has it; a key no row has is ignored |
| ChoiceListLaws.OpeningDecides | src/MQTTBridge/choicelist.py:1198-1255 | a list that may be opened is shown on a free session whose screen opens - styled, or the image's own - with its deadline a whole timeout away; it waits on while the session is busy and the timer runs; else it is refused, once |
| ChoiceListLaws.RequestDecides | src/MQTTBridge/choicelist.py:1169-1194 | an accepted command ends every open list `replaced`, adds one list, and that one is shown, waits or is refused |
| ChoiceListLaws.RequestIgnored | src/MQTTBridge/choicelist.py:1169-1182 | a command that breaks the contract, comes in standby or finds no screen to use changes nothing |
| ChoiceListLaws.RetryDecides | src/MQTTBridge/choicelist.py:1235-1250 | the fortieth turn in vain refuses the list; any other tries it again |
| ChoiceListLaws.GoneDecides | src/MQTTBridge/choicelist.py:1303-1320 | a screen that closes ends its list `closed` unless it ended before, and a waiting list gets its turn |
| ChoiceListLaws.ClosingDecides | src/MQTTBridge/choicelist.py:1148-1165 | standby and stop end every open list `closed` |
| ChoiceList.ListPublisher.Request | src/MQTTBridge/choicelist.py:1169-1194 | the method takes the request step, and its refusal says which of the four reasons applied and whether the new list could not be shown |
| ChoiceList.ListPublisher.EndList | src/MQTTBridge/choicelist.py:1350-1369 | the first ending wins: a second one changes nothing and returns False |
| ChoiceList.ListPublisher.ShowList | src/MQTTBridge/choicelist.py:1257-1292 | a list is shown by the styled screen, or by the image's own when that fails, and a styled screen that failed is not tried again |
| ChoiceList.ListPublisher.OpenWaitingList | src/MQTTBridge/choicelist.py:1198-1222 | the waiting list opens, waits on, or is refused, branch by branch |
| ChoiceList.ListPublisher.RetryFired | src/MQTTBridge/choicelist.py:1235-1250 | one turn of the waiting timer, and the give-up after 40 |
| ChoiceList.ListPublisher.TickFired | src/MQTTBridge/choicelist.py:1331-1346 | one tick of the countdown |
| ChoiceList.ListPublisher.ScreenClosed | src/MQTTBridge/choicelist.py:1303-1320 | a screen that closed ends its list if nothing else did, and a list that waits gets its turn |
| ChoiceList.ListPublisher.EnteredStandby | src/MQTTBridge/choicelist.py:1440-1443 | standby closes the waiting list and the one on the screen |
| ChoiceList.ListPublisher.StopPublisher | src/MQTTBridge/choicelist.py:1152-1158 | stopping closes both and stops the waiting timer |
| ChoiceListLaws.SkinDecides | src/MQTTBridge/choicelist.py:1470-1474 | a reloaded skin sets which screen is used and touches no list |
| ChoiceList.ListPublisher.SkinReload | src/MQTTBridge/choicelist.py:1470-1474 | a skin reload changes only which screen the next list is shown with |
| ChoiceListProofs.Run | src/MQTTBridge/choicelist.py:1169-1371 | every state a run reaches is consistent |
| ChoiceList.ListPublisher.KeyNamed | src/MQTTBridge/choicelist.py:395-402 | the first row with the key is the answer; no row, nothing |
| Packet.WidthIsLeast | src/MQTTBridge/bridge.py:214-229 | a character is counted with the least number of bytes whose bits, in UTF-8, hold it |
| Packet.OversizeIsExact | src/MQTTBridge/bridge.py:214-229 | the four-bytes-a-character short cut never changes the answer: it is the exact UTF-8 size of the packet, or 0 when that is within the bound |
| Packet.ExceedsIsCertain | src/MQTTBridge/bridge.py:1690-1698 | `exceeds` never calls a payload too big that fits, and on a payload's own length it is exact |
| Json.EncodeDiffers | src/MQTTBridge/bridge.py:95-97 | two JSON values never share a canonical text, and no text is empty: what the change key relies on |
| Json.EncodeSplits | src/MQTTBridge/bridge.py:95-97 | a text, with whatever may follow it inside a larger one, begins with one value at most |
| Json.InOrderRises | src/MQTTBridge/bridge.py:95-97 | the keys of an object are written in strictly rising order, each once |
| Json.EscapeReads | src/MQTTBridge/bridge.py:95-97 | a string is read back as it was, by the escapes of section 7 of RFC 8259 |
| Json.EscapeIsClean | src/MQTTBridge/bridge.py:95-97 | nothing below the space is written raw |
| Retained.EncodedIsCanonical | src/MQTTBridge/bridge.py:95-97 | the bridge's own encoder is canonical, which is all that is asked of it below |
| Retained.KnownExactly | src/MQTTBridge/bridge.py:1752-1766 | from a state in which every topic the broker holds is remembered, a step leaves one unknown exactly when it is a `retract` the client did not take of a topic the broker holds |
| Retained.ForgottenWhenGone | src/MQTTBridge/bridge.py:1572-1598 | apart from `retract`, a topic is forgotten only once the broker no longer holds it |
| Retained.KnownThroughout | src/MQTTBridge/bridge.py:1752-1766 | over any run whose retractions were taken - publishes and everything else taken or not - every topic the broker holds is remembered |
| Retained.RetractCanLose | src/MQTTBridge/bridge.py:1752-1766 | a retraction answered "no connection" leaves a topic on the broker that nothing here knows of |
| Retained.WithheldAreGone | src/MQTTBridge/bridge.py:1600-1604 | on a connect, once the retractions are taken, no withheld topic of the node's own is left on the broker |
| Retained.StepAgrees | src/MQTTBridge/bridge.py:1441-1466 | a step whose publish was not lost keeps the change cache in agreement with what the broker holds, topic by topic |
| Retained.AgreesSinceConnect | src/MQTTBridge/bridge.py:1292-1340 | since the last connect, while every publish was taken, cache and broker agree whatever was withheld, retracted or dropped between |
| Retained.DroppedIsOnBroker | src/MQTTBridge/bridge.py:1719-1750 | a payload `publish_state` drops is the broker's copy but for volatile fields - or is empty, where the broker holds nothing |
| Retained.DroppedDiffersInVolatile | src/MQTTBridge/bridge.py:100-119 | a dropped object and the broker's copy, sent with the same volatile fields, agree on every other field: present in both or neither, with the same value |
| Retained.WithheldStaysUncached | src/MQTTBridge/bridge.py:1547-1552 | a withheld topic of the node's own is never in the change cache, so its next payload that fits goes out |
| RetainedLaws.PublishDecides | src/MQTTBridge/bridge.py:1441-1466 | a payload over the packet limit is withheld - the first size noted, the older copy of an own topic off broker and record when the session is open and the client takes the retraction - and any other is handed over: remembered, cached, off the withheld list, on the broker when it is taken |
| RetainedLaws.WithholdDecides | src/MQTTBridge/bridge.py:1559-1570 | a payload known to be too big is withheld in the same way |
| RetainedLaws.ChangesAreSent | src/MQTTBridge/bridge.py:1719-1750 | after a retained payload was handed over, the next is dropped exactly when it is the same but for volatile fields |
| RetainedLaws.UncachedIsSent | src/MQTTBridge/bridge.py:1719-1750 | without a copy in the cache, or unretained, everything is sent |
| RetainedLaws.SessionDecides | src/MQTTBridge/bridge.py:1711-1717 | `forget_published` empties the cache of payloads and touches nothing else, and a session that opens or closes touches only that |
| RetainedLaws.StepAgreesExactly | src/MQTTBridge/bridge.py:1719-1750 | where cache and broker agree they agree after the next event exactly when no publish of it that was handed over was left untaken, or what was left untaken is what the broker holds already |
| RetainedLaws.AgreesWhenTaken | src/MQTTBridge/bridge.py:1711-1750 | from a connect on, with every publish taken, cache and broker agree in every run |
| RetainedLaws.SameAnnouncementsKeep | src/MQTTBridge/bridge.py:2035-2053 | a node that announces the same components every time keeps its record right in every run, whichever announcements are lost |
| RetainedLaws.RetractDecides | src/MQTTBridge/bridge.py:1752-1766 | a retraction forgets the topic everywhere, and clears the broker's copy when it is taken |
| RetainedLaws.LastErrorDecides | src/MQTTBridge/bridge.py:2183-2207 | the retraction of `last_error` does all of that or nothing |
| RetainedLaws.TakingBackDecides | src/MQTTBridge/bridge.py:1600-1604 | a connect takes back exactly the withheld own topics that are remembered and whose retraction is taken |
| RetainedLaws.PayloadOfAnnouncement | src/MQTTBridge/bridge.py:2035-2053 | a device payload holds what is announced, a removal of what was and is not any more, and its other members as they are |
| RetainedLaws.AnnouncementDecides | src/MQTTBridge/bridge.py:2035-2053 | an announcement is a retained publish, and its components are recorded with their platforms unless its topic is withheld after it |
| Bridge.Node.PublishRaw | src/MQTTBridge/bridge.py:1441-1466 | the method takes the publish step: withheld when oversize, remembered and cached when retained, off the withheld list |
| Bridge.Node.PublishChanged | src/MQTTBridge/bridge.py:1719-1750 | the method takes the step that drops an unchanged retained payload |
| Bridge.Node.Withhold | src/MQTTBridge/bridge.py:1516-1557 | the first size is kept, an earlier copy in the node's own tree is taken back, anything outside the tree is left alone |
| Bridge.Node.WithholdSuffix | src/MQTTBridge/bridge.py:1559-1570 | a payload known to be too big is withheld under the same conditions as one that was handed over |
| Bridge.Node.TakeBack | src/MQTTBridge/bridge.py:1572-1598 | a topic is forgotten, and the method returns True, only when the client took the retraction |
| Bridge.Node.TakeBackAll | src/MQTTBridge/bridge.py:1600-1604 | the loop over the withheld topics retracts exactly the node's own that are remembered and whose retraction was taken |
| Bridge.Node.RetractTopic | src/MQTTBridge/bridge.py:1752-1766 | the method takes the retract step, which forgets without asking whether the client took it |
| Bridge.Node.RetractError | src/MQTTBridge/bridge.py:2183-2207 | `last_error` is forgotten only when its retraction was taken |
| Bridge.Node.PublishDiscovery | src/MQTTBridge/bridge.py:2035-2053 | the device payload goes out and its components are recorded, unless the device topic is withheld |
| Retained.HomeIsAnnounced | src/MQTTBridge/bridge.py:2035-2053 | after a device payload that was taken Home Assistant has exactly the components announced, and the record names exactly those |
| Retained.RecordedUnsentExactly | src/MQTTBridge/bridge.py:2044-2053 | an announcement is recorded without reaching the broker exactly when it was handed over and not taken, or was not handed over while the device topic is not listed as withheld |
| Retained.AnnouncementKeepsRecord | src/MQTTBridge/bridge.py:2048-2053 | the record still names all Home Assistant has after an announcement, exactly unless it was recorded without reaching the broker while dropping something Home Assistant has |
| Retained.DiscoverCanLose | src/MQTTBridge/bridge.py:2044-2053 | on a node with ordinary names, an announcement answered "no connection" makes the record forget a component Home Assistant still has |
| Retained.LostComponentStays | src/MQTTBridge/bridge.py:2049-2052 | a component the record lost stays in Home Assistant through every payload that does not announce it |
| Retained.RecordThroughout | src/MQTTBridge/bridge.py:2035-2053 | over any run in which no announcement recorded without reaching the broker dropped something Home Assistant had, the record names every component Home Assistant has |
| Retained.HomeFollows | src/MQTTBridge/bridge.py:2035-2053 | so after any such run the next announcement that is taken leaves Home Assistant with exactly what it announces |
| Discovery.ReceivedIsAnnounced | src/MQTTBridge/discovery.py:251-264 | a payload with its removals leaves exactly the announced components, if and only if the record named whatever else was there |
| Discovery.RecordIsAnnounced | src/MQTTBridge/discovery.py:120-134 | the record kept of a payload is the announced components with their platforms, the removals left out |
| Discovery.ReadsBack | src/MQTTBridge/discovery.py:251-264 | the components written into the payload are the ones read from it |
| Discovery.FinishComponents | src/MQTTBridge/discovery.py:251-264 | the loop adds a removal for every remembered component that is not announced, and touches no other |
| Discovery.FindPlatforms | src/MQTTBridge/discovery.py:120-134 | the loop finds the platform of every component that is more than its platform |
| Bridge.StateStore.Remember | src/MQTTBridge/discovery.py:759-764 | a topic is added unless empty or known, and the file becomes dirty exactly then |
| Bridge.StateStore.Forget | src/MQTTBridge/discovery.py:766-771 | a known topic is dropped, and the file becomes dirty exactly then |
| Bridge.StateStore.SetComponentKeys | src/MQTTBridge/discovery.py:806-810 | the record is replaced, and the file becomes dirty exactly when it changed |
| ReleaseIndex.History.Add | tools/make-index.py:337-345 | adding an index raises its key's serial, keeps the first commit of a highest serial, and silences every key ranked below |
| ReleaseIndex.History.RestoreFrom | tools/make-index.py:347-355 | the commit named is that of the largest (rank, serial, commit) among the keys nothing silenced; none exactly when all are silenced |
| ReleaseLaws.RestoresHighest | tools/make-index.py:347-355 | of two keys that published and that nothing silenced, the larger triple is the higher-ranked key's, since no two share a rank |
| ReleaseIndex.SerialsAreHighest | tools/make-index.py:337-345 | the record's serial of a key is the highest it ever published |
| ReleaseIndex.TopIsFirst | tools/make-index.py:337-345 | the commit kept for a key is the first that carried its highest serial |
| ReleaseIndex.SilencedExactly | tools/make-index.py:343-345 | a key is silenced exactly when some index was signed by a key ranked above it |
| ReleaseIndex.MemoryIgnoresOrder | tools/make-index.py:337-345 | the memory depends only on which indexes were added, not on their order or number |
| ReleaseIndex.PublishedHistory | tools/make-index.py:367-386 | the walk over the branch records exactly the authentic indexes of its commits, in order |
| ReleaseIndex.PassingIndexIsNew | tools/make-index.py:580-603 | on any history, rolled back or not, an index that passes the guard with the next serial is above every serial its key published, and its key is silenced by nothing |
| ReleaseIndex.NotSilencedIsHighest | tools/make-index.py:389-412 | a key is not silenced exactly when it ranks no lower than every key that published |
| ReleaseIndex.PublishedSerialsIncrease | tools/make-index.py:433-443 | on any branch, however it was rolled back, emptied or overwritten between, an index that passed has a higher serial than every earlier one its key signed, and its key ranks no lower than any that signed one |
| ReleaseLaws.PublishedExactly | tools/make-index.py:580-603 | what a commit must carry to publish an index: one of a key of the set that passes behind the commit before it; `FirstIsPublished` shows one |
| ReleaseLaws.FirstIsPublished | tools/make-index.py:580-603 | on an empty branch a key's first index, the serial above its baseline, publishes |
| ReleaseIndex.OneLiveKey | tools/make-index.py:347-355 | after any history exactly one key is live: the highest-ranked that ever published |
| ReleaseIndex.RecoveryWorks | tools/make-index.py:389-412 | the commit the advice names carries a pair which, restored in a new commit, makes the guard pass, and then the next index of that key passes its checks |
| ReleaseLaws.GuardExactly | tools/make-index.py:389-412 | the guard passes a pair exactly when no key ranked above its signer published, and its signer published no higher serial |
| ReleaseLaws.UnknownKeyFails | tools/make-index.py:580-603 | an index of a key that is not in the set never passes |
| ReleaseLaws.PassesExactly | tools/make-index.py:580-603 | what passes before it is signed, exactly: behind a pair that upholds everything published, the next serial of its key issued no earlier, or one above the baseline of a key ranked higher; on an empty branch one above the baseline |
| ReleaseIndex.ReaderIsBehind | src/MQTTBridge/trust.py:505-517 | a reader offered any published indexes in any order has no serial above what the branch published |
| ReleaseIndex.ReaderSilencesNoMore | src/MQTTBridge/trust.py:511-517 | and silences no key that the branch's record does not |
| ReleaseIndex.NextIsNeverReplay | src/MQTTBridge/trust.py:662-686 | such a reader never refuses the next index as a replay or for its rank: only for its distance, and then exactly as stated |
| ReleaseIndex.SignedIsAccepted | src/MQTTBridge/trust.py:662-686 | what the sign job passes, a reader that has seen exactly the published index accepts |
| ReleaseLaws.TakenExactly | src/MQTTBridge/trust.py:662-686 | what a reader takes, exactly: nothing silenced or ranked below a key it accepted, from a new key a serial up to 1000 above its baseline, from a known one up to 1000 above its last |
| ReleaseLaws.TakenIsRemembered | src/MQTTBridge/trust.py:511-517 | what it remembers then: the serial, and every lower-ranked key of its set silenced |
| ReleaseLaws.OfferIsRemembered | src/MQTTBridge/trust.py:505-517 | one offer more: a serial that is taken is held from then on and lower-ranked keys are silenced; one that is refused changes nothing |
| ReleaseLaws.RefusedFor | src/MQTTBridge/trust.py:662-686 | the reason of every refusal |
| KeyEvolution.KeyEvolutionProblems | tools/make-index.py:766-796 | the loops report exactly: changed ranks, lowered baselines, new keys not on top, and keys dropped above one that is kept, with those kept |
| KeyEvolution.ProblemFreeExactly | tools/make-index.py:766-796 | nothing is reported exactly when kept keys keep rank and baseline, new ones rank above all before, and what is dropped is dropped from below |
| KeyEvolution.DroppedForGood | tools/make-index.py:770-774 | along any chain with no reported problem, once a key of some rank is dropped no later set carries a key ranked as low |
| KeyEvolution.LowestNeverFalls | tools/make-index.py:766-796 | the lowest rank carried never goes down |
| KeyEvolution.HighestNeverFalls | tools/make-index.py:766-796 | the highest rank carried never goes down |
| KeyEvolution.KeptThroughout | tools/make-index.py:769 | a key every release carries keeps its rank, and its baseline never goes down |
| KeyEvolution.UpdateKeepsFloor | src/MQTTBridge/trust.py:573-599 | updating along such a chain never reopens a reader: what it then accepts is signed by a key ranked no lower than the floor it had before |
| StoredState.MemoryForExactly | src/MQTTBridge/trust.py:588-599 | what a reader is given, said of the stored entries: a key silenced by some entry whose set shares a key with its own; for a key it holds, the largest serial of such entries, and one exactly when such an entry has one |
| StoredState.ReadMemory | src/MQTTBridge/trust.py:588-599 | the loops over the entries give the largest serial per held key and every silenced key, from the entries of sets that share a key, and from no other |
| StoredState.AcceptedIsHeld | src/MQTTBridge/trust.py:573-623 | what `memory_for` gives after an accepted index was stored and the key set changed has every serial of the keys still held: what `KeyEvolution.UpdateKeepsFloor` asks |
| StoredState.LearnedForGood | src/MQTTBridge/trust.py:573-623 | whatever builds follow - updates, downgrades, builds of the other lineage - the stored state keeps the serial an accepted index had and the keys it silenced |
| StoredState.SerialsRise | src/MQTTBridge/trust.py:582-585 | in every run a key's accepted serials only rise, whichever sets that carry it come and go |
| StoredState.SilencedForGood | src/MQTTBridge/trust.py:511-517 | in every run a key ranked below one that was accepted, in the set that accepted it, is never accepted again - after a release that breaks the rules for key sets too |
| StoredState.RanksNeverFall | src/MQTTBridge/trust.py:573-599 | in every run, after an update along a chain of releases nothing is accepted from a key ranked below one accepted before |
| StoredState.WithoutTheLastRule | tools/make-index.py:766-796 | the last rule is what keeps ranks from falling: a release that drops the higher of two keys and keeps the lower, and a next one that adds a key between them, break no other rule, and a reader that accepted the dropped key then accepts the one ranked below it |
| StoredState.ListingDistinguishes | src/MQTTBridge/trust.py:231-237 | a text that lists a set's ids, in order, tells apart any two sets with different ids, so the hypothesis on fingerprints can be met |
| StoredState.LineagesApart | src/MQTTBridge/trust.py:579-581 | what a build of one lineage knows is what it would know had no build of the other ever run |
| Coverage.CrossingIsOnEdge | tools/render-icons.py:404-408 | a crossing is the point of the edge's line at that height, between the edge's ends |
| Coverage.DirectionsCancel | tools/render-icons.py:393-397 | on every scanline the directions of the crossings of closed polygons sum to zero |
| Coverage.LastCrossingCloses | tools/render-icons.py:409-414 | so the last crossing in sorted order never leaves a span open |
| Coverage.WindingIgnoresOrder | tools/render-icons.py:409 | sorting the crossings changes no winding number |
| Coverage.SpansAreInside | tools/render-icons.py:410-414 | a point lies in a span the loop opens exactly when its winding number is not zero |
| Coverage.InsideIsSpans | tools/render-icons.py:389-414 | for the edges of closed polygons: the inside under the non-zero rule is the union of the spans |
| Coverage.CoveredAtMost | tools/render-icons.py:415-426 | the spans are disjoint: together never longer than the interval they are measured in |
| Coverage.CoveredLengthIsExact | tools/render-icons.py:389-426 | what a scanline accumulates is the length of the inside: additive over intervals, all of an interval inside and nothing of one outside, never more than the interval |
| Coverage.ClippingLosesNothing | tools/render-icons.py:415-417 | clipping a span to the row changes nothing for any cell of the row |
| Coverage.AddSpan | tools/render-icons.py:418-425 | each cell gains exactly the length of the span inside it; the spare cell is never touched |
| Coverage.AddScanline | tools/render-icons.py:402-425 | each cell gains exactly the length of the inside of the shape in it, on this scanline |
| Coverage.Row | tools/render-icons.py:399-426 | a row's pixels are the means over 16 scanlines, and the bound at 1.0 changes no value |
| Coverage.Picture | tools/render-icons.py:389-427 | every pixel of every row is the covered fraction of its square, between 0 and 1 |
| Coverage.MeetsAtScales | tools/render-icons.py:404-406 | a scaled edge meets the scaled height at the scaled place |
| Coverage.InsideScales | tools/render-icons.py:391-397 | a point of the drawing's box is inside exactly when its image in the picture is, each axis with its own scale |
| Coverage.UniformPixel | tools/render-icons.py:389-427 | a pixel whose whole square is inside is 1, one whose whole square is outside is 0 |
| Coverage.RectangleInside | tools/render-icons.py:389-414 | a point is inside a rectangle exactly when it is between its sides |
| Coverage.RectanglePixel | tools/render-icons.py:389-427 | a rectangle covers of each pixel the width they share on the sixteenths of the row whose midpoints it reaches, for any rectangle, scale and pixel |
| CecProofs.StepKeeps | src/MQTTBridge/cec.py:393-635 | every step keeps: entries are told apart by identity and only the television's are followed; the flag reads HELD only while a hold is recorded, with its deadline running; count and what is followed never exceed what was identified |
| CecProofs.Reachable | src/MQTTBridge/cec.py:393-635 | all of that in every reachable state |
| CecProofs.HouseholdIsSpared | src/MQTTBridge/cec.py:613-625 | nothing the module does removes or reorders an entry the household queued, however equal it is to the television's |
| CecProofs.RemovedWasFollowed | src/MQTTBridge/cec.py:613-625 | an entry the module removes is one it followed, queued inside the television's bracket |
| CecProofs.HouseholdIsNeverFollowed | src/MQTTBridge/cec.py:409-414 | a notification of the household's is never followed, a standby queued while the flag is held included |
| CecProofs.TvIsFollowed | src/MQTTBridge/cec.py:393-425 | the television's standby is followed exactly when the info bar has not taken it by the module's turn |
| CecProofs.SettledIsClear | src/MQTTBridge/cec.py:556-587 | once the counter has settled nothing is followed, no followed standby is left in the queue, and no hold is left |
| CecProofs.StaleIsGone | src/MQTTBridge/cec.py:591-611 | at its deadline a standby is off the queue and no longer followed |
| CecProofs.CountedIsForgotten | src/MQTTBridge/cec.py:627-630 | a step counts at most one intervention, and what it counts it has stopped following |
| CecProofs.HoldLasts | src/MQTTBridge/cec.py:501-531 | while a hold lasts it is the same one, and after a step its flag reads HELD exactly when the step closed the list, or when it did before and the step is no bracket of the television's around the held flag |
| CecProofs.HeldWithoutBrackets | src/MQTTBridge/cec.py:501-531 | over any run in which the hold lasts and the television puts no bracket around the held flag, it reads HELD |
| CecProofs.ReleasePutsBack | src/MQTTBridge/cec.py:533-542 | whatever happens while the flag is held, the release puts back the value it had before, on the instance that was held |
| CecProofs.ClosingHolds | src/MQTTBridge/cec.py:501-531 | closing the list leaves the flag held, whatever a bracket wrote over the hold before |
| CecProofs.HoldOverwritten | src/MQTTBridge/cec.py:501-508 | from the start: a standby of the television's, the list closed for it, and a second standby leave a hold recorded and its flag clear |
| CecProofs.ActsOnce | src/MQTTBridge/cec.py:441-457 | no standby causes a second close |
| CecLaws.QueueDecides | src/MQTTBridge/cec.py:393-431 | what the household queues joins the queue at its end with a new identity and nothing of the module changes; the info bar takes entries from the front, before the module's turn, after it, and by itself |
| CecLaws.TvStandbyDecides | src/MQTTBridge/cec.py:393-431 | the television's standby is followed, and the module acts, exactly when it is still the last entry at the module's turn; the bracket leaves the flag clear, and the queue without what the info bar took |
| CecLaws.ActingDecides | src/MQTTBridge/cec.py:441-531 | every standby still owed is marked, with the time of the close when it went through, and the flag is held before the list is closed |
| CecLaws.NothingToAct | src/MQTTBridge/cec.py:441-457 | with nothing left to act on, the drained standbys are forgotten and nothing else happens |
| CecLaws.CloseIsCounted | src/MQTTBridge/cec.py:566-571 | a close that went ahead is counted once, at its latest time |
| CecLaws.DropIsCounted | src/MQTTBridge/cec.py:572-586 | without one, standbys that still wait while none was carried out count as one drop; else nothing is counted |
| CecLaws.SettledQueue | src/MQTTBridge/cec.py:556-566 | what still waited is off the queue, everything else in it stays, and the flag reads what it read before |
| CecLaws.StaleDecides | src/MQTTBridge/cec.py:591-611 | at its deadline a standby still queued counts as a drop whatever was closed for it; one off the queue counts as a close if the list was closed for it, else not at all |
| CecLaws.StaleForgets | src/MQTTBridge/cec.py:591-596 | a deadline forgets its own standby and no other |
| CecLaws.TimersDecide | src/MQTTBridge/cec.py:533-554 | what the counter, the hold's deadline and the stop do |
| Cec.CecPublisher.NotificationAdded | src/MQTTBridge/cec.py:393-431 | only the last entry, only the standby screen, only while the flag is the television's, and only once |
| Cec.CecPublisher.ActTimer | src/MQTTBridge/cec.py:441-497 | the method takes the act step: drained standbys forgotten, the rest acted on once, the hold started before the close |
| Cec.CecPublisher.StartHold | src/MQTTBridge/cec.py:501-531 | a second close writes the marker again and keeps the value recorded first |
| Cec.CecPublisher.ReleaseHold | src/MQTTBridge/cec.py:533-542 | the recorded value is put back and the hold forgotten |
| Cec.CecPublisher.HoldTimer | src/MQTTBridge/cec.py:533-542 | at its deadline a hold is released |
| Cec.CecPublisher.CounterNotifier | src/MQTTBridge/cec.py:544-554 | the counter starts the settle timer when something is held or followed, and puts nothing back itself |
| Cec.CecPublisher.SettleTimer | src/MQTTBridge/cec.py:556-587 | the method takes the settle step, with one intervention at most: closed, or dropped when none was carried out |
| Cec.CecPublisher.StaleTimer | src/MQTTBridge/cec.py:591-611 | the method takes the deadline step: dropped if still queued, else counted as closed when the list was closed for it |
| Cec.CecPublisher.RemoveFromQueue | src/MQTTBridge/cec.py:613-625 | the first entry of that identity is removed, and nothing else |
| Cec.CecPublisher.StopAll | src/MQTTBridge/cec.py:287-316 | stopping follows nothing any more and puts the flag back |
| Cec.StandbyFromTv | src/MQTTBridge/cec.py:18-22 | the image's bracket, callbacks included, is one step of the machine |
| GridJson.GridIsSized | src/MQTTBridge/epggrid.py:237-244 | a grid's size, counted part by part, is the length of its canonical JSON in UTF-8 bytes |
| GridText.GridIsCanonical | src/MQTTBridge/epggrid.py:394-403 | the text whose size is counted is the bridge's canonical JSON of the grid's members, for every grid |
| GridJson.EventLeastIsFixedText | src/MQTTBridge/epggrid.py:211-213 | the constant is the length of an event's fixed text with the comma in front |
| GridJson.LeastAddedIsLeast | src/MQTTBridge/epggrid.py:216-234 | from one event on, the JSON with one event more is at least as long as the measured text and what `_least_added` counts |
| GridJson.FloorFromNoneExactly | src/MQTTBridge/epggrid.py:216-234 | from no event to the first, where the code never asks, it is a floor exactly when the titles' escapes and what was measured beyond one byte a character make up for the comma each list's first event does not take |
| GridJson.CuttingShortens | src/MQTTBridge/epggrid.py:237-244 | the JSON only gets shorter as events are cut, from any count to any smaller one that is not zero |
| EpgFitting.BridgeIsSound | src/MQTTBridge/epggrid.py:409-423 | the bridge's own measuring and `exceeds` meet what the search relies on |
| EpgFitting.NothingAboveLargest | src/MQTTBridge/epggrid.py:394-423 | above the largest count that fits nothing fits |
| EpgFitting.FittedIsLargestPacket | src/MQTTBridge/epggrid.py:394-403 | in bytes, exactly: the grid handed over is cut to the largest count up to the setting whose packet is within the limit, and the cut is remembered when it leaves events out; when not even one event fits it is cut to one and nothing is remembered |
| EpgFitting.HalvingsOfSettings | src/MQTTBridge/epggrid.py:405-410 | five halvings with the setting at its highest, 20, and two with the default of 4 |
| EpgFitting.HalvingsAreLogarithmic | src/MQTTBridge/epggrid.py:405-410 | a range of n counts is halved as often as n has bits |
| EpgFitting.Fitter.Fitted | src/MQTTBridge/epggrid.py:394-492 | for any remembered cut: the largest count that fits, or one event on each channel when none does, with that grid's JSON; the cut is kept exactly when it is below the setting; one measurement and the halvings, one more when a cut was remembered |
| EpgFitting.Fitter.FromSeed | src/MQTTBridge/epggrid.py:443-463 | a remembered count that fits with no room for one event more costs one measurement and no search |
| EpgFitting.Fitter.Search | src/MQTTBridge/epggrid.py:464-473 | the search by halves keeps what is known to fit below and known not to fit above, and measures once per halving |
| EpgGrid.Build | src/MQTTBridge/epggrid.py:116-160 | the one-shot build gives the grid of one lookup over all channels |
| EpgGrid.GridBuilder.NextBatch | src/MQTTBridge/epggrid.py:340-370 | a step of a stopped or finished builder changes nothing; any other takes four more channels of the build under way or of the first bouquet queued, none of them when the lookup raises, and when it reaches the last it gives the grid of one lookup over the channels that did not; a batch overtaken by a new `regenerate` contributes nothing |
| EpgGrid.GridBuilder.BuildNext | src/MQTTBridge/epggrid.py:340-391 | the steps from a queued bouquet to its grid, however many: every channel is answered but those of the batches that raised, and with none raised the grid is the one the one-shot build gives |
| EpgGrid.GridBuilder.BuildAll | src/MQTTBridge/epggrid.py:340-391 | the steps through a whole queue give every bouquet's grid, in turn |
| EpgGrid.NoneMissing | src/MQTTBridge/epggrid.py:356-360 | a grid for which no lookup raised is the one the one-shot build gives |
| EpgGrid.GridBuilder.Regenerate | src/MQTTBridge/epggrid.py:324-338 | a build under way is dropped |
| EpgGrid.OneBatchMore | src/MQTTBridge/epggrid.py:351-364 | a batch of any size added to the rows so far is the rows of the longer lookup |
| EpgGrid.GridState.AddAll | src/MQTTBridge/epggrid.py:194-202 | the dictionaries pick the same channel as the one-shot build's searches, first match first, up to the cap |
| EpgGrid.SortOrders | src/MQTTBridge/epggrid.py:205-208 | each channel's events end in order of their beginning, none lost |
| EpgRows.BuiltFromRows | src/MQTTBridge/epggrid.py:116-160 | channel i of a built grid carries the events of the first `count` rows that belong to it - spelled like it first, else the same service first - by their beginning, those that begin together in the order of their rows |
| EpgRows.BuiltFromLookup | src/MQTTBridge/epggrid.py:139-140 | the rows are those of one lookup of all references over 90 minutes an event and an hour |
| EpgRows.BuiltInBatches | src/MQTTBridge/epggrid.py:340-391 | the grid the steps through a bouquet give carries the bouquet's name, the time, the count and the channels of one lookup, over 90 minutes an event and an hour, of exactly the channels whose batch of four did not raise |
| EpgRows.ChannelByChannel | src/MQTTBridge/epggrid.py:89-97 | whatever each channel's own rows are, some lookup that answers channel by channel gives them, so that hypothesis can be met |
| EpgGrid.BuiltIsFinished | src/MQTTBridge/epggrid.py:116-160 | a built grid carries no more events on a channel than it says, so it can be fitted |
| Channels.TopicSlugs | src/MQTTBridge/channels.py:120-146 | each bouquet gets its own slug, or, where an earlier one has it, the least number from 2 that no bouquet's own slug and no slug already given has taken |
| Channels.SlugOfName | src/MQTTBridge/channels.py:133 | the slug a bouquet would have alone is its name's |
| Channels.GivenExactly | src/MQTTBridge/channels.py:120-146 | said of the texts themselves: a slug no earlier bouquet was given is kept; any other gets the least number from 2 that makes a text neither any bouquet's own nor given before |
| Channels.FirstFree | src/MQTTBridge/channels.py:139-142 | the inner search ends, because the texts tried are different members of a finite set, and its number is the least free one |
| Channels.NumbersDiffer | src/MQTTBridge/channels.py:139-142 | different numbers behind one slug make different texts |
| Channels.SlugsAreDistinct | src/MQTTBridge/channels.py:120-129 | no two bouquets share a non-empty slug |
| Channels.FirstKeepsItsSlug | src/MQTTBridge/channels.py:123-127 | a bouquet keeps its own slug exactly when no earlier bouquet has that slug of its own, and the slug is empty exactly when the name leaves none |
| Channels.NumbersLeaveOwnSlugs | src/MQTTBridge/channels.py:125-128 | a numbered slug is no bouquet's own slug, wherever that bouquet stands |
| Decimal.DigitsDiffer | src/MQTTBridge/channels.py:140-142 | two whole numbers never share their decimal text |
| Decimal.DigitsRead | src/MQTTBridge/channels.py:139-142 | a number's text reads as the number, in decimal digits, without leading noughts |
| Contract.Compare | tools/check-contract.py:574-649 | the loops report exactly: parts removed or changed, choices lost, exceptions dropped, re-dated or wrongly dated, and a major that is missing or went down; nothing at all across a new major |
| Contract.CompareName | tools/check-contract.py:603-624 | what is compared of one name: types only when not both enumerations, never `since`, and an enumeration only gains choices |
| Contract.CompareRecord | tools/check-contract.py:626-648 | a dated exception keeps its date and stays; a date given now is checked |
| Contract.KeepsExactly | tools/check-contract.py:574-649 | without release arguments nothing is reported exactly when the promises are kept, stated without the loops |
| ContractLaws.ReportedExactly | tools/check-contract.py:583-655 | what `compare` reports, exactly, of what two contracts write: names that went, choices lost, values that differ on a key other than `since` (and `type` between enumerations), exceptions dropped or re-dated, and new dates that are not the shipping release's or not later than the previous one |
| ContractLaws.HistoryExactly | tools/check-contract.py:531-563 | what `check_record` reports, exactly, of what the releases write |
| Contract.KeepsItself | tools/check-contract.py:586-589 | `compare` of a contract with itself is clean exactly when its major is a whole number |
| Contract.PromisesInTurn | tools/check-contract.py:574-649 | promises kept twice in a row are kept over both steps |
| Contract.ChainKeeps | tools/check-contract.py:574-649 | over a chain of any length, every release keeps the promises of every earlier one |
| Contract.ArgumentsOnlyAdd | tools/check-contract.py:582-584 | the release arguments only add problems |
| Contract.CheckRecord | tools/check-contract.py:539-571 | the loop reports exactly the exceptions still unreleased, dated after the first release, or dated elsewhere when they first appear |
| Contract.DatedForGood | tools/check-contract.py:542-544 | within a major, an exception that first appears after the first release is dated to that release in every later one |
| Contract.FirstDatesStay | tools/check-contract.py:542-544 | one the first release carries is dated at it or before, and keeps that date within the major |
| Contract.NextMajorMayRedate | tools/check-contract.py:592-593 | across a new major any date may replace any other and neither check reports it |

## Left out

- Ed25519.Verify: SHA-512 is any function, and the check that the three arguments are bytes is the argument types.
- ReleaseIndex.PassingIndexIsNew: the form of the file, its exact bytes and the emergency path with an explicit serial are not modelled; authentication is a filter on who signed a well-formed index.
- ReleaseIndex.History.Add: the counter of states that do not verify, and a history that is absent altogether, are not modelled; neither takes part in any decision shown here.
- KeyEvolution.KeyEvolutionProblems: the order of the reported lines is not modelled, only which are reported and that each is well founded.
- Contract.Compare: the order and wording of the reported lines are not modelled; a value is compared as its JSON text.
- Contract.CheckRecord: the order and wording of the reported lines are not modelled.
- Retained.KnownThroughout: needs every plain retraction of the run to have been taken, because `retract` does not ask; `retract_stale` and `reset_retained`, which do not ask either, are not modelled.
- Retained.AgreesSinceConnect: needs every publish of the run to have been taken, because the cache is written either way; a publisher's own change key is taken to be the one `_change_key` would compute.
- Coverage.Picture: works over the reals; floating-point rounding is not modelled.
- ChoiceList.ListPublisher.EndList: the list's screen closes in a later step of the receiver's, whichever it is, rather than inside the call.
- EpgFitting.Fitter.Fitted: a publisher without a bridge, which hands the grid over as it is, is not modelled.
- Retained.EncodedIsCanonical: numbers, true, false and null are words without quotes, whatever Python writes for them; characters outside Unicode's scalar values are not modelled.
- EpgGrid.GridBuilder.NextBatch: slugs, publishing and the tidying after a pass are not modelled, nor are the stored grids of earlier passes and a `stop` that comes during a lookup.
- Parsing and checking the JSON of a list, the screens themselves, and taking an unacknowledged answer back out of the client's queue.
- Reading and writing the state file, the log, the web page's copies of payloads, the wait before `info` is published again.
- The CEC attribute writes that raise, the binding of the hooks, and publishing the count.
- StoredState.ReadMemory: damaged state files, the schema number and members a build does not know are not modelled.
- Building packages, entries and policies of an index, and git itself.
- SVG paths and the PNG form of a picture.
- `check_consistency`, the reading of the contract's prose, and the command line.
- Everything else in the repository: tuners, recordings, OSD, provisioning, uninstalling, self-update, settings, workflow checks.

# Verification models

A Dafny model of the stateful core of this API gateway and proofs about it: the
compute billing bridge's books, Midjourney polling and refunds, the multi-key
channel row, the in-memory rate limiter, the bridge's token bucket, upstream
model reconciliation and its batched scan, the Ogg page walker, batch model
enrichment, reusable request bodies and their usage counters, the invoice
parameter parser, the published price list and the verification-code store.
`dafny verify dfyconfig.toml` checks the whole project.

Code that updates state in place is modelled as classes, arrays and loops whose
contracts tie the new state to a specification function; code made of
expressions is modelled as functions. Protocols (the billing bridge, the polling
passes, the usage counters) are state machines whose steps are the atomic
database or memory operations of the source, and their theorems are about every
sequence of steps. The clock, randomness, network answers, `regexp`, JSON and
number parsing are parameters. Transactions are atomic, and a failed one leaves
the database as it was.

| file | component |
|---|---|
| ComputeHold.dfy, HoldAnswers.dfy | holds, settlements, extensions, releases and expiry of the compute billing bridge; what its verbs answer |
| Midjourney.dfy, MidjourneyCharges.dfy | interleaved polling passes, compare-and-swap on status, refunds; refunds against charges |
| MultiKey.dfy, MultiKeyRuns.dfy, KeySaves.dfy, KeyViews.dfy | key text and sparse status maps of a multi-key channel, listing, append; whole runs of actions and creation; loads and saves that overlap; what operators and requests see |
| KeyPolling.dfy | choosing the next enabled key |
| RateLimiter.dfy | sliding-window limiter with release and eviction |
| TokenBucket.dfy | the bridge's token bucket and its setting |
| Upstream.dfy, UpstreamRuns.dfy, ChannelScan.dfy | ordered-set algebra, detect / stage / apply; runs of them and the ignore list; the id-keyset scan |
| OggWalker.dfy | Opus duration from Ogg pages |
| ModelEnrichment.dfy | batch enrichment of model metadata |
| BodyStorage.dfy, RequestBody.dfy, CacheCounters.dfy | the two body storages, one request's body, the usage counters |
| Invoices.dfy | `vendor:amount` pairs |
| Pricing.dfy | request-owned price rows |
| Verification.dfy | verification codes |
| Basics.dfy, Text.dfy, Sums.dfy | shared types; splitting, joining and trimming; sums over maps |

## Where the code differs from what one expects

Each of these is stated with the exact condition under which the expected
property holds.

- Deleting the disabled keys of a channel whose keys are all auto-disabled
  empties the key text; the update then keeps the old text (an empty field is
  not written) and every key comes back enabled (`MultiKey.Channel.DeleteDisabledKeys`,
  `MultiKeyRuns.DeletedKeyComesBack`).
- A blank key survives inside a key text but is lost at an end of it, and then
  the statuses of the other keys shift. A deletion is exact if and only if it
  leaves no blank end (`MultiKey.Channel.DeleteKey`, `MultiKeyRuns.DeletionLosesAStatus`),
  and a new channel counts its keys right if and only if neither end is blank
  (`MultiKeyRuns.AddChannel`, `MultiKeyRuns.CreatedTooLarge`). Runs agree with
  what an operator expects exactly otherwise (`MultiKeyRuns.AgreesIff`).
- Enabling a key automatically leaves its old disable time and reason behind,
  and a later manual disable shows them (`MultiKeyRuns.StaleTimeComesBack`,
  `MultiKeyRuns.ShowsTheLastMark`).
- An action on a multi-key channel works on a copy of the row and is saved later:
  an automatic update reads before it locks and saves, all but the key text, after
  it unlocked (model/channel.go:784-810), and a manual action reads before it
  locks (controller/channel.go:1533-1567). Saving does what the action should, for
  every action, if and only if the row has not changed since its load
  (`KeySaves.SavesLandIff`). A mark loaded before a deletion and saved after it is
  lost and leaves a row that counts too many keys (`KeySaves.MarkSavedAfterADeletion`).
- A retry that overlaps the call it repeats can miss the replay lookup. It moves
  nothing, but it is answered as a replay only if it passes every check made
  before its row: a retry of a final settlement is told `hold_closed`, where
  docs/compute-bridge.md promises the hold (`ComputeHold.OverlappingRetry`,
  `ComputeHold.FinalSettleRetryIsRefused`).
- A refund goes to the wallet the login spends from when the hold closes, which
  is the charged one if and only if the login has not moved
  (`ComputeHold.RefundReachesHome`).
- A Midjourney row can be refunded twice if a failing write leaves the status
  as it was, if a response repeats an id, or through the webhook, which does not
  swap (`Midjourney.RacePaysTwiceIff`, `Midjourney.RepeatedItemPaysTwice`,
  `Midjourney.WebhookReopensARefundedRow`). At-most-once therefore relies on
  honest failures (used in `AnswerIsOk`), on one item per id (used in
  `OneItemPerIdIsAllowed`), on there being no webhook write, and on no priced row
  being inserted failed and unfinished (used in `StepKeepsRows`). The rules for
  items and for inserts are exact (`Midjourney.SafeToHearIff`,
  `Midjourney.SafeToInsertIff`). The code breaks the last one itself:
  relay/mjproxy_handler.go:598-613 stores the status upstream reports for a job it
  already knows, "FAILURE" included, at progress 0%
  (`Midjourney.SubmissionsAreClosedUnless`).
- A Midjourney submission that is not charged (relay/mjproxy_handler.go:493-495,
  592-596) still stores its price, and the refund is what the row stores. The
  exact condition for a refund to stay within the charge is
  `MidjourneyCharges.SubmissionsAreRefundedWithinIff`.
- The limiter agrees with its reference, and spaces its admissions, for windows
  up to the expiration plus one second and no further
  (`RateLimiter.SweepForgetsTooEarly`).
- The rate settings "NaN" and "Inf" pass both range checks, although an infinite
  rate makes two calls at one instant refill zero times infinity
  (`TokenBucket.UsableUnlessOdd`).
- An empty read at the end reports EOF from memory and nothing from disk, one
  read of a file returns at most 1 GiB, a file cannot seek past the operating
  system's limit, and a seek of a kind Go does not define is refused by memory
  while a file passes it on (`BodyStorage.Indistinguishable`).
- Ignoring an upstream model keeps it away for good, except one whose own name
  reads as a pattern that does not match it (`UpstreamRuns.IgnoredForGood`,
  `UpstreamRuns.IgnoredComesBackIff`).
- Applying an upstream model that bears the name of an ignore pattern drops the
  pattern (`Upstream.PatternNameDropsThePattern`), and a model name containing a
  comma stays pending for ever (`Upstream.CommaNamesStayPending`); convergence
  holds exactly otherwise (`Upstream.Converges`).
- docs/compute-bridge.md says a replayed extend answers with the hold's current
  quota. The model function returns the stored extension and the handler reads
  the hold again; the model follows the function.

## Model

| member | source | states |
|---|---|---|
| `ComputeHold.EveryRunConserves` | model/compute_hold.go:20-30 | over every sequence of holds, settlements, extensions, releases, expiries, replays, token movements, tenant changes and outside wallet movements, the books stay consistent (every hold agrees with the sum of its settlement rows and of its extension rows), wallets plus what holds have taken only change by outside amounts, and each token plus its movements under way plus what its holds have taken never changes |
| `ComputeHold.ClosedBooks` | model/compute_hold.go:26-28 | starting from no holds, once every hold is closed the wallets are short by exactly the settled spend |
| `ComputeHold.DecisionsAreSound` | model/compute_hold.go:142-585 | every write a verb decides on keeps the row invariants, touches only an open hold (or creates one), moves exactly the change in what the hold has taken, and never charges more than the wallet holds |
| `ComputeHold.CommitConserves` | model/billing_entity.go:139-152 | applying a sound write moves money between wallet, hold and token without making or losing any |
| `ComputeHold.StepConserves` | model/compute_hold.go:142-585 | the same for one step of any kind, outside movements being the only source of change |
| `ComputeHold.StepKeepsOk` | model/compute_hold.go:142-585 | every step keeps holds, settlement rows and extension rows in agreement |
| `ComputeHold.CommitKeepsBacked` | model/compute_hold.go:250-259 | a write adds its settlement or extension row exactly when it raises the settled or held amount by it |
| `ComputeHold.NeverOverdraws` | model/billing_entity.go:199-216 | no verb takes a wallet below zero |
| `ComputeHold.GoesThroughExactlyWhen` | model/compute_hold.go:142-524 | helper: the guards of the five verbs gathered in one predicate, for new requests |
| `ComputeHold.RefusalsMoveNothing` | docs/compute-bridge.md:97-101 | a refused verb changes nothing at all, except that meeting a lapsed hold expires it exactly as the sweep would |
| `ComputeHold.SettleTellsTheTruth` | model/compute_hold.go:209-288 | a fresh settlement answers with the increase in settled quota and exactly the amount the wallet got back, which is nothing unless it is final, and leaves the hold row and the settlement row that say so |
| `HoldAnswers.ExtendTellsTheTruth` | model/compute_hold.go:374-416 | a fresh extension answers, and keeps for its retries, the hold's quota and the wallet's balance in the state it leaves, both moved by what was asked for |
| `HoldAnswers.CreateTellsTheTruth` | model/compute_hold.go:157-187 | a fresh hold answers with the row it leaves: the request's own fields, open and unspent, with the wallet charged exactly its quota |
| `HoldAnswers.ReleaseTellsTheTruth` | model/compute_hold.go:432-484 | a release answers with the row it leaves; closing an open hold gives back all that was not settled, and any other release moves nothing |
| `HoldAnswers.TokenStepMoves` | model/compute_hold.go:186 | a queued token movement reaches its token and nothing else moves |
| `HoldAnswers.RefusalsSayWhy` | model/compute_hold.go:557-569 | every refusal gives a reason that is so in the state it leaves: expired holds are expired, closed ones settled or released, an exceeded hold is smaller than asked, and so on for all eleven |
| `ComputeHold.EveryRunGrows` | model/compute_hold.go:557-569 | in every continuation settled and held amounts never shrink, request fields never change, rows are never lost, and a closed hold never changes again |
| `ComputeHold.CreateIsIdempotent` | model/compute_hold.go:190-200 | after a hold was created, in every later state the same request answers that hold and moves nothing, and any other request under its id is a conflict |
| `ComputeHold.SettleIsIdempotent` | model/compute_hold.go:290-312 | after a settlement, in every later state a retry that looks it up moves nothing and answers with the hold as it then stands; the same event id with anything else is a conflict |
| `ComputeHold.ExtendIsIdempotent` | model/compute_hold.go:341-364 | after an extension, in every later state a retry that looks it up reserves nothing and answers with the stored extension; anything else under that id is a conflict |
| `ComputeHold.ReleaseIsIdempotent` | model/compute_hold.go:432-448 | a release, once answered, is answered the same way in every later state and moves nothing again |
| `ComputeHold.OverlappingRetry` | model/compute_hold.go:216-279 | a retry of a create, settle or extend whose lookup came before the first call was applied still moves nothing whenever it comes to its transaction, except that meeting a lapsed hold expires it; it is answered as a replay if and only if it gets as far as the row it duplicates, past every check that comes before |
| `ComputeHold.LateDuplicates` | model/compute_hold.go:359-423 | the order of the checks inside the transaction decides: past all of them the answer is the one the lookup would have given, otherwise it is a refusal |
| `ComputeHold.FinalSettleRetryIsRefused` | model/compute_hold.go:227-229 | an overlapping retry of a final settlement is told that the hold is closed, in every later state, although the settlement was applied |
| `ComputeHold.StaleReadsAreHarmless` | model/compute_hold.go:571-585 | a verb that decided on a hold row read any number of steps earlier writes exactly what it would decide now, whenever the guard of its conditional update (status, quota, settled quota) still matches |
| `ComputeHold.EveryWalletConserves` | model/billing_entity.go:139-152 | if no login changes wallets while it has an open hold, each wallet plus what the holds opened on it have taken changes only by outside movements of that wallet |
| `ComputeHold.RefundReachesHome` | model/compute_hold.go:260-264 | a refund reaches the wallet the hold was charged to if and only if its login still spends from that wallet |
| `ComputeHold.MovedLoginTakesTheRefund` | model/compute_hold.go:460-465 | the shortest run in which it does not: a login leaves its tenant between hold and release and its own wallet is credited with the tenant's money |
| `ComputeHold.ExpireStep` | model/compute_hold.go:488-524 | expiring closes a hold exactly when it is open and lapsed, and then releases all that was not settled |
| `ComputeHold.SweepExpired` | model/compute_hold.go:526-548 | one sweep over the ids it was given expires exactly those that are still lapsed, leaves every other row alone, counts what it closed, and conserves money |
| `Midjourney.RefundedOnce` | controller/midjourney.go:153-233 | in every interleaving of any number of polling passes with inserts and bulk failures, each row is refunded at most once, by its own quota, to its own user, and exactly when a pass won the swap that wrote its failure and the credit succeeded; the rules it relies on are one item per id, honest failures, no webhook write, and no insert of a priced row that is failed but unfinished |
| `Midjourney.NothingLeftDue` | controller/midjourney.go:208-219 | once no refund is under way every won priced failure has been paid exactly once or its credit failed, and nothing else was paid |
| `Midjourney.BalancesFollowPayments` | controller/midjourney.go:215-219 | in any run, well-behaved or not, every user balance grows by exactly the payments recorded for that user |
| `Midjourney.AnswerIsOk` | controller/midjourney.go:160-211 | for an honest item on a row not yet failed (or worth nothing), a pass asks for a refund if and only if it is about to write a failure of a priced row, and never writes such a failure short of 100% |
| `Midjourney.StepKeepsRows` | model/midjourney.go:186-197 | every step keeps failed rows complete, and only failed priced rows are claimed |
| `Midjourney.StepKeepsAgents` | controller/midjourney.go:153-233 | every step keeps each pass's private copy consistent with its row: copies are read unfailed, and exactly one pass owes each outstanding refund |
| `Midjourney.StepKeepsPayments` | controller/midjourney.go:212-219 | every step keeps the payment log exact: one payment per paid claim, with the row's own user and quota |
| `Midjourney.HandleResponse` | controller/midjourney.go:153-233 | the loop over the items of a response is exactly the protocol's respond, swap and pay steps in order, unknown ids being skipped |
| `Midjourney.HandleItem` | controller/midjourney.go:160-219 | one item updates the copy, swaps on the status it was read with and pays only after winning, touching no other pass's copy |
| `Midjourney.PassWritesWhatItHeard` | controller/midjourney.go:160-219 | a pass over any unfinished row, with nobody in between, leaves the row showing the item field by field, so that a finished job is stored as finished with its image and video; a reported failure, or an hour without an end, leaves it complete and pays exactly its quota |
| `Midjourney.AnswerShows` | controller/midjourney.go:160-211 | for every item, what a pass is about to write, or has no need to write, shows what was heard; buttons and properties change only to what the item brings |
| `Midjourney.SwapWritesTheCopy` | model/midjourney.go:186-197 | however the steps interleave, a swap writes exactly the pass's copy if the status is still the one it read and nothing otherwise, and only a swap that is known to have succeeded leads to a payment |
| `Midjourney.NotifyWritesWhatItHeard` | relay/mjproxy_handler.go:100-142 | the webhook stores what it is told whatever the row says |
| `Midjourney.BulkFailureEndsTheRow` | controller/midjourney.go:59-99 | a bulk failure fails and completes the row, pays nothing, and no later pass reads it |
| `Midjourney.InsertStores` | relay/mjproxy_handler.go:620-625 | a submission is stored under its own new id and touches no other row |
| `Midjourney.SubmissionStores` | relay/mjproxy_handler.go:563-619 | what a submission stores, field by field |
| `Midjourney.OneItemPerIdIsAllowed` | controller/midjourney.go:153-158 | a response that lists each id once and fails honestly leads only to steps the safety theorem covers |
| `Midjourney.RacePaysTwiceIff` | controller/midjourney.go:169-215 | from any state in which neither has read the row, two passes that both read it pay it twice if and only if both items, after the timeout rule, fail a row worth something and the first one leaves its status as it was |
| `Midjourney.SafeToInsertIff` | relay/mjproxy_handler.go:563-625 | a row can be paid twice by steps that break no rule if and only if it was inserted failed, priced, with an upstream id and unfinished |
| `Midjourney.FailedRowPaysTwice` | controller/midjourney.go:153-233 | the run that does it, from any such row: two snapshots, two honest failures that may differ, two swaps, two payments |
| `Midjourney.SafeToHearIff` | controller/midjourney.go:160-211 | the rule for items is exact too: with every other step keeping the rules, an item can get some row that is safe to insert paid twice if and only if it is not honest |
| `Midjourney.ReasonWithoutFailure` | controller/midjourney.go:204-215 | the run for an item with a reason short of 100% that does not say FAILURE |
| `Midjourney.FailureWithoutReason` | controller/midjourney.go:204-215 | the run for an item that says FAILURE short of 100% without a reason: one pass writes it and leaves the row unfinished, and two later passes that hear honest failures pay it twice |
| `MidjourneyCharges.RefundedWithinIff` | controller/midjourney.go:208-219 | no run refunds a row by more than it was charged, if and only if it was charged at least its stored quota or the passes never look at it |
| `MidjourneyCharges.SubmissionsAreRefundedWithinIff` | relay/mjproxy_handler.go:493-625 | a submission is refunded at most what it was charged if and only if it is free, has no id upstream, is inserted complete, or was charged and is not a job upstream already knows to have failed: an action that costs nothing, a failed request and a refused job are stored with their price all the same |
| `MidjourneyCharges.PaymentsAreQuotas` | controller/midjourney.go:208-219 | in every run, whatever upstream sends and whoever writes the row, a payment is its own row's quota and rows keep their user and quota |
| `MidjourneyCharges.RefundsNeverExceedCharges` | controller/midjourney.go:153-233 | if every row was charged at least what it stores, no user is ever refunded more than that user was charged, over all rows and every run |
| `MidjourneyCharges.NeverPaid` | controller/midjourney.go:48-58 | a row without an id upstream, or complete, is never read by a pass and never paid, in every run |
| `Midjourney.SubmissionsAreClosedUnless` | relay/mjproxy_handler.go:563-625 | the code inserts such a row itself, exactly for a priced job that upstream answers it already knows (code 21) to have failed |
| `Midjourney.RepeatedItemPaysTwice` | controller/midjourney.go:153-158 | a response listing one id twice refunds it twice, even for an honest failure |
| `Midjourney.WebhookReopensARefundedRow` | relay/mjproxy_handler.go:100-142 | the webhook overwrites a refunded row without a swap, after which another pass refunds it again |
| `MultiKeyRuns.Play` | controller/channel.go:1684-1987 | on every row in order, over every sequence of disable, enable, enable-all, disable-all, delete, delete-disabled, automatic disable, automatic enable and append actions, each loaded and saved before the next is loaded, through the first one that is not safe, the key text and the three sparse index maps show exactly the plain list of key records; while all are safe, indices stay below the size and the size equals the key count, and if every action is faithful where it falls the list is the one an operator expects |
| `KeySaves.SavesLandIff` | model/channel.go:784-810 | saving an action on a copy does, whatever the action, what it would do to the row as it is now, if and only if the row has not changed since the copy was loaded |
| `KeySaves.MarkLandsIff` | model/channel.go:784-810 | while its key stays where it is, an automatic disable does so exactly if nothing changed since the load but that key's own entries |
| `KeySaves.DisableLandsIff` | controller/channel.go:1533-1567 | a manual disable does so exactly if nothing changed since the load but that key's own status |
| `KeySaves.LastSaveWins` | controller/channel.go:1684-1987 | a manual action that goes through saves what it made of its copy and undoes every change saved since the load, unless it would store an empty text |
| `KeySaves.MarksOverwriteEntries` | model/channel.go:381-386 | an automatic update saves the entries of its copy beside the row's keys, by index |
| `KeySaves.RefusedSavesNothing` | controller/channel.go:1684-1987 | an action that is refused on the copy, or finds nothing to do there, saves nothing |
| `KeySaves.SerialRunsAreAtomic` | model/channel.go:784-810 | runs of loads and saves in which no save comes between a load and its save are runs of whole actions |
| `KeySaves.MarkSavedAfterADeletion` | model/channel.go:784-810 | the shortest run that goes wrong: "c" is marked on a copy of "a", "b", "c", "a" is deleted, and the copy is saved; "b" and "c" are both enabled and the row counts three keys |
| `KeySaves.Load` | model/channel.go:784 | a copy with the row's key text, size and maps |
| `KeySaves.SaveWithoutKey` | model/channel.go:381-386 | the size and the maps of the copy land beside whatever keys the row has now, which leaves the row in order if and only if it has as many keys as the copy |
| `KeySaves.SaveMark` | model/channel.go:795-810 | what the row shows after an automatic update worked on a copy loaded earlier |
| `KeySaves.SaveAction` | controller/channel.go:1684-1987 | what the row shows after a manual action worked on a copy loaded earlier: the copy's keys and entries replace the row's |
| `KeySaves.LoadAndSave` | controller/channel.go:1533-1987 | with nothing in between, that is the action itself |
| `MultiKeyRuns.AgreesIff` | controller/channel.go:1684-1987 | after every action of a run the list is the expected one, if and only if no deletion leaves a blank end or nothing at all and nothing is appended to a text of only newlines |
| `MultiKeyRuns.ActsAsExpectedIff` | controller/channel.go:1901-1979 | the same for one action on any list that can be read from a key text |
| `KeyViews.DisablesAll` | controller/channel.go:1805-1817 | after disable-all no key is enabled: the enabled ones are at status 2, a key is auto-disabled exactly if it was before, and times and reasons stay |
| `KeyViews.DisableAllSparesKeys` | controller/channel.go:1921-1958 | disabling all keys first changes nothing about which keys delete-disabled then deletes |
| `KeyViews.DeletesStatusThree` | controller/channel.go:1937-1957 | delete-disabled deletes exactly the keys at status 3 and keeps the others in order |
| `KeyViews.SurvivorsAreKept` | controller/channel.go:1937-1957 | of the survivors, an enabled key is forgotten about and a disabled one keeps its record |
| `KeyViews.EnablesAll` | controller/channel.go:1769-1791 | after enable-all every key shows as enabled, and disabled again by hand it shows no time or reason |
| `KeyViews.DisablesOne` | controller/channel.go:1684-1725 | a manual disable is status 2 whatever the key was and touches no other key |
| `KeyViews.EnablesOne` | controller/channel.go:1727-1767 | enabling one key forgets its past: disabled again by hand it shows no time or reason |
| `KeyViews.MarksOne` | model/channel.go:679-718 | an automatic disable shows the first key of that text at status 3 with its time and reason, and touches no other; without such a key, nothing |
| `KeyViews.UnmarksOne` | model/channel.go:706-707 | an automatic enable shows that key as enabled without a time or reason, although it carries them |
| `KeyViews.InTurnIffEnabled` | model/channel.go:258-272 | a key is in turn for requests exactly when the operator sees it enabled |
| `KeyViews.NobodyInTurn` | model/channel.go:258-272 | after disable-all no request is given a key |
| `KeyViews.EverybodyInTurn` | model/channel.go:258-272 | after enable-all every key has its turn |
| `KeyViews.ListedIff` | controller/channel.go:1590-1643 | the listing holds an entry for a key exactly when its status is asked for, with its index and what it shows |
| `KeyViews.TotalIsListed` | controller/channel.go:1590-1643 | the total of a status is the number of keys a listing of it holds |
| `KeyViews.PreviewHides` | controller/channel.go:1617-1621 | a preview is the key itself up to ten characters and tells longer keys apart only by their first ten |
| `KeyViews.BlankLinesAddNothing` | controller/channel.go:1077-1108 | lines of blanks, tabs and carriage returns are never appended as keys |
| `KeyViews.CleanLinesAreAppended` | controller/channel.go:1077-1108 | clean, distinct lines are appended as they are, in order |
| `KeyViews.CreatedKeys` | controller/channel.go:678-687 | the keys of a new channel are the non-empty lines, trimmed |
| `KeyViews.CreatedCount` | controller/channel.go:678-687 | each of them counts |
| `KeyViews.CleanLinesAreKeys` | controller/channel.go:678-687 | lines that are clean already are the keys, in order |
| `MultiKeyRuns.Act` | controller/channel.go:1684-1987 | one action on the row does exactly what it does to the list, whether safe or not; a safe one leaves the row in order |
| `MultiKeyRuns.ShowsTheLastMark` | controller/channel.go:1596-1613 | in every run, through every re-indexing, a key carries and shows the time and reason of the last automatic disable that nothing cleared since, however it was disabled last |
| `MultiKeyRuns.StaleTimeComesBack` | model/channel.go:706-707 | disabled automatically, enabled automatically and disabled by hand, a key shows the automatic time and reason |
| `MultiKeyRuns.DeletionLosesAStatus` | controller/channel.go:1901-1907 | deleting the first key of "a", blank, "b" enables "b", which was auto-disabled |
| `MultiKeyRuns.AddChannel` | controller/channel.go:678-717 | the keys of a new channel are its non-empty lines, trimmed; none is created for an empty text, and the size is the number of keys read back if and only if neither the first nor the last key is blank |
| `MultiKeyRuns.CreatedTooLarge` | controller/channel.go:678-687 | "a" and a line of blanks are counted as two keys and read back as one |
| `MultiKey.Channel.constructor` | controller/channel.go:686-687 | a row with the given text and size and no entries; it is in order if and only if the size is the number of keys in the text |
| `MultiKey.Channel.Update` | model/channel.go:564-611 | an empty key text leaves the stored text in place, the size is recounted from the text that stays, and status entries past it are dropped |
| `MultiKey.Channel.DisableKey` | controller/channel.go:1684-1725 | marks exactly the chosen key, keeping its time and reason, and fails exactly on a missing or out-of-range index |
| `MultiKey.Channel.EnableKey` | controller/channel.go:1727-1767 | forgets all three entries of exactly the chosen key |
| `MultiKey.Channel.EnableAllKeys` | controller/channel.go:1769-1791 | enables every key and reports how many were not enabled |
| `MultiKey.Channel.DisableAllKeys` | controller/channel.go:1793-1838 | disables exactly the enabled keys, and fails exactly when there is none |
| `MultiKey.Channel.DeleteKey` | controller/channel.go:1840-1918 | removes exactly the chosen record and every survivor keeps its own, if and only if the list left has no blank key at an end; otherwise the entries stay at their indices while the keys shift; the last key cannot be deleted |
| `MultiKey.Channel.DeleteDisabledKeys` | controller/channel.go:1920-1987 | nothing changes when no key is auto-disabled; otherwise exactly the auto-disabled records go and every survivor keeps its own, if and only if some key survives and neither end of the survivors is blank |
| `MultiKey.Channel.AutoDisable` | model/channel.go:679-718 | on the row it was given, marks the first key with the given text, with time and reason, and no other |
| `MultiKey.Channel.AutoEnable` | model/channel.go:706-707 | on the row it was given, drops the status entry of the first key with the given text and leaves its time and reason behind |
| `MultiKey.Channel.AppendKeys` | controller/channel.go:1038-1112 | every existing key stays at its index with its record and the new keys follow enabled, if and only if the old text was not just newlines or nothing is new |
| `MultiKey.Channel.GetKeyStatus` | controller/channel.go:1570-1682 | lists exactly the records with the asked status, with their true indices, the page clamped into range, and totals over all keys |
| `MultiKey.ReindexWithout` | controller/channel.go:1858-1890 | the compaction loop moves every other key's three entries to its new index |
| `MultiKey.ReindexWithoutAuto` | controller/channel.go:1921-1958 | the same for the auto-disabled ones, counting them; what is left over of an enabled key's past is forgotten |
| `MultiKey.DisableEnabled` | controller/channel.go:1805-1817 | the disable-all loop marks exactly the keys that were enabled |
| `MultiKey.CarryOver` | controller/channel.go:1871-1889 | carrying a key's entries to the next free index appends its record and changes no other |
| `MultiKey.FindKey` | model/channel.go:684-690 | the first index holding the key, or the length |
| `MultiKeyRuns.WithoutAutoIs` | controller/channel.go:1937-1957 | the operator sees the same list with exactly the auto-disabled entries gone, in order and otherwise unchanged |
| `MultiKeyRuns.DeletedKeyComesBack` | model/channel.go:568-576 | a channel's only key, auto-disabled and then deleted, is an enabled key again |
| `MultiKey.KeysRoundTrip` | model/channel.go:227-228 | newline-free keys joined by newlines read back as the same list if and only if neither the first nor the last is blank |
| `MultiKey.Rewritten` | controller/channel.go:1901-1907 | some of the keys of a list, stored as text, read back as they are if and only if neither end is blank |
| `MultiKey.AppendedReads` | controller/channel.go:1110-1111 | the appended list reads back as existing keys followed by new ones, if and only if the old text was not just newlines or nothing is new |
| `MultiKey.RowRereads` | model/channel.go:564-611 | whatever list is stored, the row then shows the keys that are read back with the entries that stayed at their indices |
| `MultiKey.WipedOutComesBack` | model/channel.go:568-576 | storing an empty list brings back every old key, enabled |
| `MultiKey.Deduplicate` | controller/channel.go:1077-1108 | the two loops keep exactly the new keys |
| `MultiKey.NewKeysShape` | controller/channel.go:1077-1108 | a key is added if and only if it is a non-blank line and no existing key equals it after trimming, and it is added once |
| `MultiKey.AppendIsIdempotent` | controller/channel.go:1077-1111 | appending the same text again adds nothing |
| `MultiKey.Paginate` | controller/channel.go:1573-1666 | defaults, page clamping and the slice of a page |
| `MultiKey.PagesCoverTheListing` | controller/channel.go:1645-1666 | the pages one after the other are the whole listing, nothing twice and nothing missing |
| `KeyPolling.Channel.constructor` | model/channel.go:231-258 | a channel with its keys, statuses, mode and polling index |
| `KeyPolling.Channel.GetNextEnabledKey` | model/channel.go:231-315 | no keys and no enabled key are errors; otherwise polling takes the first enabled key going round from the index and moves the index past it, random mode takes the drawn one and any other mode the first, leaving the index alone |
| `KeyPolling.FindEnabled` | model/channel.go:296-310 | the search loop always finds one, so its fallback is never reached |
| `KeyPolling.EachEnabledKeyOnce` | model/channel.go:296-308 | with the statuses fixed, as many picks in a row as there are enabled keys, from any polling index, return each enabled key exactly once, in cyclic order |
| `KeyPolling.TheRoundComesBack` | model/channel.go:296-308 | after such a round the next one is the same |
| `KeyPolling.Serve` | model/channel.go:231-315 | any number of requests in a row pick exactly so |
| `RateLimiter.AnswersAsTheLog` | common/rate-limit.go:28-83 | in every run of requests, releases and background sweeps with a clock that does not go back, every answer equals that of a limiter that keeps the full log of unreleased requests and counts those younger than the window |
| `RateLimiter.EveryRunIsSpaced` | common/rate-limit.go:28-83 | in every run of requests, releases and sweeps, for windows up to the expiration plus one second, any max + 1 consecutive requests of a key that the limiter itself admitted and was not given back span at least the window |
| `RateLimiter.ReleasedWasNeverThere` | common/rate-limit.go:75-83 | in every run of the limiter, an admitted request that is released before its key is used again has never been: every other answer, in between and later, is the one without the two |
| `RateLimiter.ReleaseTakesBack` | common/rate-limit.go:75-83 | a release leaves every log as it was before the key's last admission |
| `RateLimiter.AdmitsAsTheLog` | common/rate-limit.go:28-83 | what the limiter itself let through and was not given back is exactly the reference's log |
| `RateLimiter.SweepForgetsTooEarly` | common/constants.go:198-199 | the bound on the window is exact: past the expiration plus one second some run is answered differently from the reference and its admissions are not spaced |
| `RateLimiter.InMemoryRateLimiter.constructor` | common/rate-limit.go:14-26 | starts empty |
| `RateLimiter.InMemoryRateLimiter.Request` | common/rate-limit.go:45-70 | for any limit: admits below it, or by dropping the oldest once it has left the window, and otherwise changes nothing; crashes without a change exactly on an empty queue with a limit below one or on a new key with a negative limit |
| `RateLimiter.InMemoryRateLimiter.Release` | common/rate-limit.go:75-83 | gives back the newest slot of the key, if any |
| `RateLimiter.InMemoryRateLimiter.ClearExpiredItems` | common/rate-limit.go:28-43 | forgets exactly the keys whose queue is empty or whose newest entry has expired, in whatever order they are visited |
| `RateLimiter.SlideTracks` | common/rate-limit.go:51-63 | a queue that tracks its log answers as the log does and keeps tracking it |
| `RateLimiter.ServesFromOneOn` | common/rate-limit.go:45-70 | helper: from a limit of one on, a request is the queue step the run theorems use, and nothing crashes |
| `RateLimiter.SweepTracks` | common/rate-limit.go:33-40 | a sweep keeps every queue tracking its log |
| `TokenBucket.RateLimiter.constructor` | controller/compute_bridge.go:97-99 | starts full and with no last call |
| `TokenBucket.RateLimiter.Take` | controller/compute_bridge.go:101-114 | refills by the elapsed time up to the burst, spends one token if there is one, and answers zero exactly then |
| `TokenBucket.SpendingIsBounded` | controller/compute_bridge.go:101-114 | in any stretch of any run that ends with a spent token, at most burst + rate times the time between its first and last calls are spent, whatever order the times arrive in |
| `TokenBucket.RetryAfterIsExact` | controller/compute_bridge.go:113 | on an otherwise idle bucket a refused caller is granted if and only if it waits out the announced delay |
| `TokenBucket.CeilingIsEnough` | controller/compute_bridge.go:183-186 | waiting out the whole-second header is enough |
| `TokenBucket.NewBucketGrantsItsBurst` | controller/compute_bridge.go:97-114 | a new bucket grants as many calls at one instant as its burst holds whole tokens, and then no more |
| `TokenBucket.SettingReads` | controller/compute_bridge.go:116-139 | the setting means what it says: nothing is 50 and 100, a rate alone has twice that as its burst but at least one, and a rate or burst out of range keeps the default |
| `TokenBucket.UsableUnlessOdd` | controller/compute_bridge.go:116-139 | helper: the range checks gathered in one predicate, which a well-formed NaN or infinite rate passes without being usable |
| `TokenBucket.NaNIsAccepted` | controller/compute_bridge.go:126-130 | the setting "NaN" is accepted |
| `TokenBucket.InfIsAccepted` | controller/compute_bridge.go:126-133 | so is "Inf" |
| `Upstream.MergeModelNames` | controller/channel_upstream_update.go:107-121 | the merge loop appends exactly the normalized names not seen before |
| `Upstream.AppendUnseen` | controller/channel_upstream_update.go:108-120 | the loop keeps the first list and adds, in order, exactly the names it lacks |
| `Upstream.NormalizeNames` | controller/channel_upstream_update.go:100-105 | a normalized list holds exactly the trimmed non-blank entries |
| `Upstream.NormalizeIsNormal` | controller/channel_upstream_update.go:100-105 | a normalized list has no blanks, no padding and no duplicates |
| `Upstream.OperationNames` | controller/channel_upstream_update.go:107-143 | merge, subtract and intersect give normalized lists whose names are the union, difference and intersection |
| `Upstream.SelectedInOrder` | controller/channel_upstream_update.go:145-150 | the changed list is the survivors in their order followed by the genuinely new models in theirs, adding winning over removing |
| `Upstream.PendingAddNames` | controller/channel_upstream_update.go:205-227 | pending additions are exactly the upstream models that are not local, not a redirect target and not ignored |
| `Upstream.PendingRemoveNames` | controller/channel_upstream_update.go:228-236 | pending removals are exactly the local models that upstream lacks and that are no redirect source |
| `Upstream.Channel.constructor` | controller/channel_upstream_update.go:919-930 | a channel with the given stored settings |
| `Upstream.Channel.Check` | controller/channel_upstream_update.go:474-521 | skips, records a failed fetch, stages the changes, or with automatic apply merges everything pending into the list and stages nothing to add |
| `Upstream.Channel.ApplyUpdates` | controller/channel_upstream_update.go:919-967 | the new stored settings and everything reported back, for any lists the operator sends |
| `Upstream.AppliesOnlyWhatWasStaged` | controller/channel_upstream_update.go:932-945 | for any lists the operator sends nothing is added or removed that was not staged and adding wins over removing; survivors keep their order ahead of the new models if and only if no added name contains a comma, and then the change flag is set if and only if the set of models changed |
| `Upstream.StagedSplits` | controller/channel_upstream_update.go:947-954 | staged additions split without loss into added, ignored and remaining, staged removals into removed and remaining, and what is added is no longer ignored |
| `Upstream.ModelsRoundTrip` | model/channel.go:321-326 | a normalized list survives being stored as text if and only if no name contains a comma |
| `Upstream.Converges` | controller/channel_upstream_update.go:179-238 | detecting, applying everything and detecting again leaves nothing pending, if and only if no pending name contains a comma and no upstream model was hidden only by ignore entries that applying drops |
| `Upstream.ConvergesWithoutPatternNames` | controller/channel_upstream_update.go:217-223 | in particular when no pending model bears the name of an ignore pattern |
| `UpstreamRuns.IgnoredForGood` | controller/channel_upstream_update.go:217-223 | a model on the ignore list whose name is no pattern is never pending again, through every sequence of checks, automatic applies and applies that do not add it, whatever upstream comes to offer |
| `UpstreamRuns.IgnoringKeepsAway` | controller/channel_upstream_update.go:932-950 | so is a staged model from the moment the operator ignores it without adding it |
| `UpstreamRuns.IgnoredComesBackIff` | controller/channel_upstream_update.go:217-223 | ignored alone, a model is detected again if and only if its name reads as a pattern that does not match it |
| `UpstreamRuns.PlainNamesAreNeverPending` | controller/channel_upstream_update.go:217-223 | a plain entry keeps the model of that name away |
| `UpstreamRuns.MatchedNamesAreNeverPending` | controller/channel_upstream_update.go:218-221 | a pattern, with any blanks around it, keeps away every model it matches |
| `UpstreamRuns.OthersArePending` | controller/channel_upstream_update.go:213-227 | a new upstream model that no entry names and no pattern matches is pending |
| `UpstreamRuns.IgnoredByApplying` | controller/channel_upstream_update.go:947-950 | an apply ignores exactly what was ignored before or is staged and sent to be ignored, except what it adds |
| `UpstreamRuns.TooSoon` | controller/channel_upstream_update.go:474-521 | an unforced check within the interval after another check or an apply does nothing |
| `UpstreamRuns.VisitsAreDated` | controller/channel_upstream_update.go:478-521 | helper: every check that is made and every apply is dated |
| `UpstreamRuns.SyncStagesNothing` | controller/channel_upstream_update.go:498-510 | an automatic apply stages nothing to be added, and what was pending is then local unless a name has a comma |
| `Upstream.PatternNameDropsThePattern` | controller/channel_upstream_update.go:947-950 | a pending model named like the only pattern hiding another one: applying it makes that other one pending |
| `Upstream.PatternNameExample` | controller/channel_upstream_update.go:217-223 | the concrete case: "regex:x" hides "y", and once the model "regex:x" is applied "y" is detected |
| `Upstream.CommaNamesStayPending` | controller/channel_upstream_update.go:942-945 | a model whose name contains a comma stays pending whatever is stored |
| `Upstream.SyncConverges` | controller/channel_upstream_update.go:498-510 | after an automatic apply the next check has nothing to add, if and only if no pending name contains a comma, and then it has the same models to remove |
| `Upstream.MergedIsLonger` | controller/channel_upstream_update.go:499-505 | merging what is pending grows the list by exactly its length |
| `ChannelScan.Scan` | controller/channel_upstream_update.go:673-761 | the batched scan terminates and visits every enabled channel exactly once in id order for every batch size, or a prefix of them when cancelled |
| `ChannelScan.ScanChanging` | controller/channel_upstream_update.go:673-761 | on a table that changes between queries, ids are visited in strictly ascending order, and every channel that is enabled throughout is visited once the scan has passed its id, hence by the end |
| `ChannelScan.BatchHas` | controller/channel_upstream_update.go:973-984 | a batch leaves out no id between the last one seen and its own last one |
| `ChannelScan.PastIs` | controller/channel_upstream_update.go:973-984 | the rows past the last id seen are the ones not visited yet |
| `OggWalker.GetOpusDuration` | common/audio.go:196-254 | terminates on every byte string and returns the largest signed granule position the walk meets, or zero, over 48000 |
| `OggWalker.ReadHeader` | common/audio.go:208-235 | the capture pattern, the little-endian signed granule position and the segment count of a header |
| `OggWalker.SegmentTotal` | common/audio.go:242-245 | the size of a page body is the sum of its segment table |
| `OggWalker.WalksThePages` | common/audio.go:207-249 | over junk without a capture pattern, any well-formed pages of section 6 of RFC 3533 and a short tail, the walk stops at exactly the page starts and finds the largest granule position |
| `OggWalker.CutPageCounts` | common/audio.go:229-249 | a last page that is cut off anywhere behind its header counts like a whole one |
| `OggWalker.LargestIsMaximum` | common/audio.go:229-232 | that is the maximum of zero and all granule positions |
| `OggWalker.SkipsJunk` | common/audio.go:219-226 | resynchronisation moves one byte at a time until the capture pattern |
| `OggWalker.ReadsPage` | common/audio.go:228-245 | an encoded page is read back with its granule position, segment count and segment table |
| `OggWalker.GranuleRoundTrip` | common/audio.go:229 | every signed 64-bit position survives its eight bytes |
| `ModelEnrichment.EnrichModels` | controller/model_meta.go:173-339 | the batch gives every model in the array what the one-at-a-time definition asks for (exact names read their own data; rules get the union of endpoints, groups and channels, sorted distinct quota types, and the matched names in price-list order) and leaves missing ones missing |
| `ModelEnrichment.MatchesIff` | controller/model_meta.go:231-238 | a prefix rule matches exactly the names that begin with its own, a suffix rule those that end with it, a contains rule those that hold it, and no other rule matches anything |
| `ModelEnrichment.MatchedIff` | controller/model_meta.go:227-246 | a name is listed as matched exactly if a price row of that name is matched |
| `ModelEnrichment.SplitRules` | controller/model_meta.go:179-192 | exact models are indexed under their own names, all others listed once |
| `ModelEnrichment.EnrichExact` | controller/model_meta.go:194-212 | every exact model, also under a repeated name, is filled from its own name and nothing else changes |
| `ModelEnrichment.CollectMatches` | controller/model_meta.go:219-269 | one pass over the price list gives every rule its own tally, as if it were the only rule |
| `ModelEnrichment.TallyIs` | controller/model_meta.go:227-269 | a tally holds exactly what the matching price rows offer |
| `ModelEnrichment.AllMatched` | controller/model_meta.go:272-282 | the second query asks for every matched name |
| `ModelEnrichment.UnionChannels` | controller/model_meta.go:319-333 | the channels of all matched names, each once |
| `ModelEnrichment.KeyIsInjective` | controller/model_meta.go:323 | name and type can be read back from the key, so de-duplication never merges different channels |
| `ModelEnrichment.FillRule` | controller/model_meta.go:286-337 | a rule model ends up with exactly what its matches offer, and keeps what it had where there is nothing |
| `ModelEnrichment.Backfill` | controller/model_meta.go:285-338 | only rule models are written, each once |
| `ModelEnrichment.SortInts` | controller/model_meta.go:310-315 | the quota types in ascending order, none lost |
| `BodyStorage.Indistinguishable` | common/body_storage.go:29-238 | any sequence of Read, Seek, Bytes, Size and Close gives the same observations on memory and on disk, whatever the operating system makes of undefined kinds of seek and however far it lets a file seek, if and only if on the open storage it makes no empty read at the end, no read of over 1 GiB where there is as much, no seek past that limit, and no undefined seek that the system accepts |
| `BodyStorage.SeekingForDataTells` | common/body_storage.go:178-185 | the concrete case: kind 3 is refused by memory and followed by a file where the system looks for data |
| `BodyStorage.MemoryStorage.constructor` | common/body_storage.go:37-45 | holds the data from its first byte |
| `BodyStorage.MemoryStorage.Perform` | common/body_storage.go:47-85 | every operation on the memory storage, as a function of data, position and closed flag |
| `BodyStorage.DiskStorage.constructor` | common/body_storage.go:100-130 | holds the data from its first byte |
| `BodyStorage.DiskStorage.Perform` | common/body_storage.go:169-234 | the same for the disk storage, one read returning at most 1 GiB and a seek past the system's limit being refused |
| `BodyStorage.DiskStorage.ReadAll` | common/body_storage.go:206-229 | reads the whole file and leaves the position where it was |
| `BodyStorage.ChunksAddUp` | common/body_storage.go:47-54 | reads of any sizes return the data in order, without gap or overlap |
| `BodyStorage.BodyStaysWhole` | common/body_storage.go:47-85 | whatever was read, sought and asked before, both storages give the whole body until they are closed, and its size even then |
| `BodyStorage.SeeksLead` | common/body_storage.go:56-63 | a seek leads from the start, from here or from the end, on either storage, and one below zero is refused without moving |
| `BodyStorage.ReadsFromTheOffset` | common/body_storage.go:47-63 | a read after a seek starts at that offset |
| `BodyStorage.EndIsReported` | common/body_storage.go:47-54 | a read that asks for something says EOF exactly at or past the end |
| `RequestBody.CreateBodyStorage` | common/body_storage.go:241-259 | the same bytes whichever backend is chosen, disk exactly for large bodies that fit |
| `RequestBody.CreateFromReader` | common/body_storage.go:262-303 | whatever backend and whatever announced length, the whole body, or too large exactly when it is longer than the limit; on disk exactly if the announced or the actual length reaches the threshold and still fits |
| `RequestBody.Request.constructor` | common/gin.go:36-57 | a request whose body nobody has read |
| `RequestBody.Request.GetRequestBody` | common/gin.go:36-83 | succeeds exactly when the body fits, always leaves it at offset 0, and never touches the network again once stored |
| `RequestBody.Request.UnmarshalBodyReusable` | common/gin.go:108-155 | the decoder is given the whole original body, and after a success the body is readable from offset 0 again |
| `RequestBody.Request.Cleanup` | common/gin.go:99-106 | closes the storage and forgets it, leaving everything else |
| `RequestBody.ClosedRefuses` | common/body_storage.go:47-81 | a closed storage of either kind refuses every read, seek and fetch of its bytes and stays as it is |
| `RequestBody.Serve` | common/gin.go:36-155 | any sequence of fetches and decodes before cleanup: the network body is read at most once, every answer is what the body and the decoder alone determine, and after each success the body is at offset 0 |
| `CacheCounters.AlwaysExact` | common/disk_cache_config.go:108-134 | over every interleaving of creations and repeated closes at atomic-operation granularity, no clamp is reached and each counter equals what the storages in flight account for |
| `CacheCounters.QuiescentCounters` | common/disk_cache_config.go:108-134 | at quiescence each counter is the count and byte sum of the open storages |
| `CacheCounters.StepBalances` | common/body_storage.go:65-72 | each atomic step changes its counter by exactly the change in the storage's own standing |
| `CacheCounters.ClosingGivesBack` | common/body_storage.go:65-76 | closing a storage of either kind takes it and its size off the counters of its kind alone, once |
| `CacheCounters.OpeningCounts` | common/body_storage.go:37-45 | opening one adds it and its size |
| `CacheCounters.ResetFiresTheClamp` | common/disk_cache_config.go:153-156 | resetting the usage while a file is open is what makes the clamp fire |
| `CacheCounters.ClampsRecover` | common/disk_cache_config.go:108-134 | then the clamps bring both counters back to zero and the storage is gone all the same |
| `Invoices.ParseInvoicedTotals` | controller/reconcile.go:102-119 | pairs are read in order, later ones overwriting, and the first bad pair or amount is the answer |
| `Invoices.RoundTrip` | controller/reconcile.go:101-119 | printing any pairs, with any blanks, empty fields and colons in vendors, and parsing them gives back exactly their amounts |
| `Invoices.MeantIs` | controller/reconcile.go:101-119 | with distinct vendors the map holds every pair's own amount and nothing else |
| `Invoices.FirstBadPairIsTheAnswer` | controller/reconcile.go:102-119 | after any readable fields the first pair that cannot be read is the answer, whatever follows |
| `Invoices.WhatIsBad` | controller/reconcile.go:108-111 | a pair without a colon, or with nothing before its only colon, is a bad entry |
| `Invoices.EntryOfPair` | controller/reconcile.go:108-116 | a pair is cut at its last colon, both sides stripped; it is a bad amount if and only if the amount is no number |
| `Invoices.SplitAndTrim` | controller/reconcile.go:304-325 | the character loop is split, trim, drop empty |
| `Invoices.TrimSpace` | controller/reconcile.go:327-336 | strips exactly the spaces and tabs at both ends |
| `Invoices.CutLast` | controller/reconcile.go:338-347 | cuts at the last separator and trims both sides |
| `Pricing.Serve` | controller/pricing.go:66-110 | over any sequence of requests on one shared cached table, each answer is what that table alone determines for its caller: no request leaves anything in the table |
| `Pricing.GetPricing` | controller/pricing.go:66-95 | the four stages on copied rows publish exactly the specified list in freshly allocated rows and write nothing to the cached table |
| `Pricing.ApplyCustomer` | controller/pricing.go:147-173 | annotates a copy of the rows with the caller group's discount on catalogued models; an anonymous caller gets the table itself, unwritten |
| `Pricing.FilterByUsable` | controller/pricing.go:42-64 | keeps exactly the rows for everybody or with a usable group, in order |
| `Pricing.HideGroups` | controller/pricing.go:24-40 | rewrites the groups of copied rows to the usable ones |
| `Pricing.ApplyDefault` | controller/pricing.go:122-142 | annotates a copy of the rows with the default group's discount |
| `Pricing.PublishesOnlyUsableGroups` | controller/pricing.go:14-23 | every published row not for everybody names at least one group and only groups its caller may use, and its model and price are as cached |
| `Pricing.PublishedIff` | controller/pricing.go:42-64 | a row is published if and only if the caller may use some group and the row is for everybody or for one of them |
| `Pricing.PublishedShows` | controller/pricing.go:24-40 | what a published row shows: the cached model and price, of its groups only the usable ones unless it is for everybody, and the two discounts |
| `Pricing.PublishedInOrder` | controller/pricing.go:42-64 | published rows keep the order of the table |
| `Pricing.AdvertisedAlike` | controller/pricing.go:115-121 | helper: the default-group annotation of one row does not depend on the caller, and no caller sees a contract other than its own group's |
| `Verification.VerifiesLatest` | common/verification.go:35-72 | after every run of registrations, evictions and deletions, a code verifies if and only if it is the code of the latest undeleted registration of its own purpose and key and less than ten minutes have passed |
| `Verification.HoldsLatest` | common/verification.go:35-72 | the store holds the latest registration of each purpose and key, unless that has expired |
| `Verification.StaysSmall` | common/verification.go:42-44 | after a registration the store holds at most ten codes, or none that is ten minutes old |
| `Verification.EvictsOnlyTheDead` | common/verification.go:65-72 | eviction drops exactly the codes that could not be verified any more |
| `Verification.SameSlot` | common/verification.go:15-18 | the two purposes never share a slot |
| `Verification.Store.constructor` | common/verification.go:74-78 | starts empty |
| `Verification.Store.Register` | common/verification.go:35-45 | stores the code and evicts expired ones once the map is too large |
| `Verification.Store.Verify` | common/verification.go:47-56 | accepts exactly an unexpired equal code |
| `Verification.Store.Delete` | common/verification.go:58-62 | forgets exactly that purpose and key |
| `Verification.Store.RemoveExpiredPairs` | common/verification.go:65-72 | forgets exactly the expired entries, in whatever order they are visited |

## Left out

- Saturating quota arithmetic (common/quota_math.go): would only add easy members.
- Audio formats other than the Ogg walker, URL and proxy handling, sessions, passkeys, OAuth, HTTP, Redis, logging and notifications.
- 64-bit and 32-bit overflow: integers are unbounded, except that holds are capped at the 32-bit bound the source checks and granule positions are converted to signed 64-bit values.
- I/O failures of files and readers, and failed queries during enrichment.
- ComputeHold: a duplicate met inside a transaction is answered in the same step, although the source reads its row again after rolling back. A token movement that fails after its transaction is only logged by the source; here it stays queued. Consume logs, caches and the handler's SKU check are not modelled.
- ComputeHold.SweepExpired: takes the ids the query returned, which are distinct primary keys, and does not model the query's order and limit.
- Midjourney.NotifyWritesWhatItHeard: an empty list of video addresses is not told apart from none, which the webhook stores as "null".
- Midjourney: the grouping of rows by channel and the billing log entry; a row whose id upstream is empty can only be failed in bulk.
- Midjourney.RefundedOnce: excludes repeated ids, dishonest failures, the webhook and inserts that are priced, failed and unfinished, each of which has its own lemma showing a second payment (`RepeatedItemPaysTwice`; `ReasonWithoutFailure` and `FailureWithoutReason`; `WebhookReopensARefundedRow`; `FailedRowPaysTwice`).
- Midjourney.RacePaysTwiceIff: conditional updates count the rows that matched, as SQLite and PostgreSQL do. MySQL's driver counts the rows that changed unless told otherwise, so that there a second swap that writes exactly what is stored is not won; the two items of the race may differ, and then it is.
- ComputeHold.GoesThroughExactlyWhen: the same goes for the conditional update of a hold. Under MySQL's count a settlement of nothing in the same second as the hold's last update changes no column and is refused.
- MidjourneyCharges: the charge of a submission whose row could not be inserted, and the face-swap handler.
- KeyViews.PreviewHides: counts characters where the source counts bytes, which is the same for ASCII keys.
- MultiKey: key texts that are JSON arrays, the Vertex key formats and the channel-level status, on which it also depends whether an automatic update is made at all.
- MultiKeyRuns.Play: every action is loaded and saved at once; `KeySaves` states what overlapping loads and saves do, one save at a time. It stops after the first action that is not safe, since the row may then hold entries beyond its size; what that action itself shows is stated.
- KeyPolling: the saving of the polling index and concurrent channel copies.
- TokenBucket: the delay's truncation to whole nanoseconds.
- Upstream: the trimming of the redirect mapping's JSON text, and failures to store settings or abilities.
- ChannelScan.Scan: ids are positive, as auto-increment keys are, and the table does not change during the scan; `ScanChanging` is for one that does.
- ChannelScan.ScanChanging: the queries made are given as a finite list, so it does not show that a scan over a table that keeps growing ends.
- OggWalker: a reader that returns fewer bytes than asked before its end, and invalid seeks.
- ModelEnrichment: models are array elements, so two entries that share one model are not modelled; the four maps of the matching pass are one map of records.
- BodyStorage: the memory storage's Bytes returns its own slice, which a caller could write to.
- RequestBody.Request: holds its storage as a value; a request used after cleanup is not modelled.
- CacheCounters: hit counters and the resynchronisation from the file system.
- Invoices: invalid UTF-8.
- Pricing: group ratios, vendors and the refresh of the cached table.
- Verification: clocks that go back.

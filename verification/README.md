# The campaign-enrolment engine, verified

This project models the engine under `scripts/` that enrols products in sales campaigns and sets
their discounts, and proves what the engine is relied on for. The engine drives an untrusted
browser transport. It must never repeat a write whose outcome it does not know, never lose a
product, and never submit a price that breaks the fixed rounding, cap and floor rules.

Files, from the ledger up:

- `Ledger.dfy`: the write-ahead ledger of actions with leases, recovery and read retries. Every
  autocommitted statement is one step of one process, and a crash may fall between any two steps.
  `LedgerLaws.dfy` says what each call does to the stored rows.
- `Rounds.dfy`: one step of the controller as a function of the saved state and of the replies of an
  arbitrary transport, malformed replies included. `RoundProofs.dfy`, `RoundGate.dfy`,
  `ScopeProofs.dfy` and `Requirements.dfy` prove what the steps keep, `Runs.dfy` what whole runs
  keep, and `Witnesses.dfy` holds concrete histories. `RoundFates.dfy` and `ImportFates.dfy` tell how
  each round and each import ends from the replies alone. `Controller.dfy` is the controller itself: each
  method does exactly what the function of its name says, and a run records its history.
- `Authority.dfy`: the claim and terminal tables per product.
- `Claims.dfy`, `Overlays.dfy`, `Inclusions.dfy`: later operations on saved discounts (amendments,
  cost revisions, repairs, added SKUs) and their projection onto the imported offers; `OverlayLaws.dfy`
  tells the projection row by row from the tables.
- `Feedback.dfy`, `Normalization.dfy`, `Policy.dfy`, `PartialImport.dfy`: official receipts turned
  into one fate per product. `FeedbackLaws.dfy` and `NormalizationLaws.dfy` tell accepted reports, errors
  and repairs from the rows of the report and of the ERP data.
- `Prices.dfy`, `PriceBasis.dfy`, `Planning.dfy`, `Reuse.dfy`: price arithmetic, fixed originals,
  planned rows and their reconciliation with saved discounts; `ReuseLaws.dfy` gives the exact verdict on
  each SKU, and `Submission.dfy` takes them together, from the template to the check of the signup claim.
- `Template.dfy`: compaction of an official sheet with merged cells (ECMA-376 Part 1, sections
  18.3.1.54 and 18.3.1.55); `TemplateLaws.dfy` tells accepted inputs and every written cell and range from
  the cells alone.
- `RecoveryTrial.dfy`, `Reservations.dfy`: recovery trials and the shared directory that reserves
  their products.
- `Types.dfy`: shared names.

Code that updates state is a class with methods (`Store`, `Controller`, `Authority`, `Table`,
`Projection`, `MergeRanges`, `Trial`) or a method with loops. Each is tied by its postcondition to a
function of the old state or the inputs. The lemmas then speak about that function over all runs, and the
files named `...Laws` and `...Fates`, with sections of `Authority.dfy`, `Planning.dfy`, `Policy.dfy` and
`PartialImport.dfy`, fix it by conditions on the plain input fields, without the function's own helpers.
`dafny verify dfyconfig.toml` checks everything.

## What the code does not keep

The model follows the code, and these expectations turned out to need a condition. Each has a lemma
with the exact condition, or a concrete history, or both.

1. An imported price-gap report is not checked to name its product
   (`scripts/campaign_continuous_flow.py:339-353`, unlike `:329-333`). Retiring its batch keeps a
   product exactly when some error of the batch names it (`RetirementKeepsExactly`). With an empty
   report the product disappears (`UnnamedImportLosesProduct`), and the run ends complete and
   without exceptions although it was never signed up (`UnnamedRunSignsUpAll`). Coverage over whole
   runs is therefore proved for transports whose price-gap imports name their products.
2. A partial receipt is stored even when every product wholly failed or wholly succeeded, but
   reading it again demands a mixed product (`scripts/campaign_discount_receipt.py:83-88`,
   `scripts/campaign_partial_discount.py:11`). It can be used again if and only if some product was
   mixed (`ReceiptProvesComplement`, `UnusableReceipt`).
3. A generation adopted after an interruption stores its recovery receipt before its result
   (`scripts/campaign_continuous_flow.py:192-195`). If an error falls between the two and the run is
   then unlocked, recovering with that receipt reports success and changes nothing
   (`InterruptedAdoption`, `RecoveryCompletes`).
4. The projection lays each table over the imported amounts in a fixed order: amendments, revisions,
   repairs, inclusions (`scripts/campaign_entry_authority.py:299-307`), whatever order they were made
   in. It succeeds if and only if every record is proven and finds its offer and rows among the
   imported ones, and the amount left by the records before it in that order is the old amount it
   states; a repair may also find its new amount (`ProjectsExactly`, and for the repairs alone
   `RepairsProjectExactly`, `OneRepairProjects`). A repair of a SKU that only an inclusion added
   makes it refuse (`IncludedSkuCannotBeRepaired`). So does a revision of a repaired SKU: a new claim
   must state the projected amount as its old one (`scripts/campaign_cost_revision.py:106-121`, and
   `scripts/campaign_discount_amend.py:67` for amendments), but the projection meets it before the
   repair (`RevisionAfterRepairRefuses`).
5. A product whose discount must be repeated stays required after the template lists it as
   registered. Outside daily segments a bundle can then be accepted if and only if no required
   product was registered (`RegistrationBlocks`). Within one run this can happen in the first round
   only (`LaterRoundsCanContinue`, `EveryRoundCanContinue`), so it takes a stopped run and a later one
   whose template differs, as after a change of the page's title (`RegisteredRequirementBlocks`).
6. The official cut is monotone, but the net price is not: below 100 yuan it never falls, at 100 yuan
   and from there on it falls by one cent more exactly where the rounded cut is used up
   (`NetMonotoneBelow`, `NetAtHundred`, `NetFallsExactly`). The feasible custom price is the greatest
   one that keeps the cap unless the next price or the next range of rounding keeps it too
   (`FloorQuotientIsConservative`).
7. An inexact fixed floor can be corrected only in a source that was registered before registration
   checked floors (`OnlyLegacySourcesAreCorrected`).
8. Reconciliation is a fixpoint unless an ordinary SKU without a planned row shares a product with
   a new row; then exactly that SKU is an issue (`PlanningIsFixpoint`).
9. A half-read history is saved (`scripts/campaign_continuous_flow.py:393-420`, `:539-543`). The
   history of the scope is taken over as a whole or not at all if and only if no imported record of
   an earlier failure has errors that cannot be iterated (`WholeOrNothingExactly`). Otherwise every
   later product stays pending (`RestIsLeftPending`), and the next run submits products whose earlier
   outcome is unknown (`UnknownProductIsSubmitted`).
10. A partial product is removed from its round by its text number only
    (`scripts/campaign_continuous_flow.py:475-485`). It reaches the signup exactly when the discount
    reply gives its number as a number and it is not enrolled yet (`RefusedProductsStayOut`,
    `NumericPartialIsSignedUp`).

## Model

| member | source | states |
|---|---|---|
| Ledger.Store.Start | scripts/campaign_continuous_flow.py:57-63 | a run is created once; starting it again keeps its owner |
| Ledger.Store.Lock | scripts/campaign_continuous_flow.py:65-80 | shop row and owner column are taken together or not at all |
| Ledger.Store.Unlock | scripts/campaign_continuous_flow.py:82-86 | owner column, then shop row, each only under the same token |
| Ledger.Store.Recover | scripts/campaign_continuous_flow.py:96-132 | refuses owned runs, unbound or conflicting receipts and finished actions; otherwise stores receipt and result in one transaction |
| Ledger.Store.AllowReadRetry | scripts/campaign_continuous_flow.py:134-147 | deletes only an idle interrupted read |
| Ledger.Store.Once | scripts/campaign_continuous_flow.py:149-198 | a finished action is answered without a call; an action without a row is executed exactly once, an existing one never again |
| Ledger.UndisturbedAction | scripts/campaign_continuous_flow.py:149-198 | the separate statements of an action, run without interference, have the effect of the whole method |
| Ledger.WritesExecuteAtMostOnce | scripts/campaign_continuous_flow.py:96-198 | over every interleaving with crashes, cleared leases, restarts, recoveries and read retries a write is executed at most once, after its row exists; its row stays and a finished result never changes |
| Ledger.CrashedWriteIsNotRepeated | scripts/campaign_continuous_flow.py:65-198 | after a crash inside a write the run is locked out of everything; once its lease is cleared a restart does not repeat the write, and an exact recovery finishes it |
| Ledger.RetriedReadRunsAgain | scripts/campaign_continuous_flow.py:134-147 | an explicitly retried read is executed again, so at-most-once is a promise for writes only |
| Ledger.OwnedRunsHaveShops | scripts/campaign_continuous_flow.py:65-86 | in every reachable state a run with an owner has the matching shop row, also between the statements of unlock |
| Ledger.LeasesExclusiveAlways | scripts/campaign_continuous_flow.py:65-86 | no two live processes ever share a shop, nor a run while neither is unlocking |
| Ledger.OwnedRunsAreUntouched | scripts/campaign_continuous_flow.py:96-147 | neither recovery nor read retry changes an action of an owned run |
| Ledger.RecoveryCompletes | scripts/campaign_continuous_flow.py:116-128 | a successful recovery finishes the action if and only if no receipt was stored before or it was finished already |
| Ledger.InterruptedAdoption | scripts/campaign_continuous_flow.py:189-195 | an adoption that fails between its two statements leaves a receipt with which every later recovery changes nothing |
| Ledger.HistoryKeepsInv | scripts/campaign_continuous_flow.py:65-198 | leases, relied-on rows and executed writes stay consistent over every history |
| LedgerLaws.ActionEndsExactly | scripts/campaign_continuous_flow.py:149-198 | an action ends done exactly with the result it had, or with a reply that it asked for, bound to it, terminal, with evidence and without a human gate, and naming its payload where it writes or adopts; else its row says unknown for a new write and interrupted read for another new step |
| LedgerLaws.ActionTouchesOnly | scripts/campaign_continuous_flow.py:149-198 | no other row changes, and only an adopted reply is stored as a recovery, where none was |
| LedgerLaws.RecoveryEndsExactly | scripts/campaign_continuous_flow.py:96-132 | a recovery succeeds exactly with an exact read-only receipt of an idle run, if that very receipt was stored or none was and the action is not done; only then the action is finished with it |
| LedgerLaws.RetryEndsExactly | scripts/campaign_continuous_flow.py:134-147 | a retry succeeds exactly for an interrupted read of an idle run and forgets only that row |
| LedgerLaws.LeaseEndsExactly | scripts/campaign_continuous_flow.py:65-86 | a lock succeeds exactly on a free shop and an idle started run; an unlock takes away this owner's lease and nobody else's |
| Controller.Controller.Run | scripts/campaign_continuous_flow.py:373-545 | the run ends with a history of exactly the steps that the replies call for, in the program's order: complete exactly when nothing stopped it and nothing is left, stopped with a refused reply and saved, or ended by an uncaught error with the last saved state |
| Controller.Controller.Loop | scripts/campaign_continuous_flow.py:431-528 | terminates: unused repair attempts and pending products decrease lexicographically |
| Controller.Controller.Turn | scripts/campaign_continuous_flow.py:431-528 | one round on state, calls and database; saved unless it was stopped |
| Controller.Controller.Submit | scripts/campaign_continuous_flow.py:472-528 | discounts, readback, renewed bundles and signup of one round, call by call |
| Controller.Controller.DiscountPhase | scripts/campaign_continuous_flow.py:472-485 | the rows of exactly the requested scope decide who leaves the round, who is held and who is tried again |
| Controller.Controller.Enrol | scripts/campaign_continuous_flow.py:497-528 | goes on only with an exact, all-correct readback of exactly these products |
| Controller.Controller.SignupPhase | scripts/campaign_continuous_flow.py:515-526 | records exactly the successes of a terminal of exactly this scope, then reports and repairs the failed products; how that ends is told from the replies in RoundFates.FailedSignupsAreRepaired |
| Controller.Controller.SetAside | scripts/campaign_continuous_flow.py:452-464 | products with input issues become exceptions with exactly their issues |
| Controller.Controller.RepairFailed | scripts/campaign_continuous_flow.py:286-310 | unrepairable and repeated products are held, the others repaired in one call |
| Controller.Controller.DropAttempted | scripts/campaign_continuous_flow.py:289-292 | a repair attempted before, under the present or the older signature, holds its product and is not submitted |
| Controller.Controller.AcceptRepair | scripts/campaign_continuous_flow.py:303-307 | the last correction per SKU and kind counts, and the attempt is recorded |
| Controller.Controller.ApplyRepairRows | scripts/campaign_continuous_flow.py:299-309 | exactly the successful, verified changes go on and everything else is held, up to a verified change whose number is not text |
| Controller.Controller.TakeExceptions | scripts/campaign_continuous_flow.py:286-288 | whole products with any unrepairable SKU become exceptions with all their decisions |
| Controller.Controller.FailedReport | scripts/campaign_continuous_flow.py:312-318 | a report is used only when it names exactly the failed products and this batch in every error |
| Controller.Controller.RecoverPrior | scripts/campaign_continuous_flow.py:320-337 | imports only valid, exactly bound reports of waiting products, and none while an action is open |
| Controller.Controller.RecoverPriceGaps | scripts/campaign_continuous_flow.py:339-353 | imports the reply for waiting products as it is, only when nothing else is to be done |
| Controller.Controller.RecoverInputs | scripts/campaign_continuous_flow.py:355-371 | the restored products become the whole work of the next round |
| Controller.Controller.InitScope | scripts/campaign_continuous_flow.py:379-420 | the history of the scope is taken over in order, up to a record that cannot be read |
| Controller.Controller.TakePrior | scripts/campaign_continuous_flow.py:400-419 | one product's earlier outcome decides where it goes |
| Controller.Controller.RetireBatch | scripts/campaign_continuous_flow.py:422-430 | an imported batch is decided and removed together, or stays when a reply is refused |
| RoundGate.TurnGate | scripts/campaign_continuous_flow.py:431-528 | whatever the transport answers, a signup has an accepted bundle for exactly the pending products, the terminal of exactly its discounts and a readback of exactly what is left, in this order; it submits exactly the products not enrolled before |
| RoundGate.RefusedProductsStayOut | scripts/campaign_continuous_flow.py:474-485 | no product whose discount failed is signed up; of the partial ones exactly those given by number and not enrolled |
| RoundGate.PartialProductsStayOut | scripts/campaign_continuous_flow.py:474-485 | partial products stay out of the signup if and only if none that is not enrolled is given by number |
| RoundGate.TurnEvidence | scripts/campaign_continuous_flow.py:435-440 | a round adds exactly the registered products and the successes of its own signup reply to the successes |
| RoundGate.TurnStops | scripts/campaign_continuous_flow.py:431-528 | a round stops only at a failed call or at a reply that does not fit what was asked |
| RoundProofs.TurnFacts | scripts/campaign_continuous_flow.py:431-528 | whatever the transport replies, a round loses no product, and unless it stops it shrinks the work or records a repair attempt never made before |
| RoundProofs.RepairFailedFacts | scripts/campaign_continuous_flow.py:286-310 | every reported product ends as exception or as verified retry with an unused attempt; a refused repair schedules none |
| RoundProofs.DiscountFacts | scripts/campaign_continuous_flow.py:472-485 | products removed by the discounts are held or tried again, and no success is recorded |
| RoundProofs.SignupFacts | scripts/campaign_continuous_flow.py:515-526 | every product of a signup ends in success, exceptions or the next round |
| RoundProofs.LastCorrectionCounts | scripts/campaign_continuous_flow.py:304-306 | the corrections table holds the last decision per SKU and kind of repair, and earlier entries of other keys stay |
| RoundProofs.AttemptIsRemembered | scripts/campaign_continuous_flow.py:224-238 | a recorded attempt is recognised again in any order of its decisions |
| RoundProofs.AttemptsAreUsed | scripts/campaign_continuous_flow.py:224-238 | every product tried again records an attempt never made before; no attempt is forgotten, and only attempts of these repairs are added |
| RoundProofs.RoundSpends | scripts/campaign_continuous_flow.py:431-528 | with finitely many repairs to report, a round that does not stop shrinks the work or uses one of them up |
| RoundFates.RoundEndsExactly | scripts/campaign_continuous_flow.py:431-528 | the whole round from its replies: every call it makes, the one at which it stops, every removed product, and the products of the next round |
| RoundFates.FailedSignupsAreRepaired | scripts/campaign_continuous_flow.py:515-526 | when a signup reply has failed rows the next call is the report, and the round stops if it does not name exactly them; otherwise a failed product is in the next round exactly when all its failures are repairable, the repair was not tried before, and the repair reply verifies its change |
| RoundFates.RefusedDiscountsAreRepaired | scripts/campaign_continuous_flow.py:472-485 | the same for failed discounts, and for partial ones with verified failure rows, which are reported and repaired first |
| RoundFates.ReportExactly | scripts/campaign_continuous_flow.py:299-318 | a report and its repair: the calls, the stop, the products that go on, and the exact decisions under which all others are held |
| ImportFates.PriorExactly | scripts/campaign_continuous_flow.py:320-337 | earlier failures are asked for exactly while no action is open and a product waits for nothing else; the reply is taken whole exactly if it is about such products and each failure is bound |
| ImportFates.PriceGapsExactly | scripts/campaign_continuous_flow.py:339-353 | price-gap reports are asked for exactly when nothing is pending, imported or open and a readback is lacking, and taken as they come for such products |
| ImportFates.InputsExactly | scripts/campaign_continuous_flow.py:355-371 | restored inputs are taken exactly for waiting products without success and are the work of a further round |
| ImportFates.ScopeExactly | scripts/campaign_continuous_flow.py:379-420 | each product of the scope goes where its earlier outcome says, in the order of the reply, up to the first record that cannot be read; that one and the later ones stay pending |
| ImportFates.RetireExactly | scripts/campaign_continuous_flow.py:422-430 | an imported batch is decided like a report: what is due is repaired in one call, verified changes become pending, all others are held, and the batch leaves the table |
| ImportFates.BatchErrorsExactly | scripts/campaign_continuous_flow.py:422-430 | the errors decided are exactly those of the records of the batch |
| Runs.EveryStateKeeps | scripts/campaign_continuous_flow.py:373-545 | every saved state of every run, whatever the transport replies, is consistent and, with named price-gap imports, accounts for every initial product |
| Runs.EveryRunCanFollow | scripts/campaign_continuous_flow.py:373-545 | whatever a run leaves in the database is again such a state, so the same holds over any number of runs |
| Runs.AllSignedUp | scripts/campaign_continuous_flow.py:529-533 | a complete run without exceptions has a success record for every product of its scope |
| Runs.RunGoesOnExactly | scripts/campaign_continuous_flow.py:373-545 | a run takes another step if and only if nothing stopped it and something is left, endless runs included |
| Runs.EverySignupIsGated | scripts/campaign_continuous_flow.py:431-528 | every signup of a run passed the gate of its own round |
| Runs.EverySuccessIsShown | scripts/campaign_continuous_flow.py:379-528 | every success was recorded before the run, or the reply to one of its own calls shows it |
| Runs.EveryStopIsRefused | scripts/campaign_continuous_flow.py:373-545 | a run stops only at its last step, whose reply failed or did not fit |
| ScopeProofs.HistoryTaken | scripts/campaign_continuous_flow.py:395-419 | the history is taken over product by product, exactly as each earlier outcome says, up to the first record that stops it |
| ScopeProofs.WholeOrNothingExactly | scripts/campaign_continuous_flow.py:393-420 | the history is taken over whole or not at all if and only if no record before a fatal one has errors that cannot be iterated |
| ScopeProofs.RestIsLeftPending | scripts/campaign_continuous_flow.py:400-420 | from such a record on every product stays pending, whatever its outcome |
| ScopeProofs.RecoverPriorKeeps | scripts/campaign_continuous_flow.py:320-337 | only waiting products are imported, only while no action is open, and every import names its product |
| ScopeProofs.RecoverInputsKeeps | scripts/campaign_continuous_flow.py:355-371 | restored are only held products without a success record, and they leave the exceptions |
| ScopeProofs.RetirementKeepsExactly | scripts/campaign_continuous_flow.py:339-353 | a product of a retired batch is kept if and only if an error of the batch names it or it is accounted for elsewhere |
| ScopeProofs.NamedBatchIsKept | scripts/campaign_continuous_flow.py:422-430 | with every import naming its product nothing is lost |
| Requirements.RegistrationBlocks | scripts/campaign_continuous_flow.py:443-470 | after registration some bundle can be accepted if and only if no required product was registered, or the segment is daily |
| Requirements.TurnRequires | scripts/campaign_continuous_flow.py:470-484 | a round keeps required products pending, unless the template takes one away |
| Requirements.LaterRoundsCanContinue | scripts/campaign_continuous_flow.py:434-470 | after a round in which no required product is registered, whatever the replies, some bundle can be accepted in the next |
| Requirements.EveryRoundCanContinue | scripts/campaign_continuous_flow.py:373-470 | in a run that starts with no required product registered, every round can accept some bundle |
| Witnesses.UnnamedImportLosesProduct | scripts/campaign_continuous_flow.py:339-353 | a concrete state in which an empty price-gap report loses its product |
| Witnesses.UnnamedRunSignsUpAll | scripts/campaign_continuous_flow.py:529-533 | a concrete whole run that reports everything signed up without that product |
| Witnesses.UnknownProductIsSubmitted | scripts/campaign_continuous_flow.py:393-420 | a concrete half-read history after which a product with an unknown outcome is submitted |
| Witnesses.NumericPartialIsSignedUp | scripts/campaign_continuous_flow.py:475-485 | a concrete round that signs up a product with a partial discount |
| Witnesses.RegisteredRequirementBlocks | scripts/campaign_continuous_flow.py:443-471 | a concrete stopped run after which a changed template blocks every bundle |
| Authority.Authority.SaveBundle | scripts/campaign_entry_authority.py:353-356 | a bundle's identity keeps its first body |
| Authority.Authority.RegisterSource | scripts/campaign_entry_authority.py:94-116 | a new path is registered; the same again changes nothing, another kind or content is refused |
| Authority.RegisteredStays | scripts/campaign_entry_authority.py:113-116 | over every history a registered file is never replaced or counted twice, and no outcome disappears |
| Authority.Authority.BlockedItems | scripts/campaign_entry_authority.py:311-351 | exactly the products with an attempt or outcome not failed, of the same phase, and of the same campaign (signup) or an overlapping window not released (discount); each with the status of such a row |
| Authority.Authority.Claim | scripts/campaign_entry_authority.py:365-398 | claims exactly when the bundle is saved, its phase has products, none of them is hindered by such a row, a signup has its discounts settled and its reuse proven, and this phase of the bundle was not claimed before; otherwise nothing changes |
| Authority.Authority.Terminal | scripts/campaign_entry_authority.py:400-428 | all entries of a terminal are applied or none; a conflict with a settled attempt refuses it |
| Authority.ClaimNeverReplays | scripts/campaign_entry_authority.py:346-351 | no unresolved or successful product is claimed again in its campaign, nor under an overlapping discount that was not released |
| Authority.ClaimRespectsOutcomes | scripts/campaign_entry_authority.py:320-331 | outcomes registered from earlier runs protect their products in the same way |
| Authority.ReachableStatesAreSafe | scripts/campaign_entry_authority.py:365-428 | at most one live signup per product and campaign; overlapping live discounts only where the accepted claim that created one released the other; every signup has its bundle's discounts done |
| Authority.ResolvedIsAbsorbing | scripts/campaign_entry_authority.py:419-428 | a settled attempt never changes again |
| Authority.BlockedExactly | scripts/campaign_entry_authority.py:311-351 | a product is blocked if and only if a saved row of it is in the way: not failed, same phase, same campaign or an overlapping window that was not released |
| Authority.DiscountsDoneExactly | scripts/campaign_entry_authority.py:378-381 | the discounts are done exactly when the bundle's own successful discount attempts are those of its discount products |
| Authority.ClaimedExactly | scripts/campaign_entry_authority.py:365-398 | a claim is accepted if and only if the bundle is saved, its phase has products, none is hindered, a signup has its discounts settled and its reuse proven, and this phase of the bundle was not claimed for one of them before |
| Authority.ClaimAddsExactly | scripts/campaign_entry_authority.py:390-392 | an accepted claim adds one unresolved attempt per product, with the bundle's own campaign and window, and nothing else |
| Claims.Table.Create | scripts/campaign_cost_revision.py:160-178 | one claim per grant, which may be fetched again only while fresh; no added SKU is claimed twice |
| Claims.Table.Consume | scripts/campaign_continuous_repairs.py:67-123 | only a fresh, still valid claim is dispatched, and it is bound to its job |
| Claims.Table.Record | scripts/campaign_continuous_repairs.py:171-196 | only the original job's exact saved amounts verify; a verified receipt is immutable |
| Claims.Table.CloseIneffective | scripts/campaign_continuous_repairs.py:49-64 | only a never-dispatched repair can be closed |
| Claims.Table.RecordRows | scripts/campaign_discount_amend.py:150-178 | amendment rows settle once; a conflict leaves every row as it was |
| Claims.DispatchedAtMostOnce | scripts/campaign_cost_revision.py:181-201 | over every run each claim is dispatched at most once, a verified one with exactly the wanted amounts, a closed one never; grants and added SKUs are exclusive |
| Claims.OutcomesAreFinal | scripts/campaign_continuous_repairs.py:171-196 | verified receipts, closed repairs and settled rows never change again |
| Overlays.Projection.Do | scripts/campaign_discount_amend.py:181-204 | one record changes exactly the offers it means, or refuses and changes nothing |
| Overlays.Projection.DiscountOffers | scripts/campaign_entry_authority.py:299-309 | the four tables are applied in order and stop at the first refusal |
| Overlays.ProjectionIsConservative | scripts/campaign_entry_authority.py:299-309 | no promotion; unknown exactly where a demoting write is open; a changed amount is the last one proven for exactly this SKU |
| Overlays.RunProjects | scripts/campaign_discount_amend.py:181-204 | any sequence of steps conserves what it does not demote or write |
| Overlays.OpenIsDemoted | scripts/campaign_cost_revision.py:244-255 | an open amendment, revision or inclusion demotes its product |
| Overlays.DemotedIsOpen | scripts/campaign_discount_include.py:175-187 | nothing else demotes a product |
| Overlays.WriteIsVerified | scripts/campaign_continuous_repairs.py:126-146 | every written amount comes from a verified record of that SKU |
| Overlays.ProjectsExactly | scripts/campaign_entry_authority.py:299-307 | the whole projection succeeds if and only if every record is proven, finds its offer and its imported rows, and the amount left before it for its SKU is its old one (for a repair also its new one) |
| Overlays.RunsExactly | scripts/campaign_discount_amend.py:181-204 | any sequence of steps succeeds if and only if each finds what it needs in the offers as they were and in what the earlier steps wrote |
| Overlays.RevisionAfterRepairRefuses | scripts/campaign_cost_revision.py:106-121 | a concrete repair and a later revision from the repaired amount, after which the offers cannot be projected |
| Overlays.RepairsNeedImportedRows | scripts/campaign_continuous_repairs.py:126-146 | a verified repair of a SKU that not exactly one imported row has makes the whole projection refuse |
| Overlays.RepairsProjectExactly | scripts/campaign_continuous_repairs.py:126-146 | after the amendments and revisions, the repairs project if and only if each row is proven, finds exactly one imported row, and there its old or new amount |
| Overlays.OneRepairProjects | scripts/campaign_continuous_repairs.py:126-146 | the same for a single repaired row |
| Overlays.IncludedSkuCannotBeRepaired | scripts/campaign_entry_authority.py:299-307 | a concrete inclusion and repair after which the offers cannot be projected |
| OverlayLaws.ProjectionExactly | scripts/campaign_entry_authority.py:299-307 | from the rows of the tables: the projection succeeds if and only if every record has its evidence, its one offer by name and window and its one imported row each, and every row finds an amount that it may find |
| OverlayLaws.ProjectedExactly | scripts/campaign_entry_authority.py:299-309 | the amount of a SKU afterwards is that of the last row of all tables, in their order, that changes it, else the imported one; a product is unknown exactly while a change of it is pending |
| OverlayLaws.InclusionsExactly | scripts/campaign_discount_include.py:175-199 | exactly the verified inclusions of the offer are recorded, and the verified SKUs of a partial one grow by theirs |
| Inclusions.AddedScopeAlwaysProven | scripts/campaign_discount_reuse.py:35-60 | exact, disjoint inclusions always pass the later check of added rows |
| Inclusions.IncludeOnce | scripts/campaign_discount_include.py:188-199 | one more inclusion keeps every earlier one provable |
| PartialImport.Collect | scripts/campaign_discount_receipt.py:51-59 | read-back amounts, refused for a wrong window or a repeated SKU |
| PartialImport.Reconcile | scripts/campaign_discount_receipt.py:32-76 | succeeds exactly for consistent counts, exact failure rows and exact amounts, and then splits the products exactly |
| PartialImport.ReceiptSplitsExactly | scripts/campaign_discount_receipt.py:61-68 | success, failed and mixed mean all rows read back, all rows failed, and both kinds |
| PartialImport.ReceiptProvesComplement | scripts/campaign_partial_discount.py:8-37 | the receipt proves exactly planned minus failed rows, if and only if some product was mixed |
| PartialImport.UnusableReceipt | scripts/campaign_partial_discount.py:8-16 | a concrete stored receipt that is refused later |
| PartialImport.PartialProductsStayBlocked | scripts/campaign_entry_authority.py:400-428 | a mixed product stays unknown and keeps blocking overlapping claims |
| PartialImport.ReconcilesExactly | scripts/campaign_discount_receipt.py:32-76 | accepted if and only if something succeeded, the counts add up, the report names exactly the counted planned rows, and exactly the others are read back with their planned amounts |
| PartialImport.VerifiesExactly | scripts/campaign_partial_discount.py:8-40 | a stored receipt proves an offer's rows if and only if it is partial, names a mixed product, and its failures and readback split exactly these rows |
| Feedback.Scan | scripts/campaign_official_failure_report.py:62-89 | succeeds exactly when every data row can be read; the groups hold exactly what each product's rows say |
| Feedback.ReadRow | scripts/campaign_official_failure_report.py:74-83 | accepts exactly rows with a product, numeric ids, a new pair and contiguous products |
| Feedback.Decide | scripts/campaign_official_failure_report.py:109-180 | succeeds exactly when the marks of every product agree; one outcome per product, with all errors of its messages |
| Feedback.Infer | scripts/campaign_official_failure_report.py:90-100 | products missing from a complete failure report succeed, and no others are added |
| Feedback.ParseFeedback | scripts/campaign_official_failure_report.py:44-183 | succeeds exactly for readable rows, decided products, exactly the expected scope or its proven complement, and exact counts; then each expected product has the one outcome that its rows or the counts prove, and exactly the failed ones have errors |
| Feedback.ReportedFailuresHaveErrors | scripts/campaign_official_failure_report.py:109-180 | errors exist for exactly the products whose rows all say failed |
| FeedbackLaws.AcceptedExactly | scripts/campaign_official_failure_report.py:44-183 | from the rows: accepted if and only if the expected products are numbered and distinct, rows are numbered, products stay together and list no SKU twice, each is settled by its marks and texts, and scope and counts fit |
| FeedbackLaws.OutcomesExactly | scripts/campaign_official_failure_report.py:100-112 | an expected product has failed exactly when all its marks say so; each has one outcome |
| FeedbackLaws.ErrorsExactly | scripts/campaign_official_failure_report.py:109-180 | the errors are exactly those that the texts of the failed products give: the shipping requirement, each mention with its one row's SKU, price and limits or as ambiguous, what is left unread, or the zero-sales verdict alone |
| FeedbackLaws.GroupRowsExactly | scripts/campaign_official_failure_report.py:62-89 | a product's group holds exactly the rows below its number up to the next one, in order |
| FeedbackLaws.MessagesInOrder | scripts/campaign_official_failure_report.py:84-86 | its texts stand once each, in the order of their first rows |
| Normalization.NormalizeErrors | scripts/campaign_feedback_normalization.py:31-139 | one combined row per reported SKU, none lost, none invented; the row of a group is fixed by NormalizationLaws |
| Normalization.NeededIsLeast | scripts/campaign_feedback_normalization.py:116-119 | the needed deduction is the least one that meets every cap and every observed gap |
| Normalization.FeasibleCustomKeepsCaps | scripts/campaign_feedback_normalization.py:72-87 | the feasible custom price keeps all caps after the rounded cut |
| Normalization.SurvivingRepairIsLeast | scripts/campaign_feedback_normalization.py:93-135 | every decided ordinary repair uses that least deduction and stays positive and within two yuan, observed prices included |
| Normalization.SomeRepairSurvives | scripts/campaign_feedback_normalization.py:93-135 | a concrete failure that leads to such a repair, with its amounts |
| Normalization.SurvivingCustomKeepsCaps | scripts/campaign_feedback_normalization.py:76-87 | every decided custom repair keeps all caps and the fixed floor and never raises the price |
| Normalization.RepairGuardsCannotFire | scripts/campaign_continuous_repairs.py:93-108 | the amount guards of a repair cannot fire; no change exactly when the current deduction already suffices |
| Normalization.NormalizationKeepsScope | scripts/campaign_feedback_normalization.py:31-54 | the products of the report are kept, one row per SKU |
| Normalization.FailureFateTotal | scripts/campaign_continuous_policy.py:150-162 | every product with errors is in exactly one of repairs and exceptions |
| Normalization.ReportFatesAreTotal | scripts/campaign_continuous_policy.py:150-162 | from the file on: exactly the products whose rows all say failed are repaired or held, never both |
| NormalizationLaws.OrdinaryRepairExactly | scripts/campaign_feedback_normalization.py:88-135 | an ordinary repair is decided if and only if it is due: one ERP row, the daily price submitted, one verified saved discount with its target mode, and the least deduction that answers everything within two yuan of that ERP row's big or medium target; the row records that discount's own deduction |
| NormalizationLaws.CustomRepairExactly | scripts/campaign_feedback_normalization.py:76-87 | a custom repair is decided if and only if the failures are official, the fixed original is certain, and the price is the greatest one under all caps and not below a fifth of the original |
| NormalizationLaws.WrongPriceIsCorrected | scripts/campaign_feedback_normalization.py:88-92 | an ordinary SKU that was not submitted at its daily price gets exactly that price back |
| NormalizationLaws.WaitsForReadback | scripts/campaign_feedback_normalization.py:101-108 | without exactly one verified saved discount it waits for its readback, unless a coupon cap already rules every repair out |
| NormalizationLaws.ExpansionExactly | scripts/campaign_feedback_normalization.py:31-49 | the failures that are grouped: a shipping requirement stands for each submitted SKU of its product, every other failure for itself |
| Policy.RepairKeepsRules | scripts/campaign_continuous_policy.py:83-147 | a repair needs a proven failure and keeps the price rule of its kind |
| Policy.RepairsWholeProducts | scripts/campaign_continuous_policy.py:150-162 | a product is repaired only if every failure of it is repairable |
| Policy.ClassifyItems | scripts/campaign_continuous_policy.py:150-162 | splits the reported products by that rule, each with all its decisions |
| Policy.RepairsExactly | scripts/campaign_continuous_policy.py:83-147 | each kind of repair is decided if and only if the failure is official and its own case holds |
| Policy.ActionsExactly | scripts/campaign_continuous_policy.py:83-147 | what is not repaired is held, except for products without sales and prices that only a rotation could meet |
| Prices.CutCharacterised | scripts/campaign_generate_current_files.py:21-27 | the cut is the only half-up cent below 100 yuan and the only least whole yuan from there on |
| Prices.CutMonotone | scripts/campaign_generate_current_files.py:21-27 | the cut never falls when the price rises, across the threshold too |
| Prices.NetMonotoneBelow | scripts/campaign_generate_current_files.py:21-27 | below 100 yuan the net price never falls when the price rises |
| Prices.NetAtHundred | scripts/campaign_generate_current_files.py:21-27 | exactly when the step from 99.99 to 100 yuan lowers the net price |
| Prices.NetFallsExactly | scripts/campaign_generate_current_files.py:21-27 | from 100 yuan on one cent more lowers the net price exactly when the rounded cut no longer covers the exact one; then by 99 cents |
| Prices.NetAfterJump | scripts/campaign_generate_current_files.py:21-27 | after the next such fall no later net price is below that one |
| Prices.NetFallsAtTenPercent | scripts/campaign_generate_current_files.py:21-27 | both happen at ten percent |
| Prices.RoundingKeepsCap | scripts/campaign_feedback_normalization.py:80-84 | a price that keeps a cap exactly keeps it after rounding, for every rate below one |
| Prices.FloorQuotientGreatest | scripts/campaign_feedback_normalization.py:82-84 | the quotient is the greatest price whose unrounded net keeps the cap |
| Prices.FloorQuotientIsConservative | scripts/campaign_feedback_normalization.py:80-84 | some higher price keeps the cap if and only if the next one does, or the first one of a later range of rounding |
| Prices.OrdinaryPriceExact | scripts/campaign_cap_price.py:5-22 | succeeds exactly when the greatest cent amount within target and cap is reachable and within tolerance; the cap guard never fires |
| Prices.OrdinaryPriceFollows | scripts/campaign_cap_price.py:5-22 | for a sound price it succeeds exactly when the target cut down to the cap is possible |
| Prices.CustomPriceCorrect | scripts/campaign_cap_prepare.py:309-327 | a correction lowers a breaching price to one that keeps the cap and the floor; both formula guards are unreachable |
| Prices.CustomPriceRefusedOnlyByFloor | scripts/campaign_cap_prepare.py:309-327 | with a valid basis only the floor can refuse a correction |
| PriceBasis.InheritKeepsOrigin | scripts/campaign_reserve_policy.py:27-50 | inheriting keeps original and exact floor and extends the chain by a SKU it never met |
| PriceBasis.RowRecords | scripts/campaign_price_basis.py:22-44 | succeeds exactly for an identified row with one exact floor whose verified links, all of its product and code, form a chain without a cycle; then one record per SKU of the chain, all with the row's original |
| PriceBasis.ReceiptRecords | scripts/campaign_price_basis.py:16-45 | succeeds exactly when every row with an original can be expanded; the records are exactly those expansions |
| PriceBasis.RecordsKeepOrigin | scripts/campaign_price_basis.py:37-44 | same original and exact 20% floor over pairwise distinct SKUs |
| PriceBasis.CorrectionsStaySound | scripts/campaign_entry_authority.py:146-190 | a correction always replaces a source with an inexact floor by one without |
| PriceBasis.CorrectionsDoNotChain | scripts/campaign_entry_authority.py:118-134 | a corrected source is never corrected again |
| PriceBasis.Resolve | scripts/campaign_entry_authority.py:118-134 | following corrections takes at most one step, and the cycle error is unreachable |
| PriceBasis.CorrectionKeepsOriginals | scripts/campaign_entry_authority.py:155-168 | a correction never rebases an original |
| PriceBasis.OnlyLegacySourcesAreCorrected | scripts/campaign_entry_authority.py:103-105 | a source that registration accepts today cannot be corrected |
| PriceBasis.LogicalBases | scripts/campaign_entry_authority.py:239-249 | succeeds exactly when all records of one product and code agree |
| Planning.CustomPlanKeepsRules | scripts/campaign_generate_current_files.py:137-157 | a planned custom price keeps limits and floor and is lowered only when forced and certain |
| Planning.OrdinaryPlanIsExact | scripts/campaign_generate_current_files.py:158-178 | price, cut, deduction and final agree exactly |
| Planning.CappedFinalIsGreatest | scripts/campaign_generate_current_files.py:165-178 | under a cap the final is the greatest amount within target and cap, at most two yuan off |
| Planning.BuildRows | scripts/campaign_generate_current_files.py:81-184 | succeeds exactly for a present scope without repeated SKUs, row by row in order; what each row is, PlanFollowsExactly says from the ERP row and the limits |
| Planning.PlansAreCoherent | scripts/campaign_generate_current_files.py:81-184 | exact positive deductions, one row per SKU and file, both files agreeing |
| Planning.PlanRowScope | scripts/campaign_generate_current_files.py:81-124 | rows only inside their scope; no SKU in scope is dropped without a row or an issue, except a discount that is not needed |
| Planning.PlanHoldsExactly | scripts/campaign_generate_current_files.py:81-184 | activity, discounts and issues hold exactly what the template rows contribute |
| Planning.PlanFollowsExactly | scripts/campaign_generate_current_files.py:81-184 | from the context alone: a SKU is planned or an issue exactly as its ERP row, the scopes, fixed originals and limits say; an ordinary row is held to the limit's final, else to the cap of its pair, else to none, and records the ERP row's own targets |
| Planning.OrdinaryPlanFollows | scripts/campaign_generate_current_files.py:158-178 | the exact cap, goal and final of an ordinary discount, and the exact condition for an ordinary SKU to be an issue |
| Planning.CustomPlanFollows | scripts/campaign_generate_current_files.py:137-157 | the exact condition for a custom price, and that price |
| Planning.PlanKeepsOrder | scripts/campaign_generate_current_files.py:81-184 | rows and issues keep the order of the template |
| Planning.IsolateItemIssues | scripts/campaign_generate_current_files.py:196-205 | whole products with issues leave every list; an issue outside the request is fatal |
| Reuse.BuildIndex | scripts/campaign_discount_reuse.py:68-76 | the index lists exactly the active overlapping offers of each product |
| Reuse.Reconcile | scripts/campaign_discount_reuse.py:63-151 | new rows, reuse and issues as the verdicts on every SKU say, or the first fatal error; the verdicts are fixed in ReuseLaws |
| Reuse.SortedExactly | scripts/campaign_discount_reuse.py:81-150 | reuse and issues hold exactly the SKUs with that verdict |
| ReuseLaws.CandidatesExactly | scripts/campaign_discount_reuse.py:68-83 | the candidates are exactly the other active offers with an overlapping window and an unfailed row of the product |
| ReuseLaws.CustomVerdictExactly | scripts/campaign_discount_reuse.py:84-114 | a custom SKU is free of issues if and only if no such offer exists, or a single one proves it absent: by its partial receipt, or by a known outcome for the exact window without a row; each issue has its cause |
| ReuseLaws.CleanCustomHasNoDiscount | scripts/campaign_discount_reuse.py:112-114 | without issues no custom SKU has a saved discount in the window |
| ReuseLaws.OrdinaryVerdictExactly | scripts/campaign_discount_reuse.py:84-150 | an ordinary SKU is fine, reused or an issue exactly as its offers, saved rows and promise say; each issue has its cause |
| ReuseLaws.ListedExactly | scripts/campaign_discount_reuse.py:81-150 | each reused SKU and each issue is listed with exactly its verdict |
| ReuseLaws.ChecksExactly | scripts/campaign_discount_reuse.py:77-80 | checked are exactly the signup rows and the planned rows of other SKUs, each once |
| Reuse.ReuseIsSound | scripts/campaign_discount_reuse.py:95-150 | an amount is reused only from the single exact offer, saved once, with a final that keeps its promise |
| Reuse.PartitionIsExclusive | scripts/campaign_discount_reuse.py:151 | no SKU is reused and an issue; new rows are exactly planned minus reused |
| Reuse.CleanScopeIsCovered | scripts/campaign_discount_reuse.py:81-151 | without issues each ordinary SKU is in exactly one of three ways at its price |
| Reuse.OwnOfferIsReused | scripts/campaign_discount_reuse.py:113-150 | a planned row read back from its own offer is reused with exactly its final |
| Reuse.PlanningIsFixpoint | scripts/campaign_discount_reuse.py:63-151 | after importing the new rows everything planned is reused and nothing is new; issues remain exactly for unplanned ordinary SKUs of products with new rows |
| Reuse.FirstPlanIsFixpoint | scripts/campaign_discount_reuse.py:63-151 | with nothing saved and a deduction for every ordinary SKU, the plan is clean, everything is imported once and then reused |
| Reuse.SignupSeesSameReuse | scripts/campaign_entry_authority.py:382-389 | the check repeated before signup agrees with the plan when nothing else was saved |
| Submission.TemplateReachesFixpoint | scripts/campaign_discount_reuse.py:63-151 | from an accepted template, without any set of products: after a clean reconciliation and its import nothing is new, and a first plan with all deductions imports once and is then fully reused |
| Submission.IsolatedIsCoherent | scripts/campaign_generate_current_files.py:196-205 | a plan stays coherent when whole products leave it |
| Submission.SignupClaimAgrees | scripts/campaign_entry_authority.py:382-389 | the claim finds the reuse proven if and only if the plan was clean and its reuse was recorded; otherwise it is refused |
| Template.MergeRanges.Owners | scripts/campaign_official_template.py:33-37 | the indexed, cached lookup finds exactly the anchors of the linear scan |
| Template.MergeRanges.VisibleValue | scripts/campaign_official_template.py:109-123 | the visible value through the index is the one of the plain list |
| Template.IndexAgreesWithScan | scripts/campaign_official_template.py:23-37 | index and scan agree for every cell |
| Template.RemapMerges | scripts/campaign_official_template.py:319-348 | ranges are remapped, dropped or refused one by one |
| Template.FillSelectedRows | scripts/campaign_official_template.py:308-356 | succeeds exactly when every range is supported, keeps one product and has a cell to carry its anchor to, and every kept row has its price cell and the percent cell it needs; the sheet is then exactly the compaction of the kept rows |
| Template.SelectRows | scripts/campaign_official_template.py:295-311 | succeeds exactly when every data row shows an identity and a readable state, no two the same identity, and every chosen pair has its row; then exactly the chosen rows, in sheet order, at their prices |
| Template.CompactionPreservesMeaning | scripts/campaign_official_template.py:308-386 | every kept non-price cell shows what it showed before, blank percent cells the given rate |
| Template.NewRangesStaySeparate | scripts/campaign_official_template.py:319-348 | new ranges are disjoint and absorb no foreign row |
| Template.UsualFormIsWellFormed | scripts/campaign_official_template.py:319-348 | disjoint ranges with blank inner cells meet the condition |
| Template.ReadbackHolds | scripts/campaign_official_template.py:370-386 | on a well-formed sheet every readback check holds |
| Template.FillAndVerify | scripts/campaign_official_template.py:259-391 | refuses exactly an input without a selection or the header rows, with a published or pre-filled kept row, or that cannot be filled; otherwise it fills exactly when the compaction passes the readback, which a well-formed sheet always does; the file is exactly that compaction |
| TemplateLaws.ShownExactly | scripts/campaign_official_template.py:109-123 | a cell shows its own text, or if blank that of the top of the one range over it |
| TemplateLaws.AcceptsExactly | scripts/campaign_official_template.py:259-348 | from the cells and ranges: accepted if and only if every data row shows its own identity, each chosen one is there, header rows exist, each kept row is unpublished, not pre-filled and has its cells, and each range can be moved |
| TemplateLaws.CellsExactly | scripts/campaign_official_template.py:319-356 | every cell of a kept row of the file: the price, the rate in a blank percent cell that follows no other, what a range carried to it, else its own text |
| TemplateLaws.RangesExactly | scripts/campaign_official_template.py:319-348 | the ranges of the file are the header's, and for each data range with two kept rows the one from its first to its last |
| TemplateLaws.PricedExactly | scripts/campaign_official_template.py:295-311 | the kept rows are exactly those of the chosen identities, upwards, each at its own price |
| RecoveryTrial.Trial.Record | scripts/campaign_recovery_trial.py:334-371 | an event is appended with its result or nothing is written; without the workbook no upload can be reported |
| RecoveryTrial.UploadedAtMostOnce | scripts/campaign_recovery_trial.py:293-296 | over every log the upload is reported at most once |
| RecoveryTrial.TerminalIsFinal | scripts/campaign_recovery_trial.py:297-311 | a proven official result is never replaced |
| RecoveryTrial.CompleteMeansReadBack | scripts/campaign_recovery_trial.py:312-331 | complete only after full official success and a positive readback of the same operation and records |
| Reservations.ReservationsAreDisjoint | scripts/campaign_recovery_trial.py:197-227 | over all interleavings and crashes two reservations of one campaign share no product |
| Reservations.AbandonedBlocksAll | scripts/campaign_recovery_trial.py:208-219 | an interrupted reservation lets nothing be reserved until it is reviewed |

## Left out

- Files, hashes, JSON, SQLite and XML mechanics: tables are maps, transactions are atomic steps, a hash stands for its content, and evidence checks are booleans or exact values.
- Decimal contexts of 28 digits and amounts finer than a cent in saved files: money is whole cents, rates are exact fractions, and only platform caps, floors and originals are reals.
- Text extraction from official messages and sheet headers: a reader gives the mentions of each message.
- Distinct texts of some price errors: they are one code where nothing branches on them.
- Scope discovery, product exports, SKU facts, catalog exclusions and snapshot resolution: each template row comes with its resolved ERP row or the reason why there is none.
- Segmented time plans: the window of a phase is a fixed part of the bundle, and a daily segment is a flag.
- Availability evidence for released offers: the released offers of a request are a parameter.
- The last projection of saved discounts (walnut revision): assumed to keep offers and to promote nothing; it is not part of this model.
- Legacy one-off outcome documents and scripts pinned to single products: not general algorithms.
- Marking repairs that had no effect on the official price: only its result, closing an undispatched repair, is modelled.
- The template's stated minimum rate, package parts and styles: only rows, cells, merges and prices are modelled.
- Clearing a lease after a crash: the code has no such operation; it is done by hand for a dead process, as a step of the model.
- Removing a stale reservation lock: done by hand for a dead process, as a step of the model.
- Two open repairs of one SKU: not excluded by the code and not claimed.
- Prices, structure and readback of the single-discount sheet: a simpler case of the same fill.
- Controller.Controller.Run: assumes that the transport's reports lead to finitely many different repairs, because only then the loop ends; what its states keep is proved over histories without this assumption.
- Runs.EveryStateKeeps: coverage is promised only for price-gap imports that name their products, because the code loses others.
- Product numbers that are not text, except in the rows of terminals; in memory such a number and its text are one key, as they are once saved.
- Imported errors that mix records with other values: a list is all records, or reading its first entry fails.
- An imported prior report that holds no records: the code ends the process, the model blocks the run; nothing is imported either way.
- Errors outside the controller's own code that are not caught: they end a run with the last saved state, like the modelled ones.
- Overlays.ProjectionIsConservative: speaks about projections that succeed (`Overlays.ProjectsExactly` says when); when one refuses, nothing is projected.

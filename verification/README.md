# Staffpass control plane: a verified model

This Dafny project models the in-memory core of the control plane for AI
employees and proves what it keeps over whole runs:

- **Bindings** (`Bindings`, `BindingStore`, `BindingHistory`, `BindingFields`). The
  store that ties an employee to its Grok Bot agent: link, rotate, bump, compare-and-swap
  of the fingerprint, health reports, revocation and wake webhooks. `BindingStore` holds
  the maps the program updates in place; each method is proved equal to
  `Bindings.Step`. `BindingHistory` reads the execution gate's answer off the
  history of calls and proves that the store always agrees with it; `BindingFields`
  does so for every field of a row and for what calls answer.
- **Back office** (`RuntimeStore`). Hires, approval tickets, members and the audit
  trail, kept in arrays beside the bindings.
- **Gates over runs** (`SpendGate`, `ActionGate`, `ActionRuns`). The order and
  action gates, and what they guarantee when they are consulted again and again
  and executed calls that reach the counters feed them.
- **Costs** (`Rounding`, `CostDemo`, `CostConservation`, `CostOvershoot`,
  `CostFixedNoise`, `LiveMetrics`, `LiveCost`). Overage per bucket, apportionment with
  its repair of the last row, bucketing of audit events, attribution and the live cost
  tab, in exact arithmetic.
- **Text** (`CodeUnits`, `HtmlEscape`, `EmailSubject`, `StableHash`). Strings are
  sequences of UTF-16 code units. Escaping has a decoder that reads references for
  itself, the subject sanitizer has a characterisation of its outputs, the 32-bit hash
  has its injectivity.

Clock readings, minted ids, fingerprints, SHA-256, the draws of the pseudo-random
`unit` and the calendar's month of a day are parameters. Every call reads the clock
once.

Where the code does less than one may expect, the model follows the code:

- The repair of the last row is clamped at zero, so the employee table can come to more
  than the headline: with arbitrary draws it never does up to 67 employees, and can for
  every larger roster (`CostOvershoot.RosterSizeExactly`). In the program the noise of a
  bucket depends on the range and the bucket alone, so 67 is safe but need not be the
  last size that is. What holds for any noise is `CostFixedNoise.EveryNoiseOvershoots`:
  rosters of 122 employees by day, 835 by week and 3206 by month can exceed the headline.
- The wake secret getter trims its id while the setter does not
  (`BindingHistory.UntrimmedIdLosesSecret`).
- Normalising action limits trims tool names, which moves a limit to another name;
  `ActionGate.NormalizeKeepsDecisions` says exactly when that matters. Normalising
  spend limits supplies a default cap, and turns a day or month cap stored as text into
  a cap, where the gate reads only a number as one (`SpendGate.NormalizeKeepsDecision`).
- The policy form promises approval once a limit is reached, and the gate stops at twice
  the limit. The gateway does not wait for approval with `tools.ping` and `audit.append`
  (`ActionRuns.ExemptToolPassesLimit`), and it counts an execution only at the end of
  its main path: `comm.delete` leaves before (`ActionRuns.DeletesAreUnbounded`), and so
  do approved requests carried out by the approval route or by a re-run that returns
  early. `ActionRuns.ToolsBoundedExactly` and `ActionRuns.RepeatsBoundedExactly` say
  exactly where the limits hold.
- The store's header says that rotation only bumps the generation; it also sets a
  binding that needs reauth back to linked, so rotations count among the repairs.
- The live cost headline falls back to the audit count, the employee table does not
  (`LiveCost.TableSharesHeadline`).
- A ticket can be decided again after it was decided; the last decision stands.

Check the project with `dafny verify dfyconfig.toml`.

## Model

| member | source | states |
|---|---|---|
| Bindings.StepAt | lib/bindings.ts:43-51 | a call changes what is stored for its own employee and for nobody else |
| Bindings.StepViewKeepsOk | lib/bindings.ts:126-242 | every operation keeps a row sound: linked has an agent, unlinked has none, never degraded, the wake flag matches the secret, a secret is trimmed and has a URL |
| Bindings.StepKeepsValid | lib/bindings.ts:114-242 | every operation keeps the invariant of the whole store, including key, order and secret coherence |
| Bindings.RunKeepsValid | lib/bindings.ts:114-242 | every store reachable from a valid one is valid |
| BindingHistory.GateReadsHistory | lib/bindings.ts:248-295 | after any calls the gate answers exactly what the history says: not found, revoked, unbound, needs reauth or executable, and no other code ever |
| BindingHistory.ExecutableFromEmpty | lib/bindings.ts:126-295 | from an empty store an employee is executable iff it was linked once, no revoke took effect and no health failure is left unrepaired |
| BindingHistory.RunAgrees | lib/bindings.ts:126-242 | row, revocation, link and health status always equal what the history of calls determines |
| BindingHistory.OnlyOwnCallsMatter | lib/bindings.ts:43-51 | the row and secret of an employee after a run are those after its own calls alone |
| BindingHistory.RowsPersist | lib/bindings.ts:43-51 | rows are never removed, keep org, creation time and place, never lose their agent, and generations never fall |
| BindingHistory.OrgFixedAtCreation | lib/bindings.ts:114-123 | the creating call's org and time stay with the row for good |
| BindingHistory.LinkStores | lib/bindings.ts:138-150 | an accepted link stores the trimmed agent id, the workspace only if named, and clears the error |
| BindingHistory.RevocationIsFinal | lib/bindings.ts:135-137 | after a revoke nothing but last error and time stamp ever changes and the gate keeps answering revoked |
| BindingHistory.GateIgnoresMaintenance | lib/bindings.ts:178-204 | bumps, fingerprint moves, wake edits and ensures never change the gate's answer for an existing row |
| BindingHistory.GenerationCountsCredentialEvents | lib/bindings.ts:157-189 | the generation is its start value plus the rotations and bumps made before any revoke |
| BindingHistory.FingerprintStep | lib/bindings.ts:157-204 | one call writes a fingerprint only for its own employee and only the one it names |
| BindingHistory.FingerprintIsLastWritten | lib/bindings.ts:157-204 | the fingerprint is the one the last successful rotation or move wrote, and the starting one if there was none |
| BindingHistory.WritesAreReported | lib/bindings.ts:157-204 | a call of a run writes an employee's fingerprint iff it names the employee and answers so: a rotation that does not throw, a move that returns true |
| BindingHistory.SwapHasOneWinner | lib/bindings.ts:191-204 | of any number of writers expecting the same fingerprint exactly the first succeeds and its value stays |
| BindingHistory.FreshBadgesStayDistinct | lib/bindings.ts:26-37 | as long as written fingerprints are new, no two employees ever share one |
| BindingHistory.RotationRetiresBadge | lib/bindings.ts:157-175 | after a rotation nobody holds the previous fingerprint |
| BindingHistory.WakeFlagIsTruthful | lib/bindings.ts:358-385 | in every reachable store the wake flag holds iff a usable secret is stored, which implies a URL; the getter agrees for trimmed ids |
| BindingHistory.WakeSecretLookup | lib/bindings.ts:383-385 | the getter finds a secret iff one is stored under the trimmed id |
| BindingHistory.UntrimmedIdLosesSecret | lib/bindings.ts:358-385 | under every id with white space at an end a secret can be stored that is flagged but not found |
| BindingFields.WakeUrlIsLastGiven | lib/bindings.ts:366-370 | over any run the wake URL is the one the last accepted edit that gives one gave, trimmed, none if that was blank, and the starting one if no edit gave one |
| BindingFields.WakeSecretIsLastGiven | lib/bindings.ts:371-376 | over any run the wake secret is the last one given, trimmed, unless it was blank or an accepted edit since then left no URL |
| BindingFields.AgentIsLastLinked | lib/bindings.ts:138-143 | over any run the agent is the one the last accepted link named, trimmed |
| BindingFields.WorkspaceIsLastGiven | lib/bindings.ts:144-147 | over any run the workspace is the one the last accepted link that gives one gave, null or empty being none |
| BindingFields.SuccessIsLastReported | lib/bindings.ts:206-217 | over any run the last success is the time of the last healthy report that found a row not revoked |
| BindingFields.ErrorIsLastNoted | lib/bindings.ts:126-242 | over any run the last error is the last failure's or revocation's note, and null once a link, rotation, bump, move or healthy report put it right |
| BindingFields.StampIsLastChange | lib/bindings.ts:43-51 | over any run the time stamp is that of the last call that created the row, changed it or reported on it |
| BindingFields.OutcomeReadsHistory | lib/bindings.ts:126-381 | what a call throws, returns or answers is read off the history; a returned row is the stored one |
| BindingStore.BindingStore.Touch | lib/bindings.ts:43-51 | writes the row with a new time stamp in its place |
| BindingStore.BindingStore.EnsureBindingRow | lib/bindings.ts:114-123 | does exactly what the specification says: an existing row is returned, a missing one appended unlinked |
| BindingStore.BindingStore.LinkAgent | lib/bindings.ts:126-151 | new store and result equal the specification, the row being ensured even when the call throws |
| BindingStore.BindingStore.RotateCredential | lib/bindings.ts:157-175 | new store and result equal the specification |
| BindingStore.BindingStore.BumpCredentialGenerationKeepFingerprint | lib/bindings.ts:178-189 | new store and result equal the specification |
| BindingStore.BindingStore.MoveBindingFingerprintIfCurrent | lib/bindings.ts:192-204 | new store and answer equal the specification, empty arguments changing nothing |
| BindingStore.BindingStore.RecordHealthSuccess | lib/bindings.ts:206-217 | new store and result equal the specification |
| BindingStore.BindingStore.RecordHealthFailure | lib/bindings.ts:219-233 | new store and result equal the specification |
| BindingStore.BindingStore.RevokeBinding | lib/bindings.ts:235-242 | new store and result equal the specification |
| BindingStore.BindingStore.UpdateWakeWebhook | lib/bindings.ts:358-381 | new store, secrets and result equal the specification |
| BindingStore.BindingStore.SeedDemoBindings | lib/bindings.ts:298-356 | ensures every row, then seeds the four demo employees that are untouched |
| BindingStore.SeededVerdict | lib/bindings.ts:307-355 | on a fresh store the listed sample employees are executable after seeding, the last one needing reauth, with the seeded agent, generation, fingerprint and time of last success |
| BindingStore.SeedIs | lib/bindings.ts:307-355 | the seeded names, badges, generations and times |
| BindingStore.SeedingIsIdempotent | lib/bindings.ts:297-356 | seeding again with the same roster changes nothing |
| BindingStore.BindingStore.FindBindingByCredentialFingerprint | lib/bindings.ts:59-69 | the first row in insertion order with the fingerprint, nothing iff there is none or the argument is empty |
| BindingStore.BindingStore.CountNeedsReauth | lib/bindings.ts:77-84 | the number of rows that need reauth in the org, or in all |
| RuntimeStore.RunKeepsValid | lib/demo-data.ts:489-638 | at every point of a run each listed employee has a binding row and tickets are in order: resolved iff decided, a note only on a revision request |
| RuntimeStore.TicketFollowsDecisions | lib/demo-data.ts:518-564 | after any run a ticket is what its own decisions made of it, the last one standing and revisions counted |
| RuntimeStore.TicketStep | lib/demo-data.ts:518-638 | a call touches only the ticket it decides |
| RuntimeStore.FiledIsPending | lib/demo-data.ts:591-638 | a filed ticket is pending in front of the others, with the fields it was filed with |
| RuntimeStore.EmployeesAreHires | lib/demo-data.ts:489-516 | over any run the employees are the hires, the latest first, and then those of the start |
| RuntimeStore.HireBinds | lib/demo-data.ts:489-516 | a hire without a binding gets an unlinked one in its own org, made then |
| RuntimeStore.GatewayIsLastSet | lib/demo-data.ts:474-487 | over any run the gateway's status is the last one set |
| RuntimeStore.AuditOnlyGrows | lib/demo-data.ts:474-638 | the trail grows only at the front, by one record for each call that leaves one, a resolve leaving one iff its ticket was known |
| RuntimeStore.RecordTells | lib/demo-data.ts:435-638 | a record says when, what kind of call, which employee and which decision |
| RuntimeStore.RecordStays | lib/demo-data.ts:435-638 | the trail as it stood after a recording call is the tail of the trail ever after |
| RuntimeStore.MemberIsLastWritten | lib/demo-data.ts:420-460 | a member is what the last upsert or set under its id, or the last reset, made it, and as at the start if there was none |
| RuntimeStore.RuntimeStore.AddRuntimeEmployee | lib/demo-data.ts:489-516 | new state equals the specification, with the binding row ensured |
| RuntimeStore.RuntimeStore.PushRuntimeApproval | lib/demo-data.ts:591-638 | the new ticket is pending and in front, with one audit record |
| RuntimeStore.RuntimeStore.ResolveRuntimeApproval | lib/demo-data.ts:518-564 | new state and result equal the specification; an unknown id changes nothing |
| RuntimeStore.RuntimeStore.UpsertRuntimeMember | lib/demo-data.ts:435-460 | replaces in place or puts in front, audited unless switched off |
| RuntimeStore.RuntimeStore.SetRuntimeMember | lib/demo-data.ts:420-424 | replaces in place or puts at the end, never audited |
| RuntimeStore.RuntimeStore.ResetRuntimeMembers | lib/demo-data.ts:426-431 | the members are those of the sample again, in its order |
| RuntimeStore.RuntimeStore.SetGatewayStatus | lib/demo-data.ts:474-487 | new state equals the specification |
| SpendGate.DecisionExactly | lib/spend-gate.ts:38-146 | in plain arithmetic: allowed iff the amount is finite, not negative, within the cap per order, spent plus amount within each cap that counts, and no human has to confirm; denied iff the amount is unsound or a zero cap per order decides |
| SpendGate.ReasonIsTrue | lib/spend-gate.ts:38-146 | the reason names what is the case, the day's cap before the month's |
| SpendGate.SeverityMonotone | lib/spend-gate.ts:38-146 | a larger amount or larger totals never get a milder answer |
| SpendGate.NotANumberLiftsCaps | lib/spend-gate.ts:102-130 | a total of the day or month that is not a number has the effect of no cap for it |
| SpendGate.NormalizeKeepsDecision | lib/spend-gate.ts:156-178 | for any stored JSON, normalising keeps a decision iff the order stops before the cap per order; or that cap is stored and decides, or no day or month cap stored otherwise than as a number adds itself; or the cap is supplied for one that is not null and the order exceeds it or another cap |
| SpendGate.NormalizeKeepsDecisions | lib/spend-gate.ts:156-178 | normalising keeps the decision of every order iff there is no object, or a finite cap per order is stored that is not positive or goes with no day or month cap that only reads as a positive number |
| SpendGate.RunIsSafe | lib/spend-gate.ts:38-146 | over any run in which the gate is given the totals of the orders booked so far, right after each automatic order all caps hold for the totals, and none is booked without limits, under an always-human policy or as a guarded first order |
| SpendGate.OrderBookedExactly | lib/spend-gate.ts:38-146 | over any such run an order is booked without a human iff it fits every cap together with what was booked before; otherwise iff a human approves it and it is not refused outright |
| SpendGate.AutomaticSpendIsCapped | lib/spend-gate.ts:102-130 | over any run in which the gate is given the totals of the orders booked so far, what is spent without a human on a day or in a month is within the cap |
| ActionGate.ValidLimit | lib/action-gate.ts:12-15 | a limit is valid iff it is a positive integer |
| ActionGate.DecisionExactly | lib/action-gate.ts:34-67 | denied iff some limit is used twice over, allowed iff none is used up, the day reported first |
| ActionGate.SeverityMonotone | lib/action-gate.ts:43-66 | more executions never get a milder answer |
| ActionGate.NormalizeActionLimits | lib/action-gate.ts:17-32 | stored under each trimmed non-empty name is the cleaned limit of the last kept entry, and nothing else |
| ActionGate.NormalizeIdempotent | lib/action-gate.ts:17-32 | normalising normalised limits, listed in any order, changes nothing |
| ActionGate.NormalizedUnique | lib/action-gate.ts:17-32 | the entries determine the normalised limits |
| ActionGate.NormalizeKeepsDecisions | lib/action-gate.ts:17-67 | normalising keeps every decision iff no entry that is kept has an empty name or one with white space at an end |
| ActionGate.UntrimmedNameLosesLimit | lib/action-gate.ts:26-28 | every other kept entry loses its limit: the stored object stops its tool, the normalised one has no limit for it |
| ActionGate.UntrimmedNameMovesLimit | lib/action-gate.ts:26-28 | and the limit stops the tool of the trimmed name, if that is not empty and had none |
| ActionRuns.CountersAreSafe | lib/gateway/invoke.ts:1701-1733 | over any run no counter of a day or month gets past twice its limit, nor, for tools that are not exempt, the executions without a human in it past the limit, whatever the clock does |
| ActionRuns.RunIsSafe | lib/gateway/invoke.ts:4390-4399 | what is executed keeps both bounds over any run in which the key's executions (for the second bound, those without a human) reach the counter; an exempt tool has twice the limit without a human |
| ActionRuns.ToolsBoundedExactly | lib/gateway/invoke.ts:1738-1771 | on paths that do not return early, all runs stay within twice the limit iff the tool is not `comm.delete`, and within the limit without a human iff it is neither that nor exempt |
| ActionRuns.RepeatsBoundedExactly | app/api/approvals/[id]/approve/route.ts:77-80 | repeating a call stays within twice the limits iff what it carries out is counted |
| ActionRuns.DeletesAreUnbounded | lib/comm-delete/invoke.ts:129 | under any limits any number of deletions on one day is carried out without a human |
| ActionRuns.ExemptToolPassesLimit | lib/gateway/invoke.ts:3348-3353 | under any limit both exempt tools are carried out without a human up to twice the limit |
| ActionRuns.StopsExactly | lib/data/action-counters.ts:36-53 | while nothing is counted for a later day, a call is refused iff the counters of its day or month come to twice the limit, and passes without approval iff neither limit is used up or the tool is exempt |
| ActionRuns.TodayCovers | lib/data/action-counters.ts:31-53 | what is counted as today includes all of the day |
| ActionRuns.TokyoDay | lib/data/action-counters.ts:31-34 | the day turns at 15:00 UTC and lasts 24 hours |
| Rounding.ApportionBounds | lib/cost-demo.ts:222-235 | rows are within one half of their quota, the last within half the number of the others, the total never short |
| Rounding.ApportionExactWhen | lib/cost-demo.ts:229-235 | the total is exact iff the other rows did not take more than it, the guard of the clamp |
| Rounding.ApportionExactForLargeLast | lib/cost-demo.ts:229-235 | a last quota of more than half the number of the others, less one, is enough |
| CostDemo.AllocateOverage | lib/cost-demo.ts:196-204 | the running-total loop charges each bucket for exactly its own units past the included ones |
| CostDemo.MeteredClosedForm | lib/cost-demo.ts:200-202 | metering unit by unit equals the difference of two overages |
| CostDemo.ChargesTelescope | lib/cost-demo.ts:189-204 | at every point of the series the charges add up to the overage so far |
| CostDemo.BuildSeries | lib/cost-demo.ts:161-187 | the buckets' units and their running sum |
| CostDemo.RoundRows | lib/cost-demo.ts:222-227 | shares normalised in place, units and yen rounded |
| CostDemo.RepairLastRow | lib/cost-demo.ts:229-235 | the drift goes to the last row, never below zero |
| CostDemo.Apportion | lib/cost-demo.ts:222-235 | the table equals the apportionment of units and yen |
| CostDemo.SharesAreQuotas | lib/cost-demo.ts:222-226 | scaled shares are non-negative and add up to what is shared out |
| CostDemo.GetCostDemo | lib/cost-demo.ts:143-249 | the bundle balances units against the range's quota and overage, its series adds up to the headline, its table apportions it, one row per employee of the roster in its order |
| CostConservation.UsedFloor | lib/cost-demo.ts:164-187 | whatever the draws, the units are at least a constant per unit of org weight |
| CostConservation.TableConserves | lib/cost-demo.ts:143-249 | for every range, all draws and up to 67 employees, units and yen of the table add up exactly to the headline |
| CostOvershoot.LargeRostersOvershoot | lib/cost-demo.ts:229-235 | for every roster of more than 67 employees there are draws, noise included, under which the day's table comes to one unit more than the headline |
| CostOvershoot.RosterSizeExactly | lib/cost-demo.ts:143-249 | with all draws arbitrary, the noise of each bucket included, the table of a roster always adds up iff it has at most 67 employees |
| CostFixedNoise.LargeForItsUnits | lib/cost-demo.ts:173-235 | whatever noise and shape the range has, a roster of n has shares that overshoot once twice the units of its lightest weights are less than n (n - 2) |
| CostFixedNoise.EveryNoiseOvershoots | lib/cost-demo.ts:173-235 | so whatever the noise and shape, every roster of 122 (day), 835 (week) or 3206 (month) employees or more has weights and shares under which the table exceeds the headline |
| CostFixedNoise.UsedCeiling | lib/cost-demo.ts:164-187 | whatever the draws, the units are at most a constant per unit of org weight |
| CostFixedNoise.BucketNearProduct | lib/cost-demo.ts:164-176 | a bucket's units are within one half of rate, weight, shape and noise multiplied, from its own two draws |
| CostConservation.TableExactWhen | lib/cost-demo.ts:229-235 | for rosters of any size units, and likewise yen, are exact iff the rows before the last did not take more than the headline |
| CostConservation.TableIsFair | lib/cost-demo.ts:206-235 | for rosters of any size rows are near their exact part and totals can only come out too high, by a bounded amount |
| CostConservation.SharesByPull | lib/cost-demo.ts:149-224 | a row's share is the employee's own weight times its own factor, over the sum of those products |
| LiveMetrics.BuildLiveActivity | lib/dashboard-metrics.ts:117-187 | every cell counts exactly the events between the two times of its bucket, every employee row its own, totals all classified events in the window, empty iff all totals are zero |
| LiveMetrics.BucketIsInterval | lib/dashboard-metrics.ts:142 | an event is put in bucket i iff it lies in the i-th interval of the window, the last one without end |
| LiveMetrics.TotalsByAction | lib/dashboard-metrics.ts:96-114 | denials are the rejected resolutions, denials and approvals all resolutions, with the actions all known events |
| LiveMetrics.Rate | lib/dashboard-metrics.ts:164-174 | the approved part of what was decided, one when nothing was |
| LiveMetrics.HistogramIsExact | lib/dashboard-metrics.ts:139-149 | the cells add up to the selected events in the window |
| LiveMetrics.HistogramOfEvents | lib/dashboard-metrics.ts:139-149 | appended event lists add pointwise and order does not matter |
| LiveMetrics.AttributionIsExact | lib/dashboard-metrics.ts:151-157 | for distinct employees what is attributed is what belongs to one of them |
| LiveMetrics.TotalsMinusUnattributed | lib/dashboard-metrics.ts:160-178 | the employee table falls short of the totals by exactly the unattributed events |
| LiveCost.Meter | lib/dashboard-metrics.ts:208-235 | units per interval of the window, per employee over all events, and their number |
| LiveCost.MeteredSplits | lib/dashboard-metrics.ts:217-220 | metered are all confirm actions but those marked as not billable |
| LiveCost.BuildLiveCost | lib/dashboard-metrics.ts:198-280 | used and remaining balance the plan's quota and overage, one of remaining and overage zero, the price per unit is the plan's, every cell counts the metered events of its interval, table exact |
| LiveCost.BuildRows | lib/dashboard-metrics.ts:239-252 | one row per listed employee with its own units and its rounded part of the yen |
| LiveCost.UnitsConserved | lib/dashboard-metrics.ts:215-235 | employee units and unknown events make up everything metered, in or out of the window |
| LiveCost.YenNearHeadline | lib/dashboard-metrics.ts:198-280 | the employee yen are within half a yen per employee of `estimatedOverageYen` iff a meter was reported and a unit is attributed, or that figure is no more than so much itself; otherwise the table shares out nothing |
| LiveCost.SharesAddUp | lib/dashboard-metrics.ts:237-250 | shares are in proportion to units and add up to one once a unit is attributed and anything is used |
| HtmlEscape.EscapedDenotes | lib/html-escape.ts:7-13 | what is written for a special character is a reference that, by its letters or the value of its digits, stands for that character |
| HtmlEscape.RoundTrip | lib/html-escape.ts:7-18 | a decoder that reads references for itself undoes escaping on every string |
| HtmlEscape.EscapeHtmlRoundTrip | lib/html-escape.ts:15-18 | the exported function decodes back to its argument, null and undefined to the empty string |
| HtmlEscape.EscapeInjective | lib/html-escape.ts:7-18 | no two strings escape to the same text |
| HtmlEscape.EscapeConcat | lib/html-escape.ts:15-18 | escaping distributes over concatenation |
| HtmlEscape.EscapeLength | lib/html-escape.ts:7-18 | the length grows at most sixfold, and not at all iff nothing needed escaping |
| HtmlEscape.EscapeIsWellEscaped | lib/html-escape.ts:7-18 | no angle bracket or quote is left and every ampersand starts a reference |
| HtmlEscape.EscapedExactlyWhenWellEscaped | lib/html-escape.ts:7-18 | the outputs are exactly the well escaped texts |
| EmailSubject.SubjectIsSafe | lib/html-escape.ts:20-27 | no control character, no line break (section 2.2 of RFC 5322), single spaces, trimmed, at most 200 code units, nothing new but blanks and the ellipsis |
| EmailSubject.SanitizeIdempotent | lib/html-escape.ts:24-27 | sanitizing twice is sanitizing once |
| EmailSubject.SanitizedExactlyWhenClean | lib/html-escape.ts:24-27 | a subject is left alone iff it is clean and short enough |
| EmailSubject.SubjectKeepsWords | lib/html-escape.ts:24-27 | the words survive; a longer line is cut after 199 code units and marked |
| StableHash.StableHash | components/employees/EmployeeAvatar.tsx:20-27 | the signed loop computes the unsigned FNV-1a hash |
| StableHash.KnownValue | lib/cost-demo.ts:74-81 | the published value of "a" |
| StableHash.AbsorbInjective | lib/cost-demo.ts:76-79 | a step is injective in state and in code unit |
| StableHash.AbsorbSurjective | lib/cost-demo.ts:76-79 | a step reaches every state |
| StableHash.CommonSuffixCancels | lib/cost-demo.ts:74-81 | two strings collide with a common end iff they do without it |
| StableHash.OneUnitNeverCollides | lib/cost-demo.ts:74-81 | strings that differ in exactly one code unit never collide |
| StableHash.SameAvatar | components/employees/EmployeeAvatar.tsx:38-41 | two hashes draw the same avatar iff they agree modulo 96 |
| StableHash.AvatarReached | components/employees/EmployeeAvatar.tsx:38-41 | every palette, shape and dot combination occurs |
| CodeUnits.TrimSplits | lib/html-escape.ts:25 | trim removes white space at the two ends and nothing else |

## Left out

- Concurrency between calls: each call is one step, so the gap between reading the action counters and logging the execution is not modelled.
- Several clock readings within one call: a call sees one.
- Floating point: shares, noise and yen are exact reals, and an infinite reported meter in the live cost tab is not modelled.
- `Math.sin` behind `unit`: its values are arbitrary numbers in [0, 1).
- The merchant tip of the spend limits, which the gate ignores; normalising throws on one that is neither null nor text.
- Property names inherited from `Object.prototype` in look-ups by tool or plan.
- The driver of the spend gate: the gateway takes the running totals from the request body; the runs modelled here compute them from what was executed.
- The gateway around the action gate: an approval is a flag of a call, and whether the call is stopped by something else, completes, returns early or only replays an earlier execution is its ending. A post whose outcome stays unknown is a call that returns early if it went out.
- The driver of the action gate is modelled on values: the log array of `lib/data/action-counters.ts` grows by appending, which the model's sequences capture, and its database variant is left out.
- Message strings, labels, purposes, summaries and most metadata of tickets, audit records, members and employees.
- `listBindingsForOrg`, `bindingPublicView`, meter records and free-form audit events: one filter, one projection and two plain insertions.
- Ticket statuses no operation of the demo store produces (expired, superseded).
- The demo activity series and the employee action log: no claim beyond each function's own lines.
- `RuntimeStore.TicketFollowsDecisions`: assumes the ticket's id is not filed again, ids being minted at random.
- `BindingHistory.FreshBadgesStayDistinct`: assumes written fingerprints are new, which the program gets from SHA-256 of random secrets.
- The Supabase mirrors of the stores, HTTP routes, mail, chat and billing integrations, and all React components except the avatar's hash.

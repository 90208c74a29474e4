# Verified model of the accounting, sizing and estimation core

This project models, in Dafny, the parts of the repository that decide whether a reported number can
be trusted, and proves what those parts promise. The command for the whole project is
`dafny verify dfyconfig.toml`.

| Dafny modules | models |
|---|---|
| Accounts, Conservation, Legs, AverageCost | the average-cost account that the quantity audit replays, as a function over event sequences: its conservation law, what flat restarts drop, what its average cost means |
| Replay | the audit itself: the event order, the replay loop over a mutable book, its tolerances, the chain of legs |
| Buckets, VectorAudit | the vectorised audit (hour buckets, grid re-indexing, cumulative sums) against the replay; its verdict and its chain of legs |
| Ledger, Reconciliation, Engine, HourlyRuns | the production ledger class, the engine's bars and what a whole run of them leaves in the ledger, and why the saved tables of a run pass the quantity audit and, for hourly bars, the vectorised one |
| Scanner, Layout | the embedded-object scanner and its grammar, with a JSON printer of any spacing and spelling |
| Binomial | the exact one-sided bound by bisection and the least all-success sample |
| Ewma, LiveEstimator | the windowed estimator's weights, its seeded recursion, memory, effective sample, and the overlay study that sizes on it |
| Overlay, TwinCheck, Study, StudyPaths, OverlayLegs, LeveredLeg | the volatility overlay in production and as the study's twin, the check that pins them, the daily drawdown study, what its recursions add up to, how its two legs relate, and when the levered leg can be selected |
| Drawdown | the array and the loop form of maximum drawdown |
| Frontier, Correlation, Shrinkage | the closed-form frontier, the floor of an average correlation, constant-correlation shrinkage |
| Sorting, Sampling | the accession table and the frozen sample |
| Shortfall | the implementation-shortfall decomposition |
| Reals, Smoothing, MapSums, SeqSums, Outcomes | sums, powers, quadratic forms, exponential smoothing and refusals shared by the rest |

## Modelling choices

- Money, weights and probabilities are exact reals; floating-point rounding is not modelled. The
  audit's tolerances are kept as the constants they are.
- A square root is a function of which only the defining property is used: non-negative, and its
  square is its argument. `lam` is the decay `0.5 ** (1 / halflife)`, any number in (0, 1).
- Code that works on many paths at once is modelled on one path. Regimes and shocks enter only as
  the sleeve returns they produce, arbitrary vectors.
- Library calls that have no code here (sorting, group-by, filters, cumulative sums) are functions
  with their stated meaning; loops written in the scripts are methods with loops, and objects that
  update fields are classes.
- A message digest is an arbitrary function.
- The study's ceiling and gross cap are positive, as the production overlay demands of its caller
  (src/alphaforge/portfolio/overlay.py:80-82), and its calm correlation factors.

## Where the code and its documentation disagree

- The retained explanation of a retired result (scripts/analyze_frontier_14.py:588-594,
  docs/design/FRONTIER_14_ADMISSION_V5.md:175-179) says that with equal halflives "the realized leg
  binds 32% of days" was floating-point tie-breaking. In exact arithmetic the two legs are indeed one
  number and the realized leg is never the larger (`OverlayLegs.LegsAgreeExactly`), yet the counter at
  scripts/analyze_frontier_14.py:362-363 still counts: it compares the realized leg after the day's
  update with the ex-ante leg from before it, so it counts exactly the days whose annualised squared
  return exceeds the variance sized on (`OverlayLegs.BoundCountsSurprises`, with a one-day run in
  `OverlayLegs.CountsWhileLegsAreOne`). For a normal return of that variance this is the chance of a
  move beyond one standard deviation, about 32%.
- The legs are the same number only while no day trades a non-zero return at a scale under the
  `1e-12` guard. `OverlayLegs.LegsAgreeExactly` states this as an if-and-only-if,
  `OverlayLegs.LegsDifferUnderTheFloor` gives a one-day run on which they differ, and
  `OverlayLegs.LegsAreOne` shows that returns up to a billion keep every scale above the guard.
- The levered realized leg is said never to fire (scripts/analyze_frontier_14.py:34-40 and 278-282),
  because below scale one it loses the comparison (docs/design/FRONTIER_14_ADMISSION_V5.md:135-141).
  What counts is the square of the scale against the ratio of the two decays: the leg loses while the
  scales traded keep `scale^2 (1 - lam_rv) <= 1 - lam_cov` (`LeveredLeg.SmallerWhileOutweighed`), and
  over all runs it is never selected exactly when that holds of the smaller cap and the realized leg
  is no slower than the ex-ante one (`LeveredLeg.NeverSelectedExactly`). At halflives of 720 and 240
  the bound on the scale is about 0.577 (`LeveredLeg.OutweighedAtThrice`), and with the sweep's caps
  of 6 and 8 some run selects the leg (`LeveredLeg.ShippedLegFires`). `LeveredLeg.FiresBelowScaleOne`
  is a one-day run, at other halflives, on which it is selected after a day traded below scale one
  half.
- The comment at scripts/analyze_live_covariance_memory.py:64-65 takes the median weight age for the
  halflife. The age at which the accumulated weight reaches one half is the halflife less one bar, and
  it falls inside the seed block when fewer rows than a halflife follow it
  (`Ewma.MedianAgeOfHalflife`; `Ewma.MedianAgeExactly` gives the age for every decay).
- The header of scripts/analyze_ledoit_wolf_effective_sample.py:12-13 calls the coded shrinkage
  intensity conservative at long halflives; the effective sample never exceeds the window, so it is
  conservative only where rescaling changes nothing (`Ewma.NeverConservative`). The same script says
  so at lines 220-227.
- `sleeves_required` answers infinity at perfect correlation when the target equals the sleeve quality,
  although one sleeve reaches it. It keeps its promise for every other correlation up to one
  (`Frontier.SleevesRequiredExactly`, `Frontier.PerfectCorrelation`).

## Conditions the promises rest on

- The vectorised audit's re-indexing drops any cash flow whose bucket is not a mark of the grid, and
  its residual check then rejects the leg unless what was dropped nets to less than the tolerance at
  every mark. On exactly saved tables this is its whole verdict (`VectorAudit.VectorPassesExactly`;
  `Buckets.OffGridFeeIsLost` is a leg that loses a fee).
- The borrow total stays at or below zero, as src/alphaforge/backtest/ledger.py:600-601 documents,
  while no caller passes a negative rate. The ledger does not check this itself; its callers do
  (src/alphaforge/costs/model.py:73-76 and 103, src/alphaforge/execution/borrow.py:93,
  src/alphaforge/backtest/engine.py:959).
- Over exact reals `minimum_perfect_trials` has no answer for targets between 1 - 2^-101 and one,
  because the bisection's midpoint never exceeds that (`Binomial.SearchEndsExactly`). This is a
  consequence of exact arithmetic: no double lies in that interval.

## Model

| member | source | states |
|---|---|---|
| Conservation.BookingConserves | scripts/audit_crypto_funded_quantities_v4.py:22-32 | in all four branches of a fill (increase, reduce, close, flip) the position's cost changes by signed amount times price plus the profit realized |
| Conservation.FillKeepsNotional | scripts/audit_crypto_funded_quantities_v4.py:31-35 | a fill moves cash less cost basis by minus its consideration and fee, whatever profit it realizes |
| Conservation.RunConserves | scripts/audit_crypto_funded_quantities_v4.py:19-48 | after any run: cash less cost basis is the start less consideration and fees plus funding on the fills before each settlement; every quantity is the start plus its signed fills; no zero position remains |
| Conservation.NetIsBoughtLessSold | scripts/audit_crypto_funded_quantities_v4.py:24-32 | what the fills net to is the quantity bought less the quantity sold |
| Conservation.SpentIsPaidLessReceived | scripts/audit_crypto_funded_quantities_v4.py:24-35 | what is spent is what is bought at its price, less what is sold at its price, plus the fees |
| Conservation.LongsPayShorts | src/alphaforge/backtest/ledger.py:286-347 | at a positive rate longs pay and shorts receive, the value of the position times the rate, and opposite positions cancel |
| Conservation.ReorderedFillsKeepEquity | scripts/audit_crypto_funded_quantities_v4.py:18-48 | any rearrangement of the fills between two settlements or marks leaves the net asset value equal at the next mark and after any further events |
| AverageCost.OpenExactlyWhenNet | scripts/audit_crypto_funded_quantities_v4.py:30-32 | the list of prices at which the current position was opened or increased is non-empty exactly when the fills do not net to zero |
| AverageCost.AverageIsBracketed | scripts/audit_crypto_funded_quantities_v4.py:23-32 | in every reachable book an instrument is held exactly when it has opening prices, and its average cost lies between the least and greatest of them |
| AverageCost.AddsCommute | src/alphaforge/backtest/ledger.py:29-31 | same-direction adds, over any instruments and from any positions they add to, leave the same account in any order; each average is what was held at cost plus what was paid, over the quantity |
| AverageCost.AddsRealizeNothing | scripts/audit_crypto_funded_quantities_v4.py:25-26 | such adds realize no profit: cash falls by the fees alone, and every cost grows by what is paid for the instrument |
| AverageCost.MirroredRun | tests/property/test_ledger_properties.py:103-127 | swapping the side of every fill negates every quantity, keeps every average cost, and turns the cash earned before fees, profit and funding alike, into its opposite, over the whole run |
| Legs.LegGap | scripts/audit_crypto_funded_quantities_v4.py:49-53 | over any events the gap between a continuous and a flat-restarted account moves by exactly the price change and the funding of the carried quantities |
| Legs.ChainGap | scripts/audit_crypto_funded_quantities_v4.py:7-54 | over any number of legs, continuous minus chained net asset value is exactly the sum, per boundary, of what the restart dropped |
| Legs.FlatBoundariesDropNothing | scripts/audit_crypto_funded_quantities_v4.py:49-53 | if the account carried through is empty at every boundary, the restarts drop nothing |
| Legs.FlatRestartsDropNothing | scripts/audit_crypto_funded_quantities_v4.py:49-53 | if every restarted leg but the last ends flat, the carried account is the last restarted one and its equity is the chained net asset value |
| Legs.FlatEitherWay | scripts/audit_crypto_funded_quantities_v4.py:7-53 | the account carried through is flat at every boundary exactly when every restarted leg but the last ends flat |
| Legs.FlatEndsDropNothing | scripts/audit_crypto_funded_quantities_v4.py:7-53 | so when the audit's own restarted legs end flat, the restarts drop nothing |
| Legs.ZeroGrossIsFlat | scripts/audit_crypto_funded_quantities_v4.py:50-53 | at positive marks the gross value of a book is zero exactly when the book is empty |
| Legs.ZeroGrossEndsFlat | scripts/audit_crypto_funded_quantities_v4.py:50-53 | a restarted leg ends flat exactly when the gross of its replayed quantities is zero |
| Legs.DroppedIsBounded | scripts/audit_crypto_funded_quantities_v4.py:50-53 | the price gain a restart drops is at most the boundary gross times the largest relative move of a held mark |
| Legs.FundingIsBounded | scripts/audit_crypto_funded_quantities_v4.py:36-53 | the funding of the carried quantities over the next leg, dropped too, is at most the boundary gross times the bound on the charges, added over its settlements |
| Legs.RestartDropIsBounded | scripts/audit_crypto_funded_quantities_v4.py:36-53 | all that a restart drops, price and funding, is at most the boundary gross times the sum of both bounds |
| Replay.SavedGrossIsClose | scripts/audit_crypto_funded_quantities_v4.py:41-53 | at a mark that passed, the gross the script adds up from saved quantities is within the quantity tolerance a unit of mark of the replayed gross |
| Replay.UnreportedDropIsSmall | scripts/audit_crypto_funded_quantities_v4.py:41-53 | what a restart drops when the script's saved gross is not above its 1e-6 threshold: at most that threshold plus the quantity tolerance on the marks, times the bounds on moves and charges |
| Replay.SortRowsSorts | scripts/audit_crypto_funded_quantities_v4.py:12-18 | the event order is sorted by timestamp and priority, holds the same rows, and keeps the order of rows with equal keys |
| Replay.LegReplay.BookOne | scripts/audit_crypto_funded_quantities_v4.py:25-29 | whatever branch it takes, the profit it reports and the average it leaves change the position's cost by signed amount times price plus that profit |
| Replay.LegReplay.OnFill | scripts/audit_crypto_funded_quantities_v4.py:22-35 | a fill row passes exactly when its saved notional and profit are within tolerance, and then the book and cash are those of the specified step |
| Replay.LegReplay.OnFunding | scripts/audit_crypto_funded_quantities_v4.py:36-40 | likewise for a funding row, its quantity and its payment |
| Replay.LegReplay.OnMark | scripts/audit_crypto_funded_quantities_v4.py:41-48 | likewise for a mark: the same instruments, every quantity and unrealized profit, and the equity; the account is untouched |
| Replay.LegReplay.Run | scripts/audit_crypto_funded_quantities_v4.py:19-48 | the loop passes exactly when every row's checks hold in the state before it, ends in the replayed account, and reports the worst residuals |
| Replay.AuditLeg | scripts/audit_crypto_funded_quantities_v4.py:19-53 | a leg passes exactly when all its rows do and every open position has a boundary mark; its value is the marked equity |
| Replay.AuditChain | scripts/audit_crypto_funded_quantities_v4.py:7-53 | the audit passes exactly when every leg does from the value chained so far, and returns the chained net asset value |
| Replay.RowOkExactly | scripts/audit_crypto_funded_quantities_v4.py:22-48 | what passing means for each kind of row, in the saved figures, the fills before it and the literal tolerances alone: notional and profit of a fill, quantity and payment of a settlement, instruments, quantities, profits and equity of a mark; if and only if |
| Replay.LegPassesExactly | scripts/audit_crypto_funded_quantities_v4.py:12-53 | a leg passes exactly when it has a mark, every row is certified that way, and what its fills do not net to zero was saved at the last mark |
| Replay.ChainPassesExactly | scripts/audit_crypto_funded_quantities_v4.py:7-53 | the chain passes exactly when every leg does from the value chained before it |
| Replay.ChainedMoves | scripts/audit_crypto_funded_quantities_v4.py:49-53 | a passing leg adds to the chained value minus everything paid for fills, plus funding, plus its net quantities at the last marks |
| Replay.WorstIsGreatest | scripts/audit_crypto_funded_quantities_v4.py:33-54 | the three reported residuals are the greatest ones, and each is attained or zero |
| Replay.PassedEquityIsConserved | scripts/audit_crypto_funded_quantities_v4.py:41-48 | what a passing audit certifies: every saved equity is within tolerance of start less payments for fills plus funding plus net filled quantities at the marks |
| Buckets.CumulativeIsSelected | scripts/audit_crypto_extended_accounting.py:48-52 | summing by bucket, re-indexing and cumulating is the sum of exactly the rows booked so far |
| Buckets.SeenIsBooked | scripts/audit_crypto_extended_accounting.py:44-49 | of the cash rows that sort before a mark, exactly those whose bucket is on the grid are booked by it, and none after it |
| Buckets.ReconstructionIdentity | scripts/audit_crypto_extended_accounting.py:42-55 | for every ordered leg and mark, reconstruction plus the cash lost off the grid equals the replayed equity plus the errors in the saved numbers |
| Buckets.BucketedRefinesReplay | scripts/audit_crypto_extended_accounting.py:42-55 | with exactly saved numbers the vectorised value equals the event replay at a mark exactly when the cash lost off the grid nets to zero |
| Buckets.OnGridExactly | scripts/audit_crypto_extended_accounting.py:42-52 | which rows stay on the grid, as a condition on timestamps: if and only if |
| Buckets.OnGridAgrees | scripts/audit_crypto_extended_accounting.py:42-56 | when no cash-bearing row leaves the grid both reconstructions agree at every mark |
| Buckets.OffGridFeeIsLost | scripts/audit_crypto_extended_accounting.py:44-54 | an ordered, exactly saved leg on which the reconstruction misses the fee of a fill half an hour off the grid |
| Buckets.AuditedReconstruction | scripts/audit_crypto_extended_accounting.py:54-56 | a leg that passed the quantity audit is reconstructed to within one tolerance per row and position, up to the lost cash |
| VectorAudit.VectorLeg | scripts/audit_crypto_extended_accounting.py:42-56 | a leg passes exactly when it has marks, they are the expected grid, and every residual is within tolerance; without marks the worst residual is not a number and the assertion fails |
| VectorAudit.VectorPassesMeans | scripts/audit_crypto_extended_accounting.py:42-56 | a leg passes exactly when its marks run hourly over the whole grid and each saved equity is, within 1e-6, the start plus the saved cash booked on the hour by then plus the saved unrealized profits |
| VectorAudit.VectorChain | scripts/audit_crypto_extended_accounting.py:30-60 | the audit passes exactly when every leg does from the last equity of the one before, and ends in the last equity |
| VectorAudit.ReconstructedInAnyOrder | scripts/audit_crypto_extended_accounting.py:48-54 | the grouped sums do not depend on the order of the tables |
| VectorAudit.VectorPassesExactly | scripts/audit_crypto_extended_accounting.py:42-56 | an exactly saved leg passes exactly when the cash lost off the grid before each mark is within the tolerance |
| VectorAudit.AuditsCarryTheSame | scripts/audit_crypto_extended_accounting.py:37-60 | on exactly saved legs the quantity audit passes and both audits carry the same value into and out of every leg |
| VectorAudit.AuditsAgree | scripts/audit_crypto_extended_accounting.py:31-60 | on exactly saved legs the vectorised audit passes a leg exactly when it is kept on the grid |
| Ledger.Ledger.constructor | src/alphaforge/backtest/ledger.py:168-188 | a new ledger satisfies the identity and views as a flat account |
| Ledger.Ledger.Open | src/alphaforge/backtest/ledger.py:168-172 | a starting cash that is not positive is refused |
| Ledger.Ledger.Decomposition | src/alphaforge/backtest/ledger.py:18-23 | in every reachable state, at any closes: equity is start plus realized and unrealized profit less fees plus every net cash flow |
| Ledger.Ledger.Kept | src/alphaforge/backtest/ledger.py:589-602 | in every reachable state only known instruments are held, none at zero and each with an opening time, fees are not negative, the borrow total is at or below zero while no rate was negative, and the curve's timestamps increase |
| Ledger.Ledger.ApplyFill | src/alphaforge/backtest/ledger.py:192-284 | unknown instruments are refused unchanged; otherwise the ledger's view steps exactly as the audit's account, cash falls by consideration and fee, the saved row is the exact one, the profit is added to that instrument's realized profit and to no other's, and the opening times follow |
| Ledger.OpenedSince | src/alphaforge/backtest/ledger.py:222-268 | opening times are kept for exactly the instruments whose fills do not net to zero, and each is that of the fill since which the position has stood on its present side |
| Ledger.Branch | src/alphaforge/backtest/ledger.py:222-268 | open or add, reduce, close, flip compute the booking of the specification |
| Ledger.Ledger.ApplyFunding | src/alphaforge/backtest/ledger.py:286-347 | its two error cases, the signed payment on the position held, and that the view settles as the audit's account |
| Ledger.Ledger.ApplyBorrow | src/alphaforge/backtest/ledger.py:349-405 | its no-op and error cases; the payment is quantity times mark, rate and days on a short and nothing otherwise, with its exact sign; the total stays at or below zero while no rate is negative |
| Ledger.BorrowIsCarry | src/alphaforge/backtest/ledger.py:349-405 | nothing on a long; on a short minus its value times rate and days; and the same however the days are split |
| Ledger.Ledger.ApplySplit | src/alphaforge/backtest/ledger.py:407-462 | its two errors; no cash moves, equity at split-adjusted closes equals equity before for all closes, and a held position leaves one action record |
| Ledger.Ledger.ApplyCashDividend | src/alphaforge/backtest/ledger.py:464-499 | its two errors; the signed position times the amount, in cash, in its total and in one action record |
| Ledger.Ledger.ApplyFinancing | src/alphaforge/backtest/ledger.py:501-529 | refused when accrued on another cash balance, otherwise booked once |
| Ledger.Ledger.Mark | src/alphaforge/backtest/ledger.py:531-575 | succeeds exactly with a positive close for every position and a timestamp not before the last; appends, or overwrites at an equal timestamp, curve and log alike, so that the curve stays that of the saved marks |
| Ledger.SplitKeepsEquity | src/alphaforge/backtest/ledger.py:407-462 | a split keeps cost basis and equity at adjusted closes, for every book and ratio |
| Ledger.SplitMultiplies | src/alphaforge/backtest/ledger.py:407-462 | a split multiplies the quantity of its own instrument and no other |
| Ledger.SplitMarksDivide | src/alphaforge/backtest/ledger.py:407-462 | the adjusted close times the ratio is the close before, and no other close changes |
| Ledger.DividendKeepsEquity | src/alphaforge/backtest/ledger.py:464-499 | equity is unchanged when the close falls by the dividend, for longs and shorts |
| Reconciliation.SavedTablesSortBack | scripts/audit_crypto_funded_quantities_v4.py:10-18 | saving a log as three tables and sorting them together is sorting the log, whatever its order; an ordered log comes back as it was |
| Reconciliation.OrderIsUnique | scripts/audit_crypto_funded_quantities_v4.py:18-18 | two ordered logs that agree row by row under each key are the same log |
| Reconciliation.SortKeepsExact | src/alphaforge/data/sources/vision.py:36-41 | a log whose settlements alone are out of order, as jittered stamps make them, is still exact once sorted and replays to the same account |
| Reconciliation.ProductionRunPassesAudit | scripts/audit_crypto_funded_quantities_v4.py:19-53 | end to end: a perpetual-futures run that ends in a mark, in audit order up to settlements between the same fills and marks, passes the audit, which recovers the ledger's own account; the marks checked are its equity curve and the final value the curve's last |
| Engine.FillAll | src/alphaforge/backtest/engine.py:991-1007 | accepted exactly when every instrument is known, and then one row for each order, in order, and the account of all of them |
| Engine.SettleAll | src/alphaforge/backtest/engine.py:1009-1020 | accepted exactly when every settlement is of a known perpetual at a positive mark, and then one row for each settlement in an instrument held, in order, and the account of all of them |
| Engine.MarkTwice | src/alphaforge/backtest/engine.py:1022-1059 | accepted exactly when both markings have a positive close for every position, and then the forced closes and one mark of the book they leave |
| Engine.TradeBar | src/alphaforge/backtest/engine.py:991-1059 | a bar in the engine's order is accepted exactly when nothing in it is refused; it leaves the account of all its events, exactly its fills and due settlements in the log, its equity at its close, and the log in audit order up to its settlements |
| Engine.Backtest | src/alphaforge/backtest/engine.py:991-1059 | a run is accepted exactly when every bar is; it leaves the account of all the bars' events, exactly their fills and due settlements saved in order, and an equity for each close of the account by then, and passes the audit |
| HourlyRuns.RunIsExactLeg | scripts/audit_crypto_extended_accounting.py:37-60 | the saved tables of any perpetual run that ends in a mark are exact, so the comparison of the two audits applies to them |
| HourlyRuns.HourlyRunPasses | scripts/audit_crypto_extended_accounting.py:42-56 | a run of hourly bars from the top of an hour also passes the vectorised audit on its own grid, whatever it trades and wherever in their bars the settlements fall |
| Scanner.ScanObject | scripts/audit_bond_etf_nav_dislocation_feasibility.py:71-91 | from an opening brace the loop returns the brace that matches it, or fails with every slice's unquoted depth positive |
| Scanner.ExtractBalancedObject | scripts/audit_bond_etf_nav_dislocation_feasibility.py:63-92 | the first marker, the first brace after it, its matching brace; and which of the three errors, exactly when |
| Scanner.MatchedIsLeast | scripts/audit_bond_etf_nav_dislocation_feasibility.py:86-91 | the matching brace is the first position where the unquoted depth returns to zero |
| Scanner.MatchIsUnique | scripts/audit_bond_etf_nav_dislocation_feasibility.py:86-91 | at most one end matches |
| Layout.MatchedIsTree | scripts/audit_bond_etf_nav_dislocation_feasibility.py:74-91 | the scanner's matches are exactly the braced trees of quoted strings, escapes and nested braces |
| Layout.PrintedObjectScansBack | scripts/audit_bond_etf_nav_dislocation_feasibility.py:74-91 | any JSON object (section 4 of RFC 8259), printed with any whitespace between its tokens and its strings escaped in any way, in any surrounding text, scans to exactly itself |
| Layout.EmbeddedObjectIsExtracted | scripts/audit_bond_etf_nav_dislocation_feasibility.py:63-92 | a printed object behind the first occurrence of its quoted key and colon, with no brace in between, is exactly what is extracted, whatever comes before and after |
| Layout.FailsExactly | scripts/audit_bond_etf_nav_dislocation_feasibility.py:63-73 | the key is reported missing exactly when it occurs nowhere with its quotes and colon, and the object exactly when no brace follows its first occurrence |
| Layout.ExtractionIsUnique | scripts/audit_bond_etf_nav_dislocation_feasibility.py:63-92 | at most one extraction fits a text and a key |
| Layout.RequiredSpells | scripts/audit_bond_etf_nav_dislocation_feasibility.py:76-85 | the escapes that section 7 of RFC 8259 requires (quotes, backslashes, control characters) are one such way |
| Binomial.ChooseFactorial | scripts/audit_active_ownership_human_gate.py:39-43 | the binomial coefficient of the tail is the factorial quotient |
| Binomial.TailPascal | scripts/audit_active_ownership_human_gate.py:39-43 | Pascal's rule for the upper tail |
| Binomial.TailIsOne | scripts/audit_active_ownership_human_gate.py:39-43 | the whole distribution adds up to one |
| Binomial.TailMonotone | scripts/audit_active_ownership_human_gate.py:39-43 | the upper tail does not fall as the probability grows |
| Binomial.BisectionInvariant | scripts/audit_active_ownership_human_gate.py:58-64 | after every halving the low end fails, the high end passes, and the interval is 2^-steps wide within [0, 1] |
| Binomial.BoundBrackets | scripts/audit_active_ownership_human_gate.py:46-65 | every probability up to the bound less 2^-101 fails and every one from the bound plus 2^-101 passes |
| Binomial.ExactOneSidedLowerBound | scripts/audit_active_ownership_human_gate.py:46-65 | its input errors exactly, and otherwise the bisected bound |
| Binomial.PerfectBoundMonotone | scripts/audit_active_ownership_human_gate.py:68-76 | a larger all-success sample never has a smaller bound |
| Binomial.BoundCeiling | scripts/audit_active_ownership_human_gate.py:58-65 | no bound exceeds 1 - 2^-101 |
| Binomial.SearchEndsExactly | scripts/audit_active_ownership_human_gate.py:73-76 | some sample reaches the target exactly when the target is at most 1 - 2^-101 |
| Binomial.MinimumPerfectTrials | scripts/audit_active_ownership_human_gate.py:68-76 | terminates with the least denominator: exactly the counts at or above it reach the target |
| Ewma.ProductionWeights | scripts/analyze_drawdown_live_estimator.py:72-80 | the two filled slices are the weights of the specification |
| Ewma.WeightsAreRecursion | scripts/analyze_live_covariance_memory.py:3-6 | for every row sequence the weighted sum is the recursion seeded with the mean of the seed rows |
| Ewma.WeightsAreDistribution | scripts/analyze_live_covariance_memory.py:39-47 | every weight is positive and they add up to one |
| Ewma.SeedBlockWeight | tests/unit/test_live_covariance_memory.py:57-66 | the seed block carries lam^(window - seed), which never vanishes |
| Ewma.ImpulseIsWeight | scripts/analyze_live_covariance_memory.py:11-13 | a unit impulse in a row makes the recursion return that row's weight |
| Ewma.GramIsRecursion | src/alphaforge/portfolio/covariance.py:56-64 | the weighted Gram matrix is entry by entry the recursion, and symmetric |
| Ewma.QuadOfGram | scripts/analyze_frontier_14.py:269-272 | EWMA is linear: w' EWMA(r r') w is the EWMA of (w'r)^2 |
| Ewma.GramIsPsd | src/alphaforge/portfolio/covariance.py:113-124 | the estimate is positive semidefinite |
| Ewma.ComputeEffectiveSample | scripts/analyze_ledoit_wolf_effective_sample.py:73-81 | the loop computes Kish's effective sample of the weights |
| Ewma.EffectiveSampleBounds | scripts/analyze_ledoit_wolf_effective_sample.py:220-227 | it lies between one and the window, and equals the window only for equal weights |
| Ewma.EqualWeightsExactly | scripts/analyze_ledoit_wolf_effective_sample.py:73-81 | which windows, seeds and decays give equal weights: if and only if |
| Ewma.RescaledExactly | scripts/analyze_ledoit_wolf_effective_sample.py:143-164 | the rescaled intensity is one, or times the effective sample it is the coded intensity times the rows, whichever is less |
| Ewma.NeverConservative | scripts/analyze_ledoit_wolf_effective_sample.py:143-164 | rescaling to the effective sample never lowers the intensity; the coded one is conservative exactly when it is zero, one, or the weights are equal |
| Ewma.MedianAge | scripts/analyze_live_covariance_memory.py:59-61 | the age at which the accumulated weight first reaches one half, always inside the window |
| Ewma.MedianAgeExactly | scripts/analyze_live_covariance_memory.py:59-61 | the median age of every decay: one less than the first power at or below one half where the rows after the seed block carry half the weight, otherwise the row of the flat seed block that completes it |
| Ewma.MedianAgeOfHalflife | scripts/analyze_live_covariance_memory.py:59-65 | for a halflife h that fits after the seed block the median age is h - 1; otherwise it lies in the seed block |
| LiveEstimator.WindowIsScalar | scripts/analyze_drawdown_live_estimator.py:155-158 | the variance of the windowed matrix is the seeded recursion over the squared book returns of the window |
| LiveEstimator.VarianceAddsUp | scripts/analyze_drawdown_live_estimator.py:155-158 | the variance sized on is the weighted sum of the squared mean returns of the window's own rows, up to the day before, annualised |
| LiveEstimator.LegsAreRoots | scripts/analyze_drawdown_live_estimator.py:157-160 | the two volatilities compared are the roots of the two variances on every day, so neither clip binds |
| LiveEstimator.Simulate | scripts/analyze_drawdown_live_estimator.py:146-180 | the day loop over the sliding matrix history trades exactly the scales and returns of the scalar estimator, and reports the wealth, drawdown and turnover of those |
| LiveEstimator.CapsHold | scripts/analyze_drawdown_live_estimator.py:156-163 | every day is capped against the larger leg: ceiling, gross cap and volatility target, one of which binds |
| LiveEstimator.RealizedAddsUp | scripts/analyze_drawdown_live_estimator.py:146-180 | the realized variance is 0.01 faded, plus every day's annualised square faded since |
| LiveEstimator.TurnoverAddsUp | scripts/analyze_drawdown_live_estimator.py:151-167 | the turnover is the sum of the moves of the scale, the first from full investment |
| LiveEstimator.NonAnticipating | scripts/analyze_drawdown_live_estimator.py:154-180 | two runs that agree before a day, burn-in included, trade the same scale on it |
| Overlay.ScaleFacts | scripts/analyze_frontier_14.py:154-160 | the twin's scale is positive, within the ceiling, and meets the volatility target; one of the two binds |
| Overlay.ClipFacts | scripts/analyze_frontier_14.py:332-333 | the clip never raises the scale, holds the gross to its cap, and changes nothing below it |
| Overlay.VolTarget | src/alphaforge/portfolio/overlay.py:38-92 | the production function errs exactly on its four inputs; its scale is the twin's, its weights one clipped scale of the input, its gross within the cap |
| TwinCheck.ReproducesExAnte | scripts/analyze_frontier_14.py:211-213 | the diagonal covariance of a state reproduces its ex-ante volatility |
| TwinCheck.BoundaryCovers | scripts/analyze_frontier_14.py:195-205 | for every ceiling the injected states cover all three branches |
| TwinCheck.BranchExactly | scripts/analyze_frontier_14.py:209-230 | which branch any state takes: the guard exactly when neither leg is positive, the ordinary one exactly when the ceiling times a leg reaches the target |
| TwinCheck.PinTwin | scripts/analyze_frontier_14.py:163-241 | for all visited states and caps the check never fails, and its counts partition the states with none at zero |
| Study.DrawdownStudy | scripts/analyze_frontier_14.py:285-363 | refuses an overlay flag that contradicts the leg; otherwise the day loop ends in the specified state with the specified returns and scales |
| Study.CapsHold | scripts/analyze_frontier_14.py:325-337 | every day of every run: scale within ceiling and gross cap, and scale times the larger leg within the volatility target; one of the three binds |
| StudyPaths.CalmLeverageHeld | scripts/analyze_frontier_14.py:305-337 | without the overlay every day trades the ceiling or the target over the calm volatility, whichever is less, and every run starts at that gross |
| StudyPaths.ReturnsAre | scripts/analyze_frontier_14.py:347-348 | the book earns the scale times the mean of the sleeve returns |
| StudyPaths.RealizedAddsUp | scripts/analyze_frontier_14.py:310-361 | the realized variance is the calm variance faded, plus every day's annualised square faded since, of what its leg sees |
| StudyPaths.CovarianceAddsUp | scripts/analyze_frontier_14.py:309-356 | every covariance entry is the calm book's own faded, plus every day's annualised product faded since |
| StudyPaths.TurnoverAddsUp | scripts/analyze_frontier_14.py:319-341 | the turnover is the sum of the moves of the scale, the first from the calm leverage |
| StudyPaths.CounterAddsUp | scripts/analyze_frontier_14.py:362-363 | the counter is the number of days whose realized leg after the update exceeds the ex-ante leg sized on |
| Study.NonAnticipating | scripts/analyze_frontier_14.py:325-341 | two runs that agree before a day trade the same scale on it |
| Study.ReportsDrawdown | scripts/analyze_frontier_14.py:350-352 | the reported equity, peak and maximum drawdown are those of the book returns |
| Study.TurnoverFacts | scripts/analyze_frontier_14.py:319-341 | turnover is at least the net move of the gross; without the overlay nothing is traded or counted |
| OverlayLegs.CovStepIsVarStep | scripts/analyze_frontier_14.py:354-361 | one covariance update moves w' cov w as the variance update moves the variance |
| OverlayLegs.InitialAgrees | scripts/analyze_frontier_14.py:305-310 | both estimators start from the same positive variance, that of the calm book |
| OverlayLegs.ClipsNeverBind | scripts/analyze_frontier_14.py:327-330 | over every run the covariance stays semidefinite and the realized variance non-negative, so the clips at zero never bind |
| OverlayLegs.LegsAreRoots | scripts/analyze_frontier_14.py:327-330 | the two volatilities compared are the roots of w' cov w and of the realized variance on every day |
| OverlayLegs.DayKeepsAgreement | scripts/analyze_frontier_14.py:343-361 | with one halflife the legs stay equal over a day exactly when its scale is at or above 1e-12 or its return is zero |
| OverlayLegs.LegsAgreeExactly | scripts/analyze_frontier_14.py:269-272 | over a whole run the legs are one number at every sizing point exactly when every traded day met that condition |
| OverlayLegs.LegsAreOne | scripts/analyze_frontier_14.py:269-272 | with caps at or above 1e-12 and returns up to a billion the condition holds on every day |
| OverlayLegs.LegsDifferUnderTheFloor | scripts/analyze_frontier_14.py:360-361 | a one-day run with a gross cap under the guard on which the legs differ |
| OverlayLegs.BoundCountsSurprises | scripts/analyze_frontier_14.py:362-363 | while the legs are one number the counter still counts each day whose squared return exceeds the variance sized on |
| OverlayLegs.CountsWhileLegsAreOne | scripts/analyze_frontier_14.py:362-363 | a one-day run on which the legs are one number before and after and the counter has moved |
| LeveredLeg.SmallerWhileOutweighed | scripts/analyze_frontier_14.py:278-282 | with separate halflives and any caps, the levered leg stays at or below the ex-ante one while the realized leg is no slower and every scale traded so far has square times (1 - lam_rv) at most 1 - lam_cov |
| LeveredLeg.QuietReachesCap | scripts/analyze_frontier_14.py:325-363 | enough days without a return bring every levered run with such decays to its greatest allowed scale |
| LeveredLeg.NeverSelectedExactly | scripts/analyze_frontier_14.py:34-40 | over all runs the levered leg is never selected exactly when the realized leg is no slower and the smaller cap meets that condition |
| LeveredLeg.OutweighedAtThrice | scripts/analyze_frontier_14.py:481-489 | at halflives in the ratio 720 to 240 the condition is scale^2 (1 + lam_cov + lam_cov^2) <= 1 |
| LeveredLeg.ShippedLegFires | scripts/analyze_frontier_14.py:471-495 | at that ratio, with caps of one or more, some run selects the levered leg |
| LeveredLeg.FiresBelowScaleOne | docs/design/FRONTIER_14_ADMISSION_V5.md:135-141 | a one-day run of the study's fourteen sleeves that trades below scale one half and then selects the levered leg |
| Drawdown.RunningDrawdown | scripts/analyze_frontier_14.py:350-352 | the loop computes the running maximum of falls from the peak |
| Drawdown.MaxDrawdown | scripts/analyze_current_book_drawdown.py:69-74 | the array form computes the maximum of falls from the previous day's peak |
| Drawdown.FormsAgree | scripts/analyze_current_book_drawdown.py:69-74 | floored at zero the array form equals the loop, for every return path |
| Drawdown.LoopIsMaximum | scripts/analyze_frontier_14.py:350-352 | for returns above -100% no later wealth is further below an earlier one, and some pair attains the loop's value |
| Frontier.RhoRequiredInverts | scripts/analyze_frontier_14.py:99-114 | the required correlation and the book Sharpe are inverse to each other, and the result stays above the floor |
| Frontier.VolMultipleSquared | scripts/analyze_frontier_14.py:122-124 | the square of the volatility multiple is the floored variance (1 + (n - 1) rho) / n |
| Frontier.SharpeOverVolatility | scripts/analyze_frontier_14.py:99-124 | book Sharpe times the volatility multiple is the sleeve quality, and it is infinite exactly where the book has no volatility |
| Frontier.SleevesRequiredExactly | scripts/analyze_feasible_frontier.py:63-70 | for every correlation up to one, infinite means no count reaches the target and finite means exactly the counts at or above do, except at correlation one with target equal to quality |
| Frontier.RequiredInverts | scripts/analyze_feasible_frontier.py:63-70 | for a correlation between zero and one a finite count is the one real number of sleeves whose squared book Sharpe is the squared target |
| Frontier.SharpeSquared | scripts/analyze_feasible_frontier.py:52-55 | the squared book Sharpe of a whole count is quality^2 n / (1 + (n - 1) rho), and quality^2 n without positive correlation |
| Frontier.PerfectCorrelation | scripts/analyze_feasible_frontier.py:63-70 | the exception: the count is infinite and one sleeve reaches the target |
| Frontier.InfiniteAtCeiling | scripts/analyze_feasible_frontier.py:58-70 | between zero and one the count is infinite exactly at or above the ceiling, and no sleeve count attains the ceiling |
| Correlation.EqualWeightVariance | scripts/analyze_frontier_14.py:122-124 | the equal-weight variance of any unit-diagonal matrix is (1 + (n - 1) mean) / n |
| Correlation.AverageFloor | scripts/analyze_frontier_14.py:112-124 | a semidefinite one has mean correlation at least -1/(n-1), with equality exactly when the book has no variance; its clip never binds |
| Correlation.EquicorrelatedPsd | scripts/analyze_frontier_14.py:112-114 | an equicorrelated matrix is semidefinite exactly from the floor up to one |
| Correlation.EquicorrelatedMean | scripts/analyze_frontier_14.py:112-114 | the floor is attained |
| Shrinkage.VariancesKept | scripts/analyze_ledoit_wolf_effective_sample.py:84-98 | shrinking keeps every variance at every intensity |
| Shrinkage.ShrunkCorr | scripts/analyze_ledoit_wolf_effective_sample.py:84-98 | every correlation of two positive variances moves the share delta of the way to the mean correlation; the others only shrink |
| Shrinkage.MeanCorrKept | scripts/analyze_ledoit_wolf_effective_sample.py:149-150 | it keeps the mean correlation exactly when the intensity or that mean is zero or every variance is positive |
| Shrinkage.MeanCorrBounds | src/alphaforge/portfolio/covariance.py:152-152 | the mean correlation of a covariance matrix lies between the floor and one, zero variances included |
| Shrinkage.ShrunkIsCovariance | scripts/analyze_ledoit_wolf_effective_sample.py:149-150 | for every intensity in [0, 1] the result is symmetric and semidefinite |
| Shrinkage.DiagonalWeightsKept | scripts/analyze_ledoit_wolf_effective_sample.py:102-108 | weights read from the variances alone do not change |
| Sampling.AccessionTable | scripts/audit_active_ownership_13d_schema_v2.py:72-89 | the group-by loop builds the entry of each accession in accession order |
| Sampling.EntryFacts | scripts/audit_active_ownership_13d_schema_v2.py:74-88 | an entry has its accession's exact CIK set, strictly ascending and counted, and the fields of an earliest row |
| Sampling.TableFacts | scripts/audit_active_ownership_13d_schema_v2.py:72-89 | one entry per accession in code-point order, and every row's accession has one |
| Sampling.LockedSampleExactly | scripts/audit_active_ownership_13d_schema_v2.py:92-103 | an entry is sampled exactly when fewer than per_year entries of its year rank before it |
| Sampling.AheadExactly | scripts/audit_active_ownership_13d_schema_v2.py:94-101 | an entry ranks before another of its year exactly when its digest comes first in code-point order, or is the same and its accession does |
| Sampling.SampledByDigest | scripts/audit_active_ownership_13d_schema_v2.py:94-103 | whoever comes before a sampled entry of its year that way is sampled |
| Sampling.SampleInOrder | scripts/audit_active_ownership_13d_schema_v2.py:99-103 | the sample comes out by year, then digest, then accession |
| Sampling.LockedSampleFacts | scripts/audit_active_ownership_13d_schema_v2.py:92-103 | per year the sample holds min(per_year, entries); nothing left out outranks what is in; the order of the entries does not matter |
| Sampling.FrozenSampleIgnoresOrder | scripts/audit_active_ownership_13d_schema_v2.py:72-103 | from index rows that do not tie, the frozen sample is the same in whatever order they come |
| Shortfall.PricesExactly | scripts/analyze_implementation_shortfall.py:95-103 | when an order has prices, and that the decision is the latest earlier close |
| Shortfall.Decompose | scripts/analyze_implementation_shortfall.py:84-137 | rows and the three exclusion counts are the specified ones and add up to the orders read |
| Shortfall.ClassifyExactly | scripts/analyze_implementation_shortfall.py:84-113 | which orders are excluded and why: no quantity, no prices, or a decision that is not positive or an open or close outside 0.7 to 1.3 times it |
| Shortfall.PartsAre | scripts/analyze_implementation_shortfall.py:114-128 | each part of a usable order in dollars: delay from decision to open, execution from open to fill if filled, opportunity from decision to close, a buyer losing by a rise; and the fraction that counts as filled |
| Shortfall.PartsAddUp | scripts/analyze_implementation_shortfall.py:84-129 | over the rows of a decomposition each part adds up to its dollars |
| Shortfall.Summarize | scripts/analyze_implementation_shortfall.py:132-175 | no orders and a zero notional exactly; otherwise the three averages, each over its own weights and absent when they add up to zero, and the shortfall, the at-open benchmark less its half spread, and the fill rate, each as a share of the decision notional |
| Shortfall.AveragesAddUp | scripts/analyze_implementation_shortfall.py:145-152 | the reported averages make up the shortfall: delay and execution on the filled share, opportunity on the rest |
| Shortfall.ShortfallIsDollars | scripts/analyze_implementation_shortfall.py:84-152 | the parts add up to signed quantity times (filled fraction at the fill price, the rest at the close, less the decision price) |
| Shortfall.OpensCancel | scripts/analyze_implementation_shortfall.py:11-14 | where the session open falls moves cost between delay and execution, never the total |

## Left out

- Files, databases, parquet tables, hashes of files, command lines and report dictionaries: no algorithm in them.
- Floating-point rounding: the model is over exact reals, so it says nothing about the last bits of a result or about NaN and infinity guards in the ledger and the overlay.
- Random numbers and every statistic of simulated runs (means, quantiles): the results hold for each path.
- Binomial.MinimumPerfectTrials: excludes targets between 1 - 2^-101 and one at a valid confidence by a precondition, because over exact reals the source's loop does not end there; Binomial.SearchEndsExactly proves that this is exactly the excluded set, and it holds no double.
- Ledger.Ledger.ApplyFill: does not model strategy tags and client order ids; the saved row carries the fill, its notional and its profit.
- Legs.ZeroGrossIsFlat: speaks of replayed quantities and of zero; Replay.SavedGrossIsClose and Replay.UnreportedDropIsSmall carry it to the gross of saved quantities and the 1e-6 threshold of the script.
- Legs.ZeroGrossEndsFlat: likewise.
- Reconciliation.ProductionRunPassesAudit: covers runs of fills, funding and marks on perpetuals, since the audit replays no other cash flow; runs with borrow, splits, dividends or financing are covered by the ledger's own identity.
- Ledger.Ledger.ApplyBorrow: does not keep the borrow records that the ledger reports; cash and the total are modelled.
- Engine.TradeBar: fills are stamped at the bar's open, as the fill models stamp them (src/alphaforge/backtest/fills.py:185 and 380); what the strategy decides and how orders are sized and priced are its inputs.
- The other accounting audits of crypto runs: copies of the two modelled here with other constants and paths.
- The Markov chain of regimes and the Cholesky factor in the drawdown study: they only shape the sleeve returns, which are arbitrary here. That the factor exists is the precondition on the calm correlation.
- The young-instrument fallback of `ewma_cov` and the intensity formula of `ledoit_wolf_cc`: the intensity is an arbitrary number in [0, 1].
- The mean weight age and the per-day conversions in `profile`: rescalings of quantities modelled here.
- `json.loads` on the extracted text, and regular-expression and index-file parsing: library calls.
- Shortfall.Summarize: does not model the percentiles, the fill rate by count and the excess over the at-open benchmark: each is one expression over the rows or over two results modelled here.

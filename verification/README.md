# Duel Protocol: verified model

Duel Protocol is an on-chain program for two kinds of competition. In a *market* (Mode 1) two tokens trade on
their own bonding curves, sampled prices decide a winner at the deadline, and both reserves seed a DEX pool for
the winning token. In a *compare duel* (Mode 2) people deposit on two existing tokens and the side whose oracle
price performed better shares the pool. This project models the program, the graduation arithmetic, and the two
off-chain programs that repeat its decisions (the cranker and the curve simulator), and proves what they promise.

## Layout

| file | content |
|---|---|
| Common, Arithmetic | machine integers, checked arithmetic, errors; powers, floors, truncating division |
| BondingCurve, CurveProperties, CurveSim | the curve, its binary search, its properties; the bigint simulator |
| SeedLiquidity | integer square root, Q64.64 price, initial liquidity |
| Oracle, Performance | price scaling; the signed comparison that picks a compare duel's winner |
| Ledger, Config, Twap | token accounts and sums over maps; settings and fees; the sampling schedule |
| MarketSpec, MarketInvariant, MarketRuns, MarketTrades, MarketOutcomes, MarketEffects | Mode 1 as a state machine, its invariant, and the theorems about runs, effects and errors |
| MarketProgram | Mode 1's handlers on mutable accounts, proved equal to MarketSpec |
| Doubles, Cranker, CrankerProgress | JavaScript's numbers; the off-chain cranker against the chain; its progress |
| CompareSpec, CompareInvariant, CompareRuns, CompareEffects | Mode 2 as a state machine, its invariant, and the theorems about runs and errors |
| CompareProgram | Mode 2's handlers on mutable accounts, proved equal to CompareSpec |

## How the program is modelled

- An instruction is a function from a state to the next state or an error; an error leaves the state alone. The
  handlers are methods of classes with the program's fields; they check, transfer and write in the program's
  order, undo what they did when a later step fails, and are proved to compute exactly those functions.
- A run is any sequence of events, each some time after the one before, so the clock never goes back. Runs
  interleave everybody's instructions, configuration changes and transfers outside the program, gifts to the
  vaults included. Destination and fee accounts are arbitrary: they may be the trader, each other or a vault.
- u64, u128, i64 and i128 limits appear as explicit checks and casts on unbounded integers. The program's
  release profile turns on overflow checks (`Cargo.toml:12`), so a plain addition that overflows is an error too.
- Amounts, the clock, decoded oracle prices, account identities and the settings in force are inputs. The quote
  mint's ledger is a map of balances whose total fits u64; that total is an assumption about the initial state only.

## Where the code and its documentation differ

- The repository's README and thesis describe a configurable share of the losing reserve. The code transfers all
  of it (`resolve_and_graduate.rs:238-259`), and so does the model.
- The test of sequential buys (`tests/capital-efficiency.ts:183-203`) expects each equal buy to yield no more
  tokens than the one before. The floors break that by one token, at a supply of 1442 for two lamports
  (`CurveProperties.NearConvexityIsTight`). `MarketTrades.SequentialPurchases` says exactly when; from purchases of
  794 tokens on the expectation is met.
- The test of sequential sales (`tests/capital-efficiency.ts:355-374`) expects each equal sale to bring the seller
  less than the one before. It may bring as much (`MarketTrades.SequentialReceiptsCanTie`), and before fees even a
  lamport more (`CurveProperties.SequentialSalesCanRise`). `MarketTrades.SequentialReceipts` says exactly when it
  brings less, and from which sales on it always does.
- The test of path independence (`tests/capital-efficiency.ts:377-400`) names one large buy equal to ten small ones
  and tolerates 0.1%. Net of fees one buy gains at most one token for each further part, and `CurveProperties.SplitBuys`
  says exactly when it gains none; with the fees' rounding it can also lose one for each
  (`MarketTrades.SplittingGainsForEach`), and `MarketTrades.SplitPurchases` says exactly when neither happens.
- The cranker reads a market's times into JavaScript numbers (`backend/src/cranker.ts:193-196`), which throws from 2^53
  on, outside every handler of its loop. Anyone can create a market with such a deadline (`Cranker.UnreadableMarket`).
  Every pass then ends there and serves no market behind it (`Cranker.ServedExactly`, `Cranker.KeepsThrowing`).
- A draw is meant to let every holder out. On a side that was sold out anyone can close the empty token vault,
  which every exit needs: `MarketOutcomes.AlwaysOpenExactly`.
- The constant for stale oracle prices (`constants.rs:34`) is used by no handler; the model checks no age either.
- The simulator answers 0 on an oversold supply where the program fails on any positive amount, has no special case
  for a zero amount, and knows no overflow: `CurveSim.SimulatorAgrees` says exactly when the two agree.

## Model

| member | source | states |
|---|---|---|
| BondingCurve.PowU128 | programs/duel/src/math/bonding_curve.rs:8-14 | the checked power loop fails exactly when the power does not fit u128 |
| BondingCurve.ReserveFitsExactly | programs/duel/src/math/bonding_curve.rs:40-61 | exactly where the checked reserve exists: below exponent 255, where its power, its product and the reserve itself fit 128 bits; elsewhere it overflows |
| BondingCurve.PriceExactly | programs/duel/src/math/bonding_curve.rs:19-36 | exactly where the checked price exists, and that it is the exact one |
| BondingCurve.ReserveFitsDownward | programs/duel/src/math/bonding_curve.rs:40-61 | if the checked reserve exists at a supply it exists at every smaller one |
| BondingCurve.ReserveIntegralExact | programs/duel/src/math/bonding_curve.rs:40-61 | where the checked reserve does not overflow it is the exact floored integral |
| BondingCurve.BestBuy | programs/duel/src/math/bonding_curve.rs:63-65 | the reference for a buy: affordable, in stock, and every larger number costs more |
| BondingCurve.BestBuyUnique | programs/duel/src/math/bonding_curve.rs:63-65 | only one number of tokens is affordable and not improvable by one |
| BondingCurve.TokensOutSearch | programs/duel/src/math/bonding_curve.rs:66-110 | for every curve the binary search terminates with the best buy, or overflows exactly on an oversold supply or where the reserve does not fit at the largest supply the search looks at |
| BondingCurve.TokensOutFits | programs/duel/src/math/bonding_curve.rs:66-110 | a curve whose reserve fits at the total supply always has an answer |
| CurveProperties.MarginalCost | programs/duel/src/math/bonding_curve.rs:19-61 | for every curve, price(k) <= R(k+1) - R(k) <= price(k+1) + 1 |
| CurveProperties.CostIsPriceIntegral | programs/duel/src/math/bonding_curve.rs:38-61 | any purchase costs between the left price sum and the right price sum plus one unit a token |
| CurveProperties.PriceMono | programs/duel/src/math/bonding_curve.rs:19-36 | the price never falls as supply grows |
| CurveProperties.NearConvexity | programs/duel/src/math/bonding_curve.rs:40-61 | the same number of tokens is cheaper later by at most one unit |
| CurveProperties.NearConvexityIsTight | programs/duel/src/math/bonding_curve.rs:40-110 | around a supply of 1442 that unit is lost, and of two sequential buys of 2 lamports the second gets one token more |
| CurveProperties.LaterBuyerGainsExactly | tests/capital-efficiency.ts:183-203 | for every curve, a later buyer gets more tokens for the same money exactly when the earlier one is a single unit short of one more token and the later one pays it to the unit |
| CurveProperties.LaterBuyerGainsAtMostOne | programs/duel/src/math/bonding_curve.rs:66-110 | with a positive base price, the same money later buys at most one token more |
| CurveProperties.ConvexWhenApart | programs/duel/src/math/bonding_curve.rs:40-61 | on the program's curve, how far apart two purchases have to be for the later one not to be cheaper, or to cost more |
| CurveProperties.LaterBuyersInOrder | tests/capital-efficiency.ts:183-203 | a guard on supply and tokens bought under which no later buyer gets more |
| CurveProperties.SequentialBuys | tests/capital-efficiency.ts:183-203 | from purchases of 794 tokens on, the next equal buy never yields more |
| CurveProperties.BasePriceNeeded | programs/duel/src/math/bonding_curve.rs:66-110 | without a base price the bound fails: one lamport gains 262 tokens one token later |
| CurveProperties.PathIndependence | programs/duel/src/math/bonding_curve.rs:66-110 | two spends buy as many tokens as their sum or one fewer, for every curve; as many exactly if one is empty, the stock runs out or their change does not pay for the next token |
| CurveProperties.SplitBuys | tests/capital-efficiency.ts:377-400 | net of fees, spending at once gains at most one token for each further part of any split, and exactly when nothing |
| CurveProperties.SplitBuysIsTight | programs/duel/src/math/bonding_curve.rs:66-110 | two and three parts attain that bound on the program's curve |
| CurveProperties.FewerLamports | programs/duel/src/math/bonding_curve.rs:66-110 | with a positive base price a lamport less buys at most a token less |
| CurveProperties.SalesSplit | programs/duel/src/math/bonding_curve.rs:114-132 | a sale pays the same however it is split |
| CurveProperties.SequentialSales | tests/capital-efficiency.ts:355-374 | before fees, of two equal sales the second pays at most a unit more, and less exactly if 6 * t^2 * (c - t) outweighs the remainders of three cubes; always from t^2 * (c - t) = 10^9 on |
| CurveProperties.SaleGap | tests/capital-efficiency.ts:355-374 | by how much, exactly, the first of two equal sales pays more |
| CurveProperties.SequentialSalesCanRise | tests/capital-efficiency.ts:355-374 | at a supply of 1444 the second of two one-token sales pays twice the first |
| CurveProperties.RoundTrip | programs/duel/src/math/bonding_curve.rs:66-132 | buying and selling back returns at most the spend, and short of a sell-out loses at most the next price |
| CurveProperties.DefaultCurve | programs/duel/src/constants.rs:2-9 | on the program's curve no reserve or price overflows up to the full supply, with bounds |
| CurveProperties.DefaultCurveIs | programs/duel/src/constants.rs:2-9 | the program's curve in numbers: the price is supply^2/10^9 + 1 and the reserve its floored integral |
| CurveProperties.DefaultSolOut | programs/duel/src/math/bonding_curve.rs:114-132 | on the program's curve a sale of circulating tokens always has the reserve difference as its answer |
| CurveSim.PowBig | scripts/curve-sim.ts:22-26 | the bigint power loop |
| CurveSim.SimulatorTokensOut | scripts/curve-sim.ts:41-69 | the simulator's loop finds the best buy, and 0 on an oversold supply |
| CurveSim.SimulatorAgrees | scripts/curve-sim.ts:41-69 | for every curve, amount and supply, exactly when simulator and program agree, overflow and oversold supplies included |
| CurveSim.SimulatorAgreesWhereTheCurveFits | scripts/curve-sim.ts:41-69 | they agree on every positive amount if the reserve fits at the total supply |
| CurveSim.SimulatorMissesOverflow | scripts/curve-sim.ts:41-69 | a quartic curve on which the program fails and the simulator sells a token |
| CurveSim.SimulatorAgreesOnDefaultCurve | scripts/curve-sim.ts:41-69 | on the program's own curve they always agree |
| SeedLiquidity.NewtonStaysAbove | programs/duel/src/instructions/resolve_and_graduate.rs:521-532 | a Newton step from any positive value lands on or above the root |
| SeedLiquidity.IsqrtU128 | programs/duel/src/instructions/resolve_and_graduate.rs:521-532 | returns the floor square root of every u128 but the largest, on which it overflows; the iterates strictly decrease |
| SeedLiquidity.Root | programs/duel/src/instructions/resolve_and_graduate.rs:520-532 | the reference floor square root |
| SeedLiquidity.ComputeSqrtPriceQ64 | programs/duel/src/instructions/resolve_and_graduate.rs:505-518 | the price computation never meets the root's one overflow, for all u64 seeds |
| SeedLiquidity.SqrtPriceBracket | programs/duel/src/instructions/resolve_and_graduate.rs:505-518 | P^2*tok <= sol*2^128 < (P+2^32)^2*tok for all positive u64 seeds |
| SeedLiquidity.SqrtPriceInPoolRange | programs/duel/src/cpi/meteora_damm.rs:85-86 | a graduation price is never below the pool's minimum, and above its maximum only for a single token and almost 2^64 lamports |
| SeedLiquidity.SqrtPriceAboveMaximumExactly | programs/duel/src/cpi/meteora_damm.rs:86 | for which u64 seeds, exactly, the price exceeds the pool's maximum |
| SeedLiquidity.NoSaturation | programs/duel/src/instructions/resolve_and_graduate.rs:536-545 | neither saturating fallback is reached, for all positive u64 seeds |
| SeedLiquidity.LiquidityAtPrice | programs/duel/src/instructions/resolve_and_graduate.rs:534-547 | the liquidity is what the tokens are worth at the price, rounded down but at least 1, for all positive u64 seeds |
| SeedLiquidity.TokenSideIsMinimum | programs/duel/src/instructions/resolve_and_graduate.rs:536-547 | the token-side term is always the minimum |
| SeedLiquidity.LiquidityIsGeometricMean | programs/duel/src/instructions/resolve_and_graduate.rs:534-547 | L^2 <= sol*tok < (L+1+ceil(tok/2^32))^2 for all positive u64 seeds |
| SeedLiquidity.SeedLiquidityWithinTwo | programs/duel/src/instructions/resolve_and_graduate.rs:534-547 | L^2 <= sol*tok < (L+2)^2 up to the program's supply |
| Oracle.ScalePriceExact | programs/duel/src/math/oracle.rs:60-89 | down to exponent -28, scaling returns floor(price*10^(9+expo)) exactly when it fits u64 |
| Oracle.ScalePriceTooSmall | programs/duel/src/math/oracle.rs:75-87 | below that the divisor overflows and scaling fails although the true value is 0 |
| Oracle.ScaledExists | programs/duel/src/math/oracle.rs:57-59 | exactly one scaled value exists for every input |
| Oracle.ScalePriceMono | programs/duel/src/math/oracle.rs:60-89 | a higher price never scales lower, and a lower one never newly fails |
| Oracle.ScaleInvariance | programs/duel/src/math/oracle.rs:60-89 | (p, e) and (10p, e-1) scale alike whenever both succeed |
| Oracle.AcceptedPrice | programs/duel/src/math/oracle.rs:43-96 | an accepted price is positive, within its confidence bound and u64, and scales to a positive value from exponent -9 up |
| Oracle.OraclePriceExactly | programs/duel/src/math/oracle.rs:43-96 | a feed is accepted exactly if its price is positive, its band at most a tenth of the price, its exponent at least -28 and its scaled price fits 64 bits, and the answer is that scaled price |
| Oracle.OracleErrors | programs/duel/src/math/oracle.rs:43-96 | with which error a feed is refused |
| Performance.CompareNeverOverflows | programs/duel/src/instructions/resolve_compare.rs:91-119 | the i128 comparison never overflows on u64 prices |
| Performance.WinnerHasLargerRatio | programs/duel/src/instructions/resolve_compare.rs:96-119 | a declared winner has the strictly larger twap/start by cross-multiplication |
| Performance.DrawMeansNearlyEqual | programs/duel/src/instructions/resolve_compare.rs:112-119 | a draw bounds the exact difference by 2 parts in 10^9, or 1 if either price moved by a part |
| Performance.ClearLeadWins | programs/duel/src/instructions/resolve_compare.rs:112-119 | a lead of 2 parts in 10^9 always wins |
| Performance.DrawBoundIsTight | programs/duel/src/instructions/resolve_compare.rs:96-119 | a gap of almost 2 parts can be a draw around an unmoved price |
| Performance.SwapSides | programs/duel/src/instructions/resolve_compare.rs:96-119 | swapping the sides swaps the verdict |
| Performance.WinnerExactly | programs/duel/src/instructions/resolve_compare.rs:96-119 | exactly who wins: the side whose change in parts of 10^9 of its start, rounded toward zero, is larger |
| Ledger.TransferMoves | programs/duel/src/instructions/buy_tokens.rs:157-222 | a token transfer moves exactly its amount, keeps the total, and is a no-op to itself |
| Ledger.TransferSucceeds | programs/duel/src/instructions/buy_tokens.rs:157-222 | a transfer between existing accounts fails only for lack of funds |
| Ledger.Mint.TransferChecked | programs/duel/src/instructions/buy_tokens.rs:157-222 | the in-place transfer is that function, and changes nothing when it fails |
| Config.ProgramConfig.Initialize | programs/duel/src/instructions/initialize_config.rs:28-63 | creates the given settings within the fee bounds or fails |
| Config.InitialExactly | programs/duel/src/instructions/initialize_config.rs:28-63 | exactly which settings are accepted, and what each stored setting is |
| Config.ProgramConfig.ApplyUpdate | programs/duel/src/instructions/update_config.rs:29-79 | overwrites exactly the given settings, or none if a bound fails or the signer is not the admin |
| Config.UpdateExactly | programs/duel/src/instructions/update_config.rs:10-79 | exactly when an update is accepted, with which error it is refused, and that it sets what it carries and keeps the rest |
| Config.BoundsKept | programs/duel/src/instructions/update_config.rs:43-60 | fee bounds survive any sequence of updates by anyone |
| Config.OnlyAdminUpdates | programs/duel/src/instructions/update_config.rs:10-13 | others' updates change nothing |
| Config.FeesSplitExactly | programs/duel/src/instructions/buy_tokens.rs:108-128 | net, protocol and creator parts add up to the gross amount; the fee is its rate of the amount and the creator's part its rate of the fee, rounded down, without truncation, under every reachable configuration |
| Twap.GuardExact | programs/duel/src/instructions/record_twap_sample.rs:39-48 | the guards accept exactly inside the window and an interval after the last sample |
| Twap.GuardErrors | programs/duel/src/instructions/record_twap_sample.rs:39-48 | which guard refuses a sample, and exactly when one does |
| Twap.SampleCountBound | programs/duel/src/instructions/record_twap_sample.rs:39-73 | at most window/interval + 1 samples |
| Twap.QuorumAttainable | programs/duel/src/instructions/resolve_and_graduate.rs:183-185 | the quorum never exceeds that number, and is the exact one precisely below 2^33 intervals |
| Twap.QuorumWraps | programs/duel/src/instructions/resolve_and_graduate.rs:184 | at 2^33 intervals the u32 cast wraps the quorum to 0 |
| Twap.FinalTwapBetween | programs/duel/src/instructions/resolve_and_graduate.rs:187-197 | the final average lies between the extreme samples and its cast is lossless |
| MarketInvariant.NewMarketInv | programs/duel/src/instructions/initialize_market.rs:171-306 | a created market satisfies the invariant, before its window, with nothing circulating |
| MarketInvariant.MarketCreatedExactly | programs/duel/src/instructions/initialize_market.rs:110-217 | exactly which parameters create a market, the creation fee and the creator's account included |
| MarketInvariant.CreatedMarket | programs/duel/src/instructions/initialize_market.rs:222-306 | every field of a created market: the caller's parameters and fee account, the settings in force, 24 hours, both full supplies |
| MarketInvariant.CreationRefused | programs/duel/src/instructions/initialize_market.rs:118-217 | with which error a creation is refused |
| MarketInvariant.BuyKeeps | programs/duel/src/instructions/buy_tokens.rs:90-249 | a purchase keeps the invariant, conserves every mint and never lowers a surplus |
| MarketInvariant.SellKeeps | programs/duel/src/instructions/sell_tokens.rs:90-255 | so does a sale |
| MarketInvariant.SellPostResolutionKeeps | programs/duel/src/instructions/sell_post_resolution.rs:77-177 | so does a sale after a draw |
| MarketInvariant.StepKeeps | programs/duel/src/instructions/record_twap_sample.rs:31-89 | so does every instruction, and every transfer outside the program |
| MarketRuns.RunKeeps | programs/duel/src/instructions/buy_tokens.rs:130-229 | over any run: solvency, conservation, non-decreasing surpluses, forward status, final resolution |
| MarketRuns.MarketsStaySolvent | programs/duel/src/instructions/sell_tokens.rs:143-146 | from creation on, until graduation each quote vault covers R(circulating) |
| MarketRuns.SellSucceedsExactly | programs/duel/src/instructions/sell_tokens.rs:96-238 | a sale succeeds exactly when the market is open, the accounts exist, the seller has the tokens and the price is met |
| MarketRuns.SellErrors | programs/duel/src/instructions/sell_tokens.rs:143-146 | InsufficientReserve and MathOverflow never stop a sale |
| MarketRuns.BuySucceedsExactly | programs/duel/src/instructions/buy_tokens.rs:96-232 | a purchase succeeds exactly when the market is open, the accounts exist, and the buyer's money, as much of it as is needed by an owner of a fee account, buys the tokens asked for |
| MarketRuns.BuyEffect | programs/duel/src/instructions/buy_tokens.rs:108-229 | the whole state after a purchase: where every lamport and token goes, and that nothing else moves, whichever accounts coincide |
| MarketRuns.SellEffect | programs/duel/src/instructions/sell_tokens.rs:110-235 | the same for a sale |
| MarketRuns.RoundTripNeverProfits | programs/duel/src/instructions/sell_tokens.rs:110-235 | a purchase sold straight back never profits the trader, under any fee settings and fee account owners |
| MarketRuns.RoundTripLosesLittle | tests/capital-efficiency.ts:129-149 | it loses at most a tenth of the amount and the next token's price, unless it emptied the stock |
| MarketTrades.SplitPurchases | tests/capital-efficiency.ts:377-400 | fees and their rounding included, any number of purchases in turn buy what one of the same gross amount buys, up to one token for each further purchase either way, and exactly when they buy as many |
| MarketTrades.SplittingCanGain | tests/capital-efficiency.ts:377-400 | two purchases of 50 lamports at one percent buy a token more than one of 100 |
| MarketTrades.SplittingGainsForEach | tests/capital-efficiency.ts:377-400 | for any number of purchases up to 72 the gain of one token for each further one is attained |
| MarketTrades.SequentialPurchases | tests/capital-efficiency.ts:183-203 | of two equal purchases the second buys at most one token more, exactly when it does, and never after one of 794 tokens |
| MarketTrades.SequentialReceipts | tests/capital-efficiency.ts:355-374 | of two equal sales the second brings the seller less exactly if the price fell by two units or by one the seller would have received; always from 2 * t^2 * (c - t) = 3 * 10^9 on |
| MarketTrades.SequentialReceiptsCanTie | tests/capital-efficiency.ts:355-374 | at one percent two sales of 491 tokens from a supply of 4654 bring 495 lamports each although the price falls |
| MarketTrades.CreatorReceiptsCanTie | tests/capital-efficiency.ts:355-374 | so do two sales of 381 from 7271 for a seller who is the creator, at the test's own fees |
| MarketOutcomes.CirculatingIsHeld | programs/duel/src/instructions/buy_tokens.rs:206-229 | circulating supply is the holders' sum plus gifts to the vault |
| MarketOutcomes.RunWithoutGifts | programs/duel/src/instructions/buy_tokens.rs:206-229 | without gifts, circulating plus token vault is the total supply and circulating is the holders' sum, over any run |
| MarketOutcomes.DrawEnabledExactly | programs/duel/src/instructions/emergency_resolve.rs:46-64 | a draw is possible exactly from 86,400 seconds after the deadline, if the i64 clock reaches that, with its whole effect and its errors |
| MarketOutcomes.SellAfterDrawSucceedsExactly | programs/duel/src/instructions/sell_post_resolution.rs:83-160 | exactly when the fee-free exit succeeds; the reserve never stops it |
| MarketOutcomes.SellAfterDrawEffect | programs/duel/src/instructions/sell_post_resolution.rs:91-157 | the vault pays the curve's price in full, to whatever account is named, and takes the tokens back |
| MarketOutcomes.DrawPaysExactly | programs/duel/src/instructions/sell_post_resolution.rs:91-157 | over any run from a draw the quote vault pays out exactly what the liability loses, and otherwise only receives |
| MarketOutcomes.EmptyingPaysTheLiability | programs/duel/src/instructions/sell_post_resolution.rs:91-157 | when a side is empty its vault has paid exactly R(circulating), and without gifts holds exactly that much less |
| MarketOutcomes.ExitStaysOpen | programs/duel/src/instructions/sell_post_resolution.rs:83-160 | unless a side was sold out at the draw, after any run every holder can still leave |
| MarketOutcomes.AlwaysOpenExactly | programs/duel/src/instructions/close_quote_vault.rs:49-94 | holders of a drawn side can leave after every run exactly if the side was not sold out |
| MarketOutcomes.SoldOutLocked | programs/duel/src/instructions/close_quote_vault.rs:49-94 | one close_quote_vault on a sold-out drawn side makes every exit fail while its tokens circulate |
| MarketOutcomes.LockedForGood | programs/duel/src/instructions/sell_post_resolution.rs:83-160 | without its token vault a side stays closed over any run |
| MarketOutcomes.AnyOrderLeaves | programs/duel/src/instructions/sell_post_resolution.rs:83-160 | any holders can leave in any order, each is left with nothing, and the vault pays exactly what the liability loses |
| MarketOutcomes.EverybodyLeaves | programs/duel/src/instructions/emergency_resolve.rs:46-75 | from any unresolved state after the window a draw succeeds and all holders leave in any order, after which only gifts circulate |
| MarketOutcomes.VaultStaysOpen | programs/duel/src/instructions/close_quote_vault.rs:65-77 | while tokens circulate the quote vault is neither empty nor closed |
| MarketOutcomes.SampleAcceptedExactly | programs/duel/src/instructions/record_twap_sample.rs:34-78 | exactly when a sample is accepted |
| MarketOutcomes.TwapAccounting | programs/duel/src/instructions/record_twap_sample.rs:58-73 | accumulators are the sums of recorded prices, the count is bounded, the average lies between the extremes |
| MarketOutcomes.CrankAccepted | programs/duel/src/instructions/record_twap_sample.rs:39-73 | sampling every interval from the window's opening is always accepted |
| MarketOutcomes.QuorumReachable | programs/duel/src/instructions/resolve_and_graduate.rs:183-185 | and reaches the quorum, for every window |
| MarketOutcomes.DominantSideWins | programs/duel/src/instructions/resolve_and_graduate.rs:189-209 | the side with at least the other's supply at every sample loses only an exact tie, on reserves |
| MarketOutcomes.AheadThroughoutWins | programs/duel/src/instructions/record_twap_sample.rs:55-66 | the same stated over the supplies of a run |
| MarketOutcomes.DecidedAfterDeadline | programs/duel/src/instructions/record_twap_sample.rs:39-42 | after the deadline nothing short of resolution touches what decides the winner |
| MarketOutcomes.VerdictFrozen | programs/duel/src/instructions/resolve_and_graduate.rs:180-209 | over any run after the deadline the verdict stands; only an exact tie can move, and only by a gift to a vault |
| MarketOutcomes.GraduateSucceedsExactly | programs/duel/src/instructions/resolve_and_graduate.rs:180-338 | graduation succeeds exactly past the deadline with a quorum, the right winner, 0.1 SOL and unsold tokens |
| MarketOutcomes.GraduationMovesEverything | programs/duel/src/instructions/resolve_and_graduate.rs:224-338 | exactly the contents of both quote vaults and the winner's stock go to the seed accounts, whatever accounts those are; the verdict is recorded and nothing else changes |
| MarketOutcomes.GraduationSeedsValidPool | programs/duel/src/instructions/resolve_and_graduate.rs:340-349 | every graduated pool is seeded with exactly what the vaults held, at the square root of their ratio in Q64.64, with the liquidity of that price; the price is in range exactly unless almost 2^64 lamports are seeded with the last token |
| MarketEffects.CreatorIsPaid | programs/duel/src/instructions/initialize_market.rs:233 | over any run from creation, a trade pays the creator's fee to the account named at creation |
| MarketEffects.SampleEffect | programs/duel/src/instructions/record_twap_sample.rs:55-78 | a sample adds supply^2/10^9 + 1 to each side's accumulator, records the moment, and changes nothing else |
| MarketEffects.SamplesSpaced | programs/duel/src/instructions/record_twap_sample.rs:39-73 | over any run from creation, samples lie in the window and an interval or more apart |
| MarketEffects.VerdictExactly | programs/duel/src/instructions/resolve_and_graduate.rs:187-209 | the verdict compares the exact averages of the recorded prices; an exact tie goes to the larger reserve, side A first |
| MarketEffects.CloseExactly | programs/duel/src/instructions/close_quote_vault.rs:14-94 | exactly when vaults can be closed, whoever won, and that each is closed exactly if empty |
| MarketEffects.ConfigUpdateEffect | programs/duel/src/instructions/update_config.rs:29-79 | an update replaces the settings of a running market and nothing else |
| MarketEffects.SettingsOfRun | programs/duel/src/instructions/update_config.rs:29-79 | the settings in force after any run are those its updates make |
| MarketEffects.BuyRefused | programs/duel/src/instructions/buy_tokens.rs:90-232 | with which error a purchase is refused |
| MarketEffects.SellRefused | programs/duel/src/instructions/sell_tokens.rs:90-238 | with which error a sale is refused |
| MarketEffects.ExitRefused | programs/duel/src/instructions/sell_post_resolution.rs:77-160 | with which error an exit is refused |
| MarketEffects.WrongSide | programs/duel/src/instructions/buy_tokens.rs:23-26 | the bytes 0 and 1 name the sides and every other is refused |
| MarketEffects.SampleRefused | programs/duel/src/instructions/record_twap_sample.rs:31-78 | with which error a sample is refused |
| MarketEffects.GraduateRefused | programs/duel/src/instructions/resolve_and_graduate.rs:166-338 | with which error a graduation is refused |
| MarketProgram.MarketAccount.Initialize | programs/duel/src/instructions/initialize_market.rs:171-306 | creates exactly the specified market or fails |
| MarketProgram.MarketAccount.BuyTokens | programs/duel/src/instructions/buy_tokens.rs:90-249 | the handler computes exactly the specified purchase and reverts on failure |
| MarketProgram.MarketAccount.Purchase | programs/duel/src/instructions/buy_tokens.rs:108-232 | the part under the lock: fees, curve, transfers, supply |
| MarketProgram.MarketAccount.SellTokens | programs/duel/src/instructions/sell_tokens.rs:90-255 | the handler computes exactly the specified sale and reverts on failure |
| MarketProgram.MarketAccount.Sale | programs/duel/src/instructions/sell_tokens.rs:110-238 | the part under the lock |
| MarketProgram.MarketAccount.SellAfterDraw | programs/duel/src/instructions/sell_post_resolution.rs:77-177 | the handler computes exactly the specified exit and reverts on failure |
| MarketProgram.MarketAccount.Exit | programs/duel/src/instructions/sell_post_resolution.rs:89-160 | the part under the lock |
| MarketProgram.MarketAccount.TakeSample | programs/duel/src/instructions/record_twap_sample.rs:31-89 | the handler records exactly the specified sample |
| MarketProgram.MarketAccount.DecideWinner | programs/duel/src/instructions/resolve_and_graduate.rs:180-212 | the winner and averages the specification names |
| MarketProgram.MarketAccount.SeedPool | programs/duel/src/instructions/resolve_and_graduate.rs:224-349 | the transfers of graduation, all or none |
| MarketProgram.MarketAccount.ResolveAndGraduate | programs/duel/src/instructions/resolve_and_graduate.rs:166-501 | the handler computes exactly the specified graduation and reverts on failure |
| MarketProgram.MarketAccount.EmergencyResolve | programs/duel/src/instructions/emergency_resolve.rs:46-75 | the handler computes exactly the specified draw |
| MarketProgram.MarketAccount.CloseQuoteVault | programs/duel/src/instructions/close_quote_vault.rs:49-94 | closes exactly the empty vaults of a resolved market |
| Doubles.QuotientRounded | backend/src/cranker.ts:234 | below 2^53 the modelled quotient has a 53-bit mantissa and is correctly rounded |
| Doubles.RoundedBetween | backend/src/cranker.ts:234 | rounding never carries a quotient over an integer |
| Cranker.QuorumAgrees | backend/src/cranker.ts:234 | halving a double quotient and rounding down gives the integer quorum, for every window the cranker can read |
| Cranker.ChainQuorumAgrees | backend/src/cranker.ts:234-241 | on a market it can read the cranker's quorum is the chain's exactly below 2^33 intervals |
| Cranker.ReadableExactly | backend/src/cranker.ts:193-196 | a reachable market can be read exactly if its deadline is below 2^53 |
| Cranker.ThrowsExactly | backend/src/cranker.ts:193-196 | the loop's body throws exactly on an unresolved market that cannot be read |
| Cranker.UnreadableMarket | backend/src/cranker.ts:193-224 | anyone can create such a market; the chain accepts its sample while the cranker throws |
| Cranker.WinnerAgrees | backend/src/cranker.ts:120-142 | the expected winner is the chain's |
| Cranker.SamplesExactlyWhenAccepted | backend/src/cranker.ts:193-224 | the cranker samples exactly when the chain accepts and the deadline is below 2^53, up to the last sample the chain can count |
| Cranker.ResolutionAccepted | backend/src/cranker.ts:232-261 | a resolution it submits fails only on short reserves, a sold-out winner or missing accounts |
| Cranker.WaitsOnlyWhenRefused | backend/src/cranker.ts:193-241 | when it waits the chain refuses a sample, and exactly when it would still accept a graduation: only if its own quorum has wrapped |
| Cranker.Loop.ServeMarket | backend/src/cranker.ts:209-376 | one market costs at most one transaction and moves one counter |
| Cranker.Loop.Pass | backend/src/cranker.ts:167-382 | a pass serves the markets in order up to the first that cannot be read, leaves the rest, counts what it did, and does nothing while another is running |
| Cranker.Loop.Tick | backend/src/cranker.ts:464-471 | an exception of a pass is counted as one error and the next pass can run |
| Cranker.ServedExactly | backend/src/cranker.ts:188-382 | a market is served exactly if every unresolved one up to it can be read, so all are exactly if none has a deadline of 2^53 or later |
| Cranker.KeepsThrowing | backend/src/cranker.ts:193-196 | nothing resolves an unreadable market before its deadline, so every later pass stops at it again |
| Cranker.RefusedOnlyGraduations | backend/src/cranker.ts:224-226 | on fresh reads only a sample beyond the last countable one is refused, or a graduation short of reserves, stock or accounts |
| CrankerProgress.PollingMeetsQuorum | backend/src/cranker.ts:198-241 | polling at least once an interval and a window, against anybody's instructions in between, the cranker meets the quorum by its first poll after the deadline and resolves |
| CompareInvariant.NewDuelInv | programs/duel/src/instructions/create_compare_duel.rs:94-194 | a created duel satisfies the invariant, before its window |
| CompareInvariant.DuelCreatedExactly | programs/duel/src/instructions/create_compare_duel.rs:58-152 | exactly which parameters create a duel, the creation fee included, and its minimum deposit |
| CompareInvariant.CreatedDuel | programs/duel/src/instructions/create_compare_duel.rs:153-183 | every field of a created duel: the caller's parameters and fee accounts, the settings in force, 24 hours, nothing deposited |
| CompareInvariant.CreationRefused | programs/duel/src/instructions/create_compare_duel.rs:58-151 | with which error a creation is refused |
| CompareInvariant.SharesSum | programs/duel/src/instructions/withdraw.rs:70-75 | floored shares add up to at most the pool and fall short by less than a unit each |
| CompareInvariant.ShareTotal | programs/duel/src/instructions/withdraw.rs:50-75 | all winners' payouts are at most net_pool and leave less than one lamport a winner |
| CompareInvariant.PayoutExact | programs/duel/src/instructions/withdraw.rs:47-93 | the checked, cast payout is exact and needs the paying vault |
| CompareInvariant.DepositKeeps | programs/duel/src/instructions/deposit.rs:54-130 | a deposit keeps the invariant |
| CompareInvariant.ResolveCompareKeeps | programs/duel/src/instructions/resolve_compare.rs:62-260 | a resolution keeps every claim covered |
| CompareInvariant.WithdrawKeeps | programs/duel/src/instructions/withdraw.rs:43-137 | a withdrawal keeps every other claim covered |
| CompareInvariant.StepKeeps | programs/duel/src/instructions/withdraw.rs:43-137 | every instruction keeps the invariant and the phase order |
| CompareRuns.RunKeeps | programs/duel/src/instructions/withdraw.rs:47-127 | over any run: claims covered, money conserved, deposits and resolutions final, phases forward |
| CompareRuns.DuelsStaySolvent | programs/duel/src/instructions/create_compare_duel.rs:94-194 | from creation on each vault covers what its side can still claim |
| CompareRuns.DepositSucceedsExactly | programs/duel/src/instructions/deposit.rs:54-111 | exactly when a deposit is taken |
| CompareRuns.DepositEffect | programs/duel/src/instructions/deposit.rs:83-120 | the money moves, the total grows, the record is written, nothing else changes |
| CompareRuns.SampleAcceptedExactly | programs/duel/src/instructions/record_compare_twap.rs:36-96 | exactly when a sample is taken; the new state in full: the moment, each feed's own scaled price, and the starting prices |
| CompareRuns.DepositsPrecedeSamples | programs/duel/src/instructions/deposit.rs:65-70 | deposits end where samples begin |
| CompareRuns.StakesFrozen | programs/duel/src/instructions/record_compare_twap.rs:93-96 | from the first sample on no run changes who deposited what |
| CompareRuns.PayoutsFixed | programs/duel/src/instructions/resolve_compare.rs:240-244 | a resolution fixes winner, net_pool and every payout |
| CompareRuns.TwapAccounting | programs/duel/src/instructions/record_compare_twap.rs:76-91 | Mode 2's sample count and averages are bounded as in Mode 1 |
| CompareRuns.PayoutExactly | programs/duel/src/instructions/withdraw.rs:62-93 | what every deposit is worth, by inequalities: itself after a draw, nothing to a loser, its share of net_pool rounded down to a winner |
| CompareRuns.WithdrawSucceedsExactly | programs/duel/src/instructions/withdraw.rs:13-127 | exactly when a withdrawal succeeds; funds are never short |
| CompareRuns.WithdrawEffect | programs/duel/src/instructions/withdraw.rs:95-127 | a withdrawal moves exactly the payout, to any account, and marks exactly that deposit |
| CompareRuns.AnyOrderSucceeds | programs/duel/src/instructions/withdraw.rs:47-127 | any depositors can withdraw in any order, and each vault pays exactly the claims that are gone |
| CompareRuns.EverybodyPaid | programs/duel/src/instructions/withdraw.rs:47-127 | when everybody has withdrawn a vault has paid exactly its claims |
| CompareRuns.WinnersShareThePool | programs/duel/src/instructions/withdraw.rs:70-75 | payouts take all of net_pool but less than one lamport a winner |
| CompareRuns.PrincipalBack | programs/duel/src/instructions/withdraw.rs:66-78 | a winner gets at least the deposit back exactly if net_pool is at least the winning side's total |
| CompareRuns.WinnersKeepPrincipal | programs/duel/src/instructions/resolve_compare.rs:174-244 | that is, exactly if the losers' deposits cover the fees |
| CompareRuns.PoolAccountedFor | programs/duel/src/instructions/resolve_compare.rs:133-244 | from resolution to the last withdrawal, fees and payouts take every deposit but that dust, whatever was given to the vaults and whoever owns the fee accounts |
| CompareRuns.DrawEnabledExactly | programs/duel/src/instructions/emergency_resolve_compare.rs:32-51 | a draw is possible exactly from 86,400 seconds after the deadline, and the pool never overflows; its whole effect and its errors |
| CompareRuns.RefundGuaranteed | programs/duel/src/instructions/emergency_resolve_compare.rs:27-56 | from any unresolved state every depositor gets the deposit back then |
| CompareRuns.DrawRefundsEverything | programs/duel/src/instructions/withdraw.rs:80-93 | after a draw a side's vault pays exactly its deposits, in any order |
| CompareRuns.ResolveSucceedsExactly | programs/duel/src/instructions/resolve_compare.rs:67-119 | exactly when a duel resolves |
| CompareRuns.ResolvedWinnerDidBetter | programs/duel/src/instructions/resolve_compare.rs:80-119 | the winner's average grew by the strictly larger exact ratio; a draw means agreement to 2 parts in 10^9 |
| CompareRuns.DuelWinnerExactly | programs/duel/src/instructions/resolve_compare.rs:80-119 | exactly who wins a duel, from the recorded averages and starting prices |
| CompareRuns.TieIsFree | programs/duel/src/instructions/resolve_compare.rs:235-238 | a tie takes no fee, moves nothing and leaves every deposit refundable |
| CompareRuns.ResolveEffect | programs/duel/src/instructions/resolve_compare.rs:140-238 | where every lamport of the pool goes, whichever accounts coincide, and what is left to share |
| CompareEffects.NamedAccountsArePaid | programs/duel/src/instructions/create_compare_duel.rs:180-181 | over any run from creation, a resolution pays creator and protocol fees to the accounts named at creation |
| CompareEffects.SamplesSpaced | programs/duel/src/instructions/record_compare_twap.rs:46-91 | over any run from creation, samples lie in the window and an interval or more apart |
| CompareEffects.SettingsOfRun | programs/duel/src/instructions/update_config.rs:29-79 | the settings in force after any run are those its updates make |
| CompareEffects.DepositRefused | programs/duel/src/instructions/deposit.rs:54-111 | with which error a deposit is refused |
| CompareEffects.SampleRefused | programs/duel/src/instructions/record_compare_twap.rs:31-96 | with which error a sample is refused |
| CompareEffects.ResolveRefused | programs/duel/src/instructions/resolve_compare.rs:62-119 | with which error a resolution is refused |
| CompareEffects.WithdrawRefused | programs/duel/src/instructions/withdraw.rs:13-93 | with which error a withdrawal is refused |
| CompareProgram.DuelAccount.Initialize | programs/duel/src/instructions/create_compare_duel.rs:94-194 | creates exactly the specified duel or fails |
| CompareProgram.DuelAccount.DepositSol | programs/duel/src/instructions/deposit.rs:54-130 | the handler computes exactly the specified deposit and reverts on failure |
| CompareProgram.DuelAccount.TakePrices | programs/duel/src/instructions/record_compare_twap.rs:31-108 | the handler records exactly the specified sample |
| CompareProgram.DuelAccount.Collect | programs/duel/src/instructions/resolve_compare.rs:140-234 | the pool's transfers and fees, all or none |
| CompareProgram.DuelAccount.Resolve | programs/duel/src/instructions/resolve_compare.rs:62-260 | the handler computes exactly the specified resolution and reverts on failure |
| CompareProgram.DuelAccount.EmergencyResolve | programs/duel/src/instructions/emergency_resolve_compare.rs:32-68 | the handler computes exactly the specified draw |
| CompareProgram.DuelAccount.WithdrawPayout | programs/duel/src/instructions/withdraw.rs:43-137 | the handler computes exactly the specified withdrawal and reverts on failure |

## Left out

- MarketOutcomes.ExitStaysOpen: a paused program pauses the exit too, and a pause has no end of its own.
- MarketOutcomes.GraduateSucceedsExactly: the calls into the DEX and metadata programs can refuse as well.
- MarketOutcomes.GraduationMovesEverything: ends with the seed accounts; what the DEX takes from them is its own.
- MarketProgram.MarketAccount.SeedPool: the same.
- MarketProgram.MarketAccount.ResolveAndGraduate: without the DEX and metadata calls between the transfers and the status.
- MarketInvariant.MarketCreatedExactly: the metadata calls can refuse as well.
- MarketProgram.MarketAccount.Initialize: without the metadata calls.
- Cranker.ResolutionAccepted: the calls into the DEX and metadata programs can refuse as well.
- Cranker.RefusedOnlyGraduations: the same, and the market is served in the state in which it was read.
- Cranker.Loop.Pass: failed reads over the network, account creation, dry runs and shutdown; all markets are read at one moment.
- CrankerProgress.PollingMeetsQuorum: polls are served at once; below 2^33 intervals for the resolution, and on a market that can be read.
- Calls into the DEX and metadata programs: a pool is its seeds, price and liquidity, and a failing call is a graduation that does not happen; renaming the losing token is not modelled.
- Derived addresses, signer seeds, account ownership, decimals and rent: an account is identified by its role, and a transfer from a wallet is its owner's.
- Lamports beyond the creation fee: what a creator has is an input, and where the fee goes is not tracked.
- Closing markets, duels and deposit records, and claiming pool fees: account clean-up after a run.
- The byte layout of oracle accounts, events, logging, heartbeats, shutdown and dry runs.
- Re-entrant calls: the lock is set and cleared as in the program, and is clear between instructions.
- Database, indexers, user interface and the SDK's floating-point helpers.

/** How a Mode 1 market ends: sampling and its quorum, the winner, graduation, and the draw after which
    holders leave at the curve's price. */
module MarketOutcomes {
  import opened Common
  import opened Arithmetic
  import opened BondingCurve
  import opened CurveProperties
  import opened SeedLiquidity
  import opened Ledger
  import opened Config
  import opened Twap
  import opened MarketSpec
  import opened MarketInvariant
  import opened MarketRuns

  // ---------- Tokens and their holders ----------

  /** The tokens of a side outside its vault. */
  ghost function Held(s: MarketState, side: Side): nat {
    Total(s.SideAt(side).tokens - {Vault(side)})
  }

  /** The curve's circulating supply is what holders have, plus whatever was given back to the vault. */
  lemma CirculatingIsHeld(s: MarketState, side: Side)
    requires Inv(s) && s.winner == None
    ensures s.SideAt(side).circulating == Held(s, side) + Gifts(s, side)
    ensures Gifts(s, side) == 0 <==> s.SideAt(side).circulating + s.TokenVault(side) == TOTAL_SUPPLY_PER_SIDE
  {
    hide Reserve, Sum;
    var m := s.SideAt(side).tokens;
    if Vault(side) in m {
      TotalRemove(m, Vault(side));
    } else {
      assert m - {Vault(side)} == m;
    }
  }

  /** An action that sends nobody's tokens to a vault as a gift. */
  predicate NotAGift(action: Action) {
    match action
    case BuyTokens(o) => o.dest.Wallet?
    case HolderTransfer(asset, _, dest, _) => asset.Token? ==> dest.Wallet?
    case _ => true
  }

  lemma TradedGifts(s: MarketState, traded: Side, circulating: nat, tokens: Balances, wsol: Balances, side: Side)
    ensures Gifts(Traded(s, traded, circulating, tokens, wsol), side) - Gifts(s, side) ==
            if side == traded
            then Balance(tokens, Vault(traded)) + circulating - s.TokenVault(traded) - s.SideAt(traded).circulating
            else 0
  {
  }

  lemma TradeWithoutGift(s: MarketState, now: int, action: Action, side: Side)
    requires action.BuyTokens? || action.SellTokens? || action.SellAfterDraw?
    requires NotAGift(action) && Step(s, now, action).Ok?
    ensures Gifts(Step(s, now, action).value, side) == Gifts(s, side)
  {
    hide Total, Buy, Sell, SellPostResolution, Transfer, TransferIfPositive, TradeFees, TokensOut, SolOut, Traded, Gifts;
    match action
    case BuyTokens(o) =>
      var t, fees, tokens, w1, w2, w3, held := BuyParts(s, now, o);
      TransferMoves(s.SideAt(t).tokens, Vault(t), o.dest, tokens);
      TradedGifts(s, t, s.SideAt(t).circulating + tokens, held, w3, side);
    case SellTokens(o) =>
      var t, raw, fees, w1, w2, w3, held := SellParts(s, now, o);
      TransferMoves(s.SideAt(t).tokens, Wallet(o.wallet), Vault(t), o.amount);
      TradedGifts(s, t, s.SideAt(t).circulating - o.amount, held, w3, side);
    case SellAfterDraw(o) =>
      var t, quote, w1, held := SellPostParts(s, o);
      TransferMoves(s.SideAt(t).tokens, Wallet(o.wallet), Vault(t), o.amount);
      TradedGifts(s, t, s.SideAt(t).circulating - o.amount, held, w1, side);
  }

  lemma TransferWithoutGift(s: MarketState, asset: Asset, wallet: nat, dest: Account, amount: nat, side: Side)
    requires (asset.Token? ==> dest.Wallet?) && ExternalTransfer(s, asset, wallet, dest, amount).Ok?
    ensures Gifts(ExternalTransfer(s, asset, wallet, dest, amount).value, side) == Gifts(s, side)
  {
    hide Total;
    if asset.Token? {
      TransferMoves(s.SideAt(asset.side).tokens, Wallet(wallet), dest, amount);
    }
  }

  lemma StepWithoutGift(s: MarketState, now: int, action: Action, side: Side)
    requires NotAGift(action) && Step(s, now, action).Ok?
    requires Step(s, now, action).value.winner == None
    ensures Gifts(Step(s, now, action).value, side) == Gifts(s, side)
  {
    hide Total, Buy, Sell, SellPostResolution, Graduate, ExternalTransfer, SampleGuard, PriceOf;
    match action
    case BuyTokens(_) => TradeWithoutGift(s, now, action, side);
    case SellTokens(_) => TradeWithoutGift(s, now, action, side);
    case SellAfterDraw(_) => TradeWithoutGift(s, now, action, side);
    case TakeSample =>
    case ResolveAndGraduate(expected, tokenDest, wsolDest) =>
      var _, _, _, _, _, _ := GraduateParts(s, now, expected, tokenDest, wsolDest);
    case EmergencyResolve =>
    case UpdateConfig(_, _) =>
    case CloseQuoteVault(sideIndex) =>
      CloseEffect(s.SideAt(SideOf(sideIndex).value).tokens, Vault(SideOf(sideIndex).value));
    case HolderTransfer(asset, wallet, dest, amount) =>
      TransferWithoutGift(s, asset, wallet, dest, amount, side);
  }

  /** In a run without gifts, circulating supply plus token vault stays the total supply. */
  lemma {:induction false} RunWithoutGifts(s: MarketState, events: seq<Event>, side: Side)
    requires Inv(s) && Gifts(s, side) == 0 && Run(s, events).winner == None
    requires forall e :: e in events ==> NotAGift(e.action)
    ensures Gifts(Run(s, events), side) == 0
    ensures Run(s, events).SideAt(side).circulating == Held(Run(s, events), side)
    decreases |events|
  {
    hide Inv, Total, Sum, Reserve, Step, NotAGift;
    RunKeeps(s, events);
    CirculatingIsHeld(Run(s, events), side);
    if events == [] {
    } else {
      var next := Apply(s, events[0]);
      ApplyKeeps(s, events[0]);
      RunKeeps(next, events[1..]);
      WinnerFinal(next, Run(next, events[1..]));
      if Step(s, s.clock + events[0].wait, events[0].action).Ok? {
        StepWithoutGift(s, s.clock + events[0].wait, events[0].action, side);
      }
      RunWithoutGifts(next, events[1..], side);
    }
  }

  lemma WinnerFinal(s: MarketState, s': MarketState)
    requires Inv(s) && Later(s, s')
    ensures s.winner != None ==> s'.winner == s.winner
  {
    hide Total, Sum, Reserve;
  }

  // ---------- After a draw ----------

  predicate Drawn(s: MarketState) {
    s.status == Resolved && s.winner == None
  }

  /** Every unresolved market can be ended: a draw is enabled exactly from 24 hours after the deadline,
      unless that moment is beyond the i64 clock. */
  lemma DrawEnabledExactly(s: MarketState, now: int)
    requires Inv(s)
    ensures EmergencyDraw(s, now).Ok? <==>
            && s.status != Resolved
            && now >= s.deadline + 86_400
            && s.deadline + 86_400 <= I64_MAX
    ensures EmergencyDraw(s, now).Ok? ==>
              var s' := EmergencyDraw(s, now).value;
              Drawn(s') && s' == s.(status := Resolved, winner := None, finalTwapA := 0, finalTwapB := 0)
    ensures EmergencyDraw(s, now).Err? ==>
              EmergencyDraw(s, now) ==
              if s.status == Resolved then Err(MarketAlreadyResolved)
              else if now < s.deadline then Err(MarketNotExpired)
              else if s.deadline + 86_400 > I64_MAX then Err(MathOverflow)
              else Err(EmergencyResolveTooEarly)
  {
    hide Total, Sum, Reserve;
  }

  /** The fee-free exit: after a draw a sale succeeds exactly when the program is not paused, the accounts
      are open, the seller has the tokens, and the curve's price is at least the price asked. */
  lemma SellAfterDrawSucceedsExactly(s: MarketState, o: Order, side: Side)
    requires Inv(s) && SideOf(o.side) == Ok(side)
    ensures SellPostResolution(s, o).Ok? <==>
            && Drawn(s) && !s.config.paused
            && o.dest in s.wsol && Vault(side) in s.SideAt(side).tokens
            && 0 < o.amount <= Balance(s.SideAt(side).tokens, Wallet(o.wallet))
            && CurveValue(s, side, o.amount) >= o.minOut
    ensures SellPostResolution(s, o) != Err(InsufficientReserve)
    ensures SellPostResolution(s, o) != Err(MathOverflow)
  {
    hide Inv, Reserve, Transfer, SolOut, PriceOf, Cost, SaleNet, FeesOf;
    DrawnFacts(s, side);
    var acct := s.SideAt(side);
    if Drawn(s) {
      HeldWithinCirculation(s, side, o.wallet);
      DefaultSolOut(o.amount, acct.circulating);
      TransferErrors(acct.tokens, Wallet(o.wallet), Vault(side), o.amount);
      HasFunds(acct.tokens, Wallet(o.wallet), Vault(side), o.amount);
      if o.amount <= acct.circulating {
        var raw, _ := SaleFees(s, side, o.amount);
        DefaultCurve(acct.circulating - o.amount);
        TransferErrors(s.wsol, Vault(side), o.dest, raw);
        HasFunds(s.wsol, Vault(side), o.dest, raw);
      }
    }
  }

  lemma DrawnFacts(s: MarketState, side: Side)
    requires Inv(s)
    ensures Total(s.wsol) <= U64_MAX && Total(s.SideAt(side).tokens) <= U64_MAX
    ensures !s.locked && s.SideAt(side).circulating <= TOTAL_SUPPLY_PER_SIDE
    ensures s.winner == None && s.SideAt(side).circulating > 0 ==> Vault(side) in s.wsol
  {
    hide Total, Sum, Reserve;
  }

  lemma HasFunds(m: Balances, from: Account, to: Account, amount: nat)
    requires Total(m) <= U64_MAX
    ensures Transfer(m, from, to, amount).Ok? <==> from in m && to in m && amount <= Balance(m, from)
  {
    if from in m && to in m {
      TransferSucceeds(m, from, to, amount);
    }
  }

  /** What the curve pays for `tokens`. */
  function CurveValue(s: MarketState, side: Side, tokens: nat): nat {
    var c := s.SideAt(side).circulating;
    if tokens <= c then Cost(c - tokens, tokens, DefaultParams()) else 0
  }

  /** Where everything goes in such a sale: the vault pays the seller the curve's price in full, and takes
      the tokens back. A seller who names a vault as destination has given it the money. */
  lemma SellAfterDrawEffect(s: MarketState, o: Order, side: Side, x: Account)
    requires Inv(s) && SideOf(o.side) == Ok(side) && SellPostResolution(s, o).Ok?
    ensures var s', paid := SellPostResolution(s, o).value, CurveValue(s, side, o.amount);
            && Balance(s'.wsol, x) + (if x == Vault(side) then paid else 0)
               == Balance(s.wsol, x) + (if x == o.dest then paid else 0)
            && Balance(s'.SideAt(side).tokens, x) + (if x == Wallet(o.wallet) then o.amount else 0)
               == Balance(s.SideAt(side).tokens, x) + (if x == Vault(side) then o.amount else 0)
            && s'.SideAt(side).circulating + o.amount == s.SideAt(side).circulating
            && OnlyTraded(s, side, s')
  {
    hide Total, Sum, SellPostResolution, Transfer, Reserve, SolOut, Cost, Balance, Inv;
    var side', quote, w1, held := SellPostParts(s, o);
    var raw, _ := SaleFees(s, side, o.amount);
    TransferMoves(s.SideAt(side).tokens, Wallet(o.wallet), Vault(side), o.amount);
    TransferMoves(s.wsol, Vault(side), o.dest, quote);
    MovedBalance(s.SideAt(side).tokens, Wallet(o.wallet), Vault(side), o.amount, held, x);
    MovedBalance(s.wsol, Vault(side), o.dest, quote, w1, x);
    TradedParts(s, side, s.SideAt(side).circulating - o.amount, held, w1);
    hide Traded, SideOf;
  }

  /** What an action pays to holders of a side after the draw. */
  function Paid(s: MarketState, now: int, action: Action, side: Side): nat {
    if action.SellAfterDraw? && Step(s, now, action).Ok? && SideOf(action.order.side) == Ok(side)
    then CurveValue(s, side, action.order.amount) else 0
  }

  /** What an action puts into a side's quote vault after the draw: a gift, or an exit that names the vault. */
  function PutIn(s: MarketState, now: int, action: Action, side: Side): nat {
    if Step(s, now, action).Err? then 0
    else if action.HolderTransfer? && action.asset.Wsol? && action.dest == Vault(side) then action.amount
    else if action.SellAfterDraw? && action.order.dest == Vault(side) then
      Paid(s, now, action, A) + Paid(s, now, action, B)
    else 0
  }

  function PaidOut(s: MarketState, events: seq<Event>, side: Side): nat
    decreases |events|
  {
    if events == [] then 0
    else
      Paid(s, s.clock + events[0].wait, events[0].action, side) + PaidOut(Apply(s, events[0]), events[1..], side)
  }

  function Received(s: MarketState, events: seq<Event>, side: Side): nat
    decreases |events|
  {
    if events == [] then 0
    else
      PutIn(s, s.clock + events[0].wait, events[0].action, side) + Received(Apply(s, events[0]), events[1..], side)
  }

  /** Over any run from a draw, in any order and however exits are split, the quote vault pays out exactly what
      the curve's liability loses, and otherwise only receives. */
  lemma {:induction false} DrawPaysExactly(s: MarketState, events: seq<Event>, side: Side)
    requires Inv(s) && Drawn(s)
    ensures Drawn(Run(s, events))
    ensures PaidOut(s, events, side) + Liability(Run(s, events), side) == Liability(s, side)
    ensures Run(s, events).QuoteVault(side) + PaidOut(s, events, side) == s.QuoteVault(side) + Received(s, events, side)
    decreases |events|
  {
    hide Inv, Total, Sum, Reserve, Step, Paid, PutIn, Balance;
    if events == [] {
    } else {
      var next := Apply(s, events[0]);
      ApplyKeeps(s, events[0]);
      DrawnApply(s, events[0], side);
      DrawPaysExactly(next, events[1..], side);
    }
  }

  lemma DrawnApply(s: MarketState, e: Event, side: Side)
    requires Inv(s) && Drawn(s)
    ensures var next, now := Apply(s, e), s.clock + e.wait;
            && Drawn(next)
            && Paid(s, now, e.action, side) + Liability(next, side) == Liability(s, side)
            && next.QuoteVault(side) + Paid(s, now, e.action, side) == s.QuoteVault(side) + PutIn(s, now, e.action, side)
            && next.TokenVault(side) >= s.TokenVault(side)
  {
    hide Inv, Total, Sum, Reserve, Step, CurveValue;
    if Step(s, s.clock + e.wait, e.action).Ok? {
      DrawnStep(s, s.clock + e.wait, e.action, side);
    }
  }

  lemma DrawnStep(s: MarketState, now: int, action: Action, side: Side)
    requires Inv(s) && Drawn(s) && Step(s, now, action).Ok?
    ensures var next := Step(s, now, action).value;
            && Drawn(next)
            && Paid(s, now, action, side) + Liability(next, side) == Liability(s, side)
            && next.QuoteVault(side) + Paid(s, now, action, side) == s.QuoteVault(side) + PutIn(s, now, action, side)
            && next.TokenVault(side) >= s.TokenVault(side)
  {
    hide Inv, Total, Sum, Reserve, SellPostResolution, Transfer, SolOut, SampleGuard, CurveValue;
    match action
    case SellAfterDraw(o) => DrawnExit(s, o, side);
    case CloseQuoteVault(sideIndex) =>
      CloseEffect(s.wsol, Vault(SideOf(sideIndex).value));
      CloseEffect(s.SideAt(SideOf(sideIndex).value).tokens, Vault(SideOf(sideIndex).value));
    case HolderTransfer(asset, wallet, dest, amount) => DrawnTransfer(s, asset, wallet, dest, amount, side);
    case _ =>
  }

  lemma DrawnTransfer(s: MarketState, asset: Asset, wallet: nat, dest: Account, amount: nat, side: Side)
    requires ExternalTransfer(s, asset, wallet, dest, amount).Ok?
    ensures var next := ExternalTransfer(s, asset, wallet, dest, amount).value;
            && next.status == s.status && next.winner == s.winner && Liability(next, side) == Liability(s, side)
            && next.QuoteVault(side) == s.QuoteVault(side) + (if asset.Wsol? && dest == Vault(side) then amount else 0)
            && next.TokenVault(side) >= s.TokenVault(side)
  {
    hide Transfer, Total, Reserve;
    match asset
    case Wsol => TransferMoves(s.wsol, Wallet(wallet), dest, amount);
    case Token(t) => TransferMoves(s.SideAt(t).tokens, Wallet(wallet), dest, amount);
  }

  lemma DrawnExit(s: MarketState, o: Order, side: Side)
    requires Inv(s) && Drawn(s) && SellPostResolution(s, o).Ok?
    ensures SideOf(o.side).Ok?
    ensures var next, t := SellPostResolution(s, o).value, SideOf(o.side).value;
            var value := CurveValue(s, t, o.amount);
            && Drawn(next)
            && (if side == t then value else 0) + Liability(next, side) == Liability(s, side)
            && next.QuoteVault(side) + (if side == t then value else 0)
               == s.QuoteVault(side) + (if o.dest == Vault(side) then value else 0)
            && next.TokenVault(side) >= s.TokenVault(side)
  {
    hide Inv, SellPostResolution, SideOf, Transfer, Balance, Reserve, SolOut, Total;
    var t, quote, w1, held := SellPostParts(s, o);
    SellAfterDrawEffect(s, o, t, Vault(side));
  }

  /** An action that puts money into a quote vault after the draw. */
  predicate FeedsVault(action: Action) {
    FundsVault(action) || (action.SellAfterDraw? && action.order.dest.Vault?)
  }

  lemma {:induction false} NothingReceived(s: MarketState, events: seq<Event>, side: Side)
    requires forall e :: e in events ==> !FeedsVault(e.action)
    ensures Received(s, events, side) == 0
    decreases |events|
  {
    hide Apply, Step, Paid;
    if events == [] {
    } else {
      NothingReceived(Apply(s, events[0]), events[1..], side);
    }
  }

  /** A side whose tokens have all been sold back has been paid its whole liability, by its vault. */
  lemma EmptyingPaysTheLiability(s: MarketState, events: seq<Event>, side: Side)
    requires Inv(s) && Drawn(s) && Run(s, events).SideAt(side).circulating == 0
    ensures PaidOut(s, events, side) == Liability(s, side)
    ensures Run(s, events).QuoteVault(side) + Liability(s, side) == s.QuoteVault(side) + Received(s, events, side)
    ensures (forall e :: e in events ==> !FeedsVault(e.action)) ==>
              Run(s, events).QuoteVault(side) + Liability(s, side) == s.QuoteVault(side)
  {
    hide Inv, Run, PaidOut, Received, FeedsVault;
    DrawPaysExactly(s, events, side);
    DefaultCurveAtZero();
    if forall e :: e in events ==> !FeedsVault(e.action) {
      NothingReceived(s, events, side);
    }
  }

  /** While tokens of a drawn market circulate their quote vault can be neither empty nor closed. */
  lemma VaultStaysOpen(s: MarketState, events: seq<Event>, side: Side)
    requires Inv(s) && Run(s, events).winner == None && Run(s, events).SideAt(side).circulating > 0
    ensures var t := Run(s, events);
            Vault(side) in t.wsol && t.QuoteVault(side) >= t.SideAt(side).circulating
  {
    hide Total, Sum, Reserve, Run;
    RunKeeps(s, events);
    DefaultCurve(Run(s, events).SideAt(side).circulating);
  }

  // ---------- Leaving ----------

  /** Unsold tokens in the vault keep it from being closed, so they stay there through any run after a draw. */
  lemma {:induction false} DrawnStockStays(s: MarketState, events: seq<Event>, side: Side)
    requires Inv(s) && Drawn(s)
    ensures Run(s, events).TokenVault(side) >= s.TokenVault(side)
    decreases |events|
  {
    hide Inv, Apply, Balance, Drawn;
    if events == [] {
    } else {
      ApplyKeeps(s, events[0]);
      DrawnApply(s, events[0], side);
      DrawnStockStays(Apply(s, events[0]), events[1..], side);
    }
  }

  /** No interleaving locks a holder in: unless a side was sold out at the draw, then after any run anyone can
      still sell any of their tokens of it at the curve's price, while the program is not paused. */
  lemma ExitStaysOpen(s: MarketState, events: seq<Event>, o: Order, side: Side)
    requires Inv(s) && Drawn(s) && s.TokenVault(side) > 0 && SideOf(o.side) == Ok(side)
    requires var t := Run(s, events);
             && !t.config.paused && o.dest in t.wsol
             && 0 < o.amount <= Balance(t.SideAt(side).tokens, Wallet(o.wallet))
             && CurveValue(t, side, o.amount) >= o.minOut
    ensures SellPostResolution(Run(s, events), o).Ok?
  {
    hide Inv, Run, CurveValue, SellPostResolution, PaidOut, Received;
    RunKeeps(s, events);
    DrawPaysExactly(s, events, side);
    DrawnStockStays(s, events, side);
    SellAfterDrawSucceedsExactly(Run(s, events), o, side);
  }

  /** What the emergency exit asks of a holder. */
  predicate Offered(s: MarketState, o: Order, side: Side) {
    && SideOf(o.side) == Ok(side) && !s.config.paused && o.dest in s.wsol
    && 0 < o.amount <= Balance(s.SideAt(side).tokens, Wallet(o.wallet))
    && CurveValue(s, side, o.amount) >= o.minOut
  }

  predicate ExitWorks(s: MarketState, events: seq<Event>, o: Order, side: Side) {
    Offered(Run(s, events), o, side) ==> SellPostResolution(Run(s, events), o).Ok?
  }

  /** After every run every holder of a side can leave. */
  ghost predicate AlwaysOpen(s: MarketState, side: Side) {
    forall events, o :: ExitWorks(s, events, o, side)
  }

  /** Without its token vault a side is closed for good: no run brings the vault back, and no exit succeeds. */
  lemma {:induction false} LockedForGood(s: MarketState, events: seq<Event>, o: Order, side: Side)
    requires Vault(side) !in s.SideAt(side).tokens && SideOf(o.side) == Ok(side)
    ensures Vault(side) !in Run(s, events).SideAt(side).tokens
    ensures SellPostResolution(Run(s, events), o).Err?
    decreases |events|
  {
    if events == [] {
      hide SettleExit;
    } else {
      NoVaultComesBack(s, events[0], side);
      hide Apply, SellPostResolution;
      LockedForGood(Apply(s, events[0]), events[1..], o, side);
    }
  }

  lemma NoVaultComesBack(s: MarketState, e: Event, side: Side)
    requires Vault(side) !in s.SideAt(side).tokens
    ensures Vault(side) !in Apply(s, e).SideAt(side).tokens
  {
    NoNewVault(s, s.clock + e.wait, e.action, side);
    hide Step;
  }

  lemma NoNewVault(s: MarketState, now: int, action: Action, side: Side)
    requires Vault(side) !in s.SideAt(side).tokens
    ensures Step(s, now, action).Ok? ==> Vault(side) !in Step(s, now, action).value.SideAt(side).tokens
  {
    match action
    case BuyTokens(o) =>
      SettledKeys(s, o);
      hide SettlePurchase;
    case SellTokens(o) =>
      SettledKeys(s, o);
      hide SettleSale;
    case SellAfterDraw(o) =>
      SettledKeys(s, o);
      hide SettleExit;
    case TakeSample =>
      hide SampleGuard, PriceOf;
    case ResolveAndGraduate(expected, tokenDest, wsolDest) =>
      SeededKeys(s, now, expected, tokenDest, wsolDest);
      hide Graduate;
    case EmergencyResolve =>
    case UpdateConfig(_, _) =>
      hide Updated;
    case CloseQuoteVault(_) =>
    case HolderTransfer(asset, wallet, dest, amount) =>
      if asset.Token? {
        TransferKeys(s.SideAt(asset.side).tokens, Wallet(wallet), dest, amount);
      }
      hide Transfer;
  }

  lemma TransferKeys(m: Balances, from: Account, to: Account, amount: nat)
    ensures Transfer(m, from, to, amount).Ok? ==> Transfer(m, from, to, amount).value.Keys == m.Keys
  {
  }

  lemma SettledKeys(s: MarketState, o: Order)
    ensures SideOf(o.side).Ok? ==>
            var side := SideOf(o.side).value;
            var acct := s.SideAt(side);
            && (var r := SettlePurchase(acct, s.wsol, side, o, s.creatorFee, s.config);
                r.Ok? ==> r.value.0.tokens.Keys == acct.tokens.Keys)
            && (var r := SettleSale(acct, s.wsol, side, o, s.creatorFee, s.config);
                r.Ok? ==> r.value.0.tokens.Keys == acct.tokens.Keys)
            && (var r := SettleExit(acct, s.wsol, side, o); r.Ok? ==> r.value.0.tokens.Keys == acct.tokens.Keys)
  {
    hide Transfer, TransferIfPositive, TradeFees, TokensOut, SolOut, PriceOf;
    var side := if SideOf(o.side).Ok? then SideOf(o.side).value else A;
    var tokens := s.SideAt(side).tokens;
    TransferKeys(tokens, Wallet(o.wallet), Vault(side), o.amount);
    forall sold: nat ensures Transfer(tokens, Vault(side), o.dest, sold).Ok? ==>
                               Transfer(tokens, Vault(side), o.dest, sold).value.Keys == tokens.Keys
    {
      TransferKeys(tokens, Vault(side), o.dest, sold);
    }
  }

  lemma SeededKeys(s: MarketState, now: int, expected: nat, tokenDest: Account, wsolDest: Account)
    ensures var r := Graduate(s, now, expected, tokenDest, wsolDest);
            r.Ok? ==> r.value.a.tokens.Keys == s.a.tokens.Keys && r.value.b.tokens.Keys == s.b.tokens.Keys
  {
    if Graduate(s, now, expected, tokenDest, wsolDest).Ok? {
      var winner, twapA, twapB, w1, w2, held := GraduateParts(s, now, expected, tokenDest, wsolDest);
      TransferKeys(s.SideAt(winner).tokens, Vault(winner), tokenDest, s.TokenVault(winner));
      hide Graduate, Transfer, TransferIfPositive, SeededPool;
    }
  }

  /** And anyone can take the token vault of a side that was sold out at the draw. */
  lemma SoldOutLocked(s: MarketState, o: Order, side: Side)
    requires Inv(s) && Drawn(s) && s.TokenVault(side) == 0 && SideOf(o.side) == Ok(side)
    requires Vault(side) in s.wsol && Vault(side) in s.SideAt(side).tokens
    ensures var t := Run(s, [Event(0, CloseQuoteVault(side.Index()))]);
            && t.SideAt(side).circulating == s.SideAt(side).circulating && Drawn(t)
            && Vault(side) !in t.SideAt(side).tokens && SellPostResolution(t, o).Err?
  {
    var e := Event(0, CloseQuoteVault(side.Index()));
    ClosesEmpty(s, side);
    hide Inv, Apply, SellPostResolution;
    RunOne(s, e);
    LockedForGood(Apply(s, e), [], o, side);
  }

  lemma ClosesEmpty(s: MarketState, side: Side)
    requires Drawn(s) && s.TokenVault(side) == 0
    requires Vault(side) in s.wsol && Vault(side) in s.SideAt(side).tokens
    ensures var t := Apply(s, Event(0, CloseQuoteVault(side.Index())));
            && t.SideAt(side).circulating == s.SideAt(side).circulating && Drawn(t)
            && Vault(side) !in t.SideAt(side).tokens
            && t.config == s.config && t.wsol == CloseIfEmpty(s.wsol, Vault(side))
            && t.SideAt(side).tokens == s.SideAt(side).tokens - {Vault(side)}
  {
  }

  /** Somebody holds tokens of a sold-out side. */
  lemma SomebodyHolds(s: MarketState, side: Side) returns (id: nat)
    requires Inv(s) && s.TokenVault(side) == 0
    ensures Balance(s.SideAt(side).tokens, Wallet(id)) > 0
  {
    hide Reserve, Sum;
    var m := s.SideAt(side).tokens;
    if forall x :: x in m ==> m[x] == 0 {
      ZeroTotal(m);
      assert false;
    }
    var x :| x in m && m[x] > 0;
    assert x == Vault(side) || x == Vault(side.Other()) || x.Wallet?;
    id := x.id;
  }

  /** Holders of a drawn market's side can leave after every run in which the program is not paused then, exactly
      if the side was not sold out: if it was, its token vault can be closed, which locks them all in. */
  lemma AlwaysOpenExactly(s: MarketState, side: Side)
    requires Inv(s) && Drawn(s)
    ensures AlwaysOpen(s, side) <==> s.TokenVault(side) > 0
  {
    hide Inv, SellPostResolution, Run, CurveValue, Balance;
    if s.TokenVault(side) > 0 {
      forall events, o ensures ExitWorks(s, events, o, side) {
        if Offered(Run(s, events), o, side) {
          ExitStaysOpen(s, events, o, side);
        }
      }
    } else {
      var events, o := LockOut(s, side);
      assert !ExitWorks(s, events, o, side);
    }
  }

  /** The admin's update that lifts a pause. */
  function Unpause(s: MarketState): Event {
    Event(0, UpdateConfig(s.config.admin, Update(Some(false), None, None, None, None, None, None)))
  }

  lemma Unpaused(s: MarketState)
    ensures Apply(s, Unpause(s)) == s.(config := s.config.(paused := false))
  {
  }

  lemma LockOut(s: MarketState, side: Side) returns (events: seq<Event>, o: Order)
    requires Inv(s) && Drawn(s) && s.TokenVault(side) == 0
    ensures Offered(Run(s, events), o, side) && SellPostResolution(Run(s, events), o).Err?
  {
    hide Inv, Apply, SellPostResolution, CurveValue;
    var t := Apply(s, Unpause(s));
    Unpaused(s);
    ApplyKeeps(s, Unpause(s));
    var id := SomebodyHolds(t, side);
    SoldOutVaultOpen(t, side);
    o := Order(id, side.Index(), 1, 0, Vault(side));
    if Vault(side) in t.SideAt(side).tokens {
      var e := Event(0, CloseQuoteVault(side.Index()));
      events := [Unpause(s), e];
      SoldOutLocked(t, o, side);
      ClosesEmpty(t, side);
      RunTwo(s, Unpause(s), e);
    } else {
      events := [Unpause(s)];
      RunOne(s, Unpause(s));
      LockedForGood(t, [], o, side);
    }
  }

  lemma RunOne(s: MarketState, e: Event)
    ensures Run(s, [e]) == Apply(s, e)
  {
    hide Apply;
    assert Run(s, [e]) == Run(Apply(s, e), []);
  }

  lemma RunTwo(s: MarketState, d: Event, e: Event)
    ensures Run(s, [d, e]) == Apply(Apply(s, d), e)
  {
    hide Apply;
    assert [d, e][1..] == [e];
    RunOne(Apply(s, d), e);
  }

  lemma SoldOutVaultOpen(s: MarketState, side: Side)
    requires Inv(s) && s.winner == None && s.TokenVault(side) == 0
    ensures Vault(side) in s.wsol && s.QuoteVault(side) > 0
  {
    hide Total, Sum, Reserve;
    DefaultCurve(s.SideAt(side).circulating);
  }

  /** A holder's whole position, for whatever the curve pays. */
  function ExitOrder(s: MarketState, side: Side, holder: nat, dest: nat): Order {
    Order(holder, side.Index(), Min(Balance(s.SideAt(side).tokens, Wallet(holder)), U64_MAX), 0, Wallet(dest))
  }

  /** Holders leave one after another, each to a wallet of their choice. */
  function ExitAll(s: MarketState, side: Side, order: seq<(nat, nat)>): Result<MarketState>
    decreases |order|
  {
    if order == [] then Ok(s)
    else
      var next :- SellPostResolution(s, ExitOrder(s, side, order[0].0, order[0].1));
      ExitAll(next, side, order[1..])
  }

  /** Holders of a side, each named once, with destination wallets that exist. */
  predicate CanLeave(s: MarketState, side: Side, order: seq<(nat, nat)>) {
    && (forall i :: 0 <= i < |order| ==>
          && Balance(s.SideAt(side).tokens, Wallet(order[i].0)) > 0 && Wallet(order[i].1) in s.wsol)
    && (forall i, j :: 0 <= i < j < |order| ==> order[i].0 != order[j].0)
  }

  predicate Leaves(order: seq<(nat, nat)>, holder: nat) {
    exists i :: 0 <= i < |order| && order[i].0 == holder
  }

  predicate ExitsOpen(s: MarketState, side: Side) {
    Drawn(s) && !s.config.paused && Vault(side) in s.SideAt(side).tokens
  }

  lemma OneLeaves(s: MarketState, side: Side, holder: nat, dest: nat)
    requires Inv(s) && ExitsOpen(s, side) && Wallet(dest) in s.wsol
    requires Balance(s.SideAt(side).tokens, Wallet(holder)) > 0
    ensures SellPostResolution(s, ExitOrder(s, side, holder, dest)).Ok?
    ensures var next := SellPostResolution(s, ExitOrder(s, side, holder, dest)).value;
            && Inv(next) && ExitsOpen(next, side) && next.wsol.Keys == s.wsol.Keys
            && next.QuoteVault(side) + Liability(s, side) == s.QuoteVault(side) + Liability(next, side)
            && Gifts(next, side) == Gifts(s, side)
            && Balance(next.SideAt(side).tokens, Wallet(holder)) == 0
            && forall id :: id != holder ==>
                 Balance(next.SideAt(side).tokens, Wallet(id)) == Balance(s.SideAt(side).tokens, Wallet(id))
  {
    var o := ExitOrder(s, side, holder, dest);
    HoldingFits(s, side, holder);
    hide Inv, SellPostResolution, Balance, Reserve, Total, CurveValue, Later;
    SellAfterDrawSucceedsExactly(s, o, side);
    SellPostResolutionKeeps(s, o);
    DrawnExit(s, o, side);
    var next := SellPostResolution(s, o).value;
    SellAfterDrawEffect(s, o, side, Vault(side));
    forall id ensures Balance(next.SideAt(side).tokens, Wallet(id)) + (if id == holder then o.amount else 0)
                      == Balance(s.SideAt(side).tokens, Wallet(id))
    {
      SellAfterDrawEffect(s, o, side, Wallet(id));
    }
  }

  lemma HoldingFits(s: MarketState, side: Side, holder: nat)
    requires Inv(s)
    ensures Balance(s.SideAt(side).tokens, Wallet(holder)) <= TOTAL_SUPPLY_PER_SIDE
  {
    hide Reserve, Sum;
    BalanceBound(s.SideAt(side).tokens, Wallet(holder));
  }

  /** After a draw any holders can leave in any order: all succeed, each is left with nothing, nobody else's
      tokens move, and the vault pays exactly what the liability loses. */
  lemma {:induction false} AnyOrderLeaves(s: MarketState, side: Side, order: seq<(nat, nat)>)
    requires Inv(s) && ExitsOpen(s, side) && CanLeave(s, side, order)
    ensures ExitAll(s, side, order).Ok?
    ensures var t := ExitAll(s, side, order).value;
            && Inv(t) && Drawn(t)
            && t.QuoteVault(side) + Liability(s, side) == s.QuoteVault(side) + Liability(t, side)
            && Gifts(t, side) == Gifts(s, side)
            && forall id :: Balance(t.SideAt(side).tokens, Wallet(id)) ==
                            if Leaves(order, id) then 0 else Balance(s.SideAt(side).tokens, Wallet(id))
    decreases |order|
  {
    hide Inv, SellPostResolution, ExitOrder, Balance, Liability, Gifts;
    if order == [] {
    } else {
      var holder, dest := order[0].0, order[0].1;
      OneLeaves(s, side, holder, dest);
      var next := SellPostResolution(s, ExitOrder(s, side, holder, dest)).value;
      var rest := order[1..];
      assert forall i :: 0 <= i < |rest| ==> rest[i] == order[i + 1];
      AnyOrderLeaves(next, side, rest);
      LeavesStep(order);
    }
  }

  lemma LeavesStep(order: seq<(nat, nat)>)
    requires order != []
    ensures forall id :: Leaves(order, id) <==> id == order[0].0 || Leaves(order[1..], id)
  {
    forall id ensures Leaves(order, id) <==> id == order[0].0 || Leaves(order[1..], id) {
      if Leaves(order[1..], id) {
        var i :| 0 <= i < |order[1..]| && order[1..][i].0 == id;
        assert order[i + 1].0 == id;
      }
      if Leaves(order, id) && id != order[0].0 {
        var i :| 0 <= i < |order| && order[i].0 == id;
        assert order[1..][i - 1].0 == id;
      }
    }
  }

  /** From any unresolved state, once the emergency window has passed: a draw succeeds, and when all holders of
      a side have left, in whatever order, only gifts still circulate and the vault has paid everything else
      that circulated, at the curve's price. */
  lemma EverybodyLeaves(s: MarketState, now: int, side: Side, order: seq<(nat, nat)>)
    requires Inv(s) && s.status != Resolved && now > 0 && !s.config.paused
    requires now >= s.deadline + 86_400 && s.deadline + 86_400 <= I64_MAX
    requires CanLeave(s, side, order)
    requires forall id :: Balance(s.SideAt(side).tokens, Wallet(id)) > 0 ==> Leaves(order, id)
    ensures EmergencyDraw(s, now).Ok? && ExitAll(EmergencyDraw(s, now).value, side, order).Ok?
    ensures var t := ExitAll(EmergencyDraw(s, now).value, side, order).value;
            && t.SideAt(side).circulating == Gifts(s, side)
            && t.QuoteVault(side) + Liability(s, side) == s.QuoteVault(side) + Liability(t, side)
  {
    hide Reserve, Sum, ExitAll, CanLeave, Leaves, Balance, Total;
    DrawEnabledExactly(s, now);
    var drawn := EmergencyDraw(s, now).value;
    assert CanLeave(drawn, side, order) by { SameHolders(s, drawn, side, order); }
    StepKeeps(s, now, EmergencyResolve);
    AnyOrderLeaves(drawn, side, order);
    var t := ExitAll(drawn, side, order).value;
    NobodyHolds(t, side);
  }

  lemma SameHolders(s: MarketState, t: MarketState, side: Side, order: seq<(nat, nat)>)
    requires CanLeave(s, side, order) && t.wsol == s.wsol && t.a == s.a && t.b == s.b
    ensures CanLeave(t, side, order)
  {
  }

  lemma NobodyHolds(s: MarketState, side: Side)
    requires Inv(s) && s.winner == None
    requires forall id :: Balance(s.SideAt(side).tokens, Wallet(id)) == 0
    ensures s.SideAt(side).circulating == Gifts(s, side)
  {
    hide Reserve, Sum;
    CirculatingIsHeld(s, side);
    var held := s.SideAt(side).tokens - {Vault(side)};
    forall x | x in held ensures held[x] == 0 {
      assert x == Vault(side) || x == Vault(side.Other()) || x.Wallet?;
      if x.Wallet? {
        assert Balance(s.SideAt(side).tokens, Wallet(x.id)) == 0;
      }
    }
    ZeroTotal(held);
  }

  // ---------- Samples ----------

  /** A sample is accepted exactly inside the window, an interval after the last one, on an unresolved
      market; nothing in it can overflow before the 2^32nd sample. */
  lemma SampleAcceptedExactly(s: MarketState, now: int)
    requires Inv(s) && 0 < now <= I64_MAX
    ensures RecordSample(s, now).Ok? <==>
            && s.status != Resolved
            && s.deadline - s.twapWindow <= now <= s.deadline
            && (s.samplesCount == 0 || now - s.lastSampleTs >= s.twapInterval)
            && s.samplesCount < U32_MAX
  {
    hide Total, Sum, Reserve, SampleGuard, PriceOf, Prices;
    GuardExact(now, s.deadline, s.twapWindow, s.twapInterval, s.samplesCount, s.lastSampleTs);
    DefaultCurve(s.a.circulating);
    DefaultCurve(s.b.circulating);
    AccumulatorFits(s, A);
    AccumulatorFits(s, B);
  }

  lemma PricesBounded(s: MarketState, side: Side, i: nat)
    requires Inv(s) && i < |s.samples|
    ensures 1 <= Prices(s.samples, side)[i] <= 1_000_000_001
  {
    hide Total, Sum, Reserve, Price;
    DefaultCurve(SupplyAt(s.samples[i], side));
  }

  lemma AccumulatorFits(s: MarketState, side: Side)
    requires Inv(s)
    ensures s.samplesCount <= s.twapWindow + 1
    ensures s.SideAt(side).accumulator <= (U64_MAX + 1) * 1_000_000_001
  {
    hide Total, Reserve;
    forall i | 0 <= i < |s.samples| ensures 1 <= Prices(s.samples, side)[i] <= 1_000_000_001 {
      PricesBounded(s, side, i);
    }
    SumBounds(Prices(s.samples, side), 1, 1_000_000_001);
    SampleCountBound(s.deadline, s.twapWindow, s.twapInterval, s.samplesCount, s.lastSampleTs);
    DivBounds(s.twapWindow, s.twapInterval);
    MulMono(1, s.twapInterval, s.twapWindow / s.twapInterval, s.twapWindow / s.twapInterval);
  }

  /** What resolution averages: the accumulator is the sum of the recorded prices, there are no more of
      them than the window has room for, and the average lies between the lowest and the highest, so
      the cast that stores it loses nothing. */
  lemma TwapAccounting(s: MarketState, side: Side, lo: nat, hi: nat)
    requires Inv(s) && s.samplesCount > 0
    requires forall i :: 0 <= i < |s.samples| ==> lo <= Prices(s.samples, side)[i] <= hi <= U64_MAX
    ensures s.samplesCount <= s.twapWindow / s.twapInterval + 1
    ensures FinalTwap(s.SideAt(side).accumulator, s.samplesCount) == Ok(Sum(Prices(s.samples, side)) / |s.samples|)
    ensures lo <= Sum(Prices(s.samples, side)) / |s.samples| <= hi
  {
    hide Total, Reserve, Sum;
    SampleCountBound(s.deadline, s.twapWindow, s.twapInterval, s.samplesCount, s.lastSampleTs);
    assert Prices(s.samples, side)[0] <= hi;
    FinalTwapBetween(Prices(s.samples, side), lo, hi);
  }

  /** The final average of a side, once there is a sample. */
  lemma FinalTwapIs(s: MarketState, side: Side)
    requires Inv(s) && s.samplesCount > 0
    ensures FinalTwap(s.SideAt(side).accumulator, s.samplesCount) == Ok(Sum(Prices(s.samples, side)) / |s.samples|)
  {
    hide Inv, Total, Reserve, Sum;
    forall i | 0 <= i < |s.samples| ensures 1 <= Prices(s.samples, side)[i] <= 1_000_000_001 {
      PricesBounded(s, side, i);
    }
    TwapAccounting(s, side, 1, 1_000_000_001);
  }

  /** The crank schedule: the first sample as the window opens, then one every interval. */
  function Crank(s: MarketState, further: nat): seq<Event> {
    if further == 0 then [Event(Max(s.deadline - s.twapWindow - s.clock, 0), TakeSample)]
    else Crank(s, further - 1) + [Event(s.twapInterval, TakeSample)]
  }

  /** What one accepted sample changes. */
  lemma SampleStep(s: MarketState, wait: nat)
    requires Inv(s) && s.status != Resolved && s.samplesCount < U32_MAX
    requires s.deadline - s.twapWindow <= s.clock + wait <= s.deadline
    requires s.samplesCount == 0 || s.clock + wait - s.lastSampleTs >= s.twapInterval
    ensures var t := Apply(s, Event(wait, TakeSample));
            && Inv(t) && t.status == TwapObservation
            && t.samplesCount == s.samplesCount + 1
            && t.clock == t.lastSampleTs == s.clock + wait
            && t.deadline == s.deadline && t.twapWindow == s.twapWindow && t.twapInterval == s.twapInterval
  {
    hide Total, Sum, Reserve, SampleGuard, PriceOf, Prices, Later;
    SampleAcceptedExactly(s, s.clock + wait);
    ApplyKeeps(s, Event(wait, TakeSample));
  }

  /** The quorum can always be reached: on a fresh market the schedule's samples are all accepted, up to
      as many as the window has room for. */
  lemma {:induction false} CrankAccepted(s: MarketState, further: nat)
    requires Inv(s) && s.status == Active && s.clock <= s.deadline - s.twapWindow
    requires further * s.twapInterval <= s.twapWindow && further < U32_MAX
    ensures var t := Run(s, Crank(s, further));
            && Inv(t) && t.status == TwapObservation
            && t.samplesCount == further + 1
            && t.clock == t.lastSampleTs == s.deadline - s.twapWindow + further * s.twapInterval
            && t.deadline == s.deadline && t.twapWindow == s.twapWindow && t.twapInterval == s.twapInterval
  {
    hide Total, Sum, Reserve, Apply, SideInv;
    var start := s.deadline - s.twapWindow;
    if further == 0 {
      assert Run(s, Crank(s, 0)) == Run(Apply(s, Crank(s, 0)[0]), []);
      SampleStep(s, start - s.clock);
    } else {
      assert further * s.twapInterval == (further - 1) * s.twapInterval + s.twapInterval;
      CrankAccepted(s, further - 1);
      RunAppend(s, Crank(s, further - 1), Event(s.twapInterval, TakeSample));
      SampleStep(Run(s, Crank(s, further - 1)), s.twapInterval);
    }
  }

  /** So cranking the whole window, which has room for `further` samples after the first, or as far as samples can
      be counted, meets the quorum resolution asks for. */
  lemma QuorumReachable(s: MarketState, further: nat)
    requires Inv(s) && s.status == Active && s.clock <= s.deadline - s.twapWindow
    requires further * s.twapInterval <= s.twapWindow < (further + 1) * s.twapInterval
    ensures var t := Run(s, Crank(s, Min(further, U32_MAX - 1)));
            && MinSamples(t.twapWindow, t.twapInterval).Ok?
            && t.samplesCount >= MinSamples(t.twapWindow, t.twapInterval).value
  {
    hide Run, Crank, SideInv, Total;
    var cranked := Min(further, U32_MAX - 1);
    DivUnique(s.twapWindow, s.twapInterval, further);
    MulMono(cranked, further, s.twapInterval, s.twapInterval);
    CrankAccepted(s, cranked);
    QuorumAttainable(s.twapWindow, s.twapInterval);
    CastLowers(ExactQuorum(s.twapWindow, s.twapInterval));
  }

  // ---------- The winner ----------

  /** What resolution would decide now. */
  function Verdict(s: MarketState): Result<(nat, nat, Side)> {
    var twapA :- FinalTwap(s.a.accumulator, s.samplesCount);
    var twapB :- FinalTwap(s.b.accumulator, s.samplesCount);
    Ok((twapA, twapB, PickWinner(twapA, twapB, s.QuoteVault(A), s.QuoteVault(B))))
  }

  predicate Dominates(samples: seq<Sample>, side: Side) {
    forall i :: 0 <= i < |samples| ==> SupplyAt(samples[i], side) >= SupplyAt(samples[i], side.Other())
  }

  /** TWAP dominance: if one side has at least the other's supply at every sample, its final average is
      at least the other's, and it can lose only an exact tie, on the reserves. */
  lemma DominantSideWins(s: MarketState, side: Side)
    requires Inv(s) && s.samplesCount > 0 && Dominates(s.samples, side)
    ensures Verdict(s).Ok?
    ensures var v := Verdict(s).value;
            var (mine, other) := if side.A? then (v.0, v.1) else (v.1, v.0);
            && mine >= other
            && (v.2 != side ==>
                  mine == other
                  && s.QuoteVault(side.Other()) >= s.QuoteVault(side)
                  && (side.A? ==> s.QuoteVault(B) > s.QuoteVault(A)))
  {
    hide Total, Reserve, Sum, Price;
    FinalTwapIs(s, A);
    FinalTwapIs(s, B);
    var xs, ys := Prices(s.samples, side.Other()), Prices(s.samples, side);
    forall i | 0 <= i < |s.samples| ensures xs[i] <= ys[i] {
      PriceMono(SupplyAt(s.samples[i], side.Other()), SupplyAt(s.samples[i], side), DefaultParams());
    }
    FinalTwapMono(xs, ys);
  }

  /** At every sample the chain accepts in the run, `side` has at least the other side's supply. */
  predicate AheadAtSamples(s: MarketState, events: seq<Event>, side: Side)
    decreases |events|
  {
    events == [] ||
    (&& (events[0].action.TakeSample? && RecordSample(s, s.clock + events[0].wait).Ok? ==>
           s.SideAt(side).circulating >= s.SideAt(side.Other()).circulating)
     && AheadAtSamples(Apply(s, events[0]), events[1..], side))
  }

  /** Dominance over a run: the recorded samples are the supplies of the moments they were taken. */
  lemma {:induction false} AheadMeansDominant(s: MarketState, events: seq<Event>, side: Side)
    requires Dominates(s.samples, side) && AheadAtSamples(s, events, side)
    ensures Dominates(Run(s, events).samples, side)
    decreases |events|
  {
    if events == [] {
    } else {
      SampleRecorded(s, events[0], side);
      hide Apply;
      AheadMeansDominant(Apply(s, events[0]), events[1..], side);
    }
  }

  lemma SampleRecorded(s: MarketState, e: Event, side: Side)
    requires Dominates(s.samples, side)
    requires e.action.TakeSample? && RecordSample(s, s.clock + e.wait).Ok? ==>
               s.SideAt(side).circulating >= s.SideAt(side.Other()).circulating
    ensures Dominates(Apply(s, e).samples, side)
  {
    hide SampleGuard, PriceOf, SettlePurchase, SettleSale, SettleExit, Decide, SeedOutcome, Updated, Transfer, CheckedI64;
  }

  /** So the side that was ahead at every sample of a market's life can lose only an exact tie. */
  lemma AheadThroughoutWins(s: MarketState, events: seq<Event>, side: Side)
    requires Inv(s) && s.samples == [] && AheadAtSamples(s, events, side)
    requires Run(s, events).samplesCount > 0
    ensures Verdict(Run(s, events)).Ok?
    ensures var t := Run(s, events);
            var v := Verdict(t).value;
            v.2 != side ==>
              && v.0 == v.1 && t.QuoteVault(side.Other()) >= t.QuoteVault(side)
              && (side.A? ==> t.QuoteVault(B) > t.QuoteVault(A))
  {
    hide Inv, Run, AheadAtSamples, Verdict;
    RunKeeps(s, events);
    AheadMeansDominant(s, events, side);
    DominantSideWins(Run(s, events), side);
  }

  /** An action that moves WSOL into a quote vault from outside the program. */
  predicate FundsVault(action: Action) {
    action.HolderTransfer? && action.asset.Wsol? && action.dest.Vault?
  }

  lemma TradingCloses(s: MarketState, now: int, o: Order)
    requires now >= s.deadline
    ensures Buy(s, now, o).Err? && Sell(s, now, o).Err?
  {
    hide Transfer, TransferIfPositive, TradeFees, TokensOut, SolOut, PriceOf;
  }

  lemma SamplingCloses(s: MarketState, now: int)
    requires now > s.deadline
    ensures RecordSample(s, now).Err?
  {
    hide PriceOf;
  }

  lemma OtherWaysToSpend(s: MarketState, now: int, action: Action)
    requires s.status != Resolved && now > s.deadline && Step(s, now, action).Ok?
    requires Step(s, now, action).value.status != Resolved
    ensures action.UpdateConfig? || action.HolderTransfer?
  {
    hide Buy, Sell, RecordSample, Graduate, ExternalTransfer, SolOut, Transfer;
    match action
    case BuyTokens(o) => TradingCloses(s, now, o);
    case SellTokens(o) => TradingCloses(s, now, o);
    case SellAfterDraw(o) =>
    case TakeSample => SamplingCloses(s, now);
    case ResolveAndGraduate(expected, tokenDest, wsolDest) =>
      var _, _, _, _, _, _ := GraduateParts(s, now, expected, tokenDest, wsolDest);
    case EmergencyResolve =>
    case UpdateConfig(_, _) =>
    case CloseQuoteVault(_) =>
    case HolderTransfer(_, _, _, _) =>
  }

  /** After the deadline nothing short of resolution touches what decides the winner. */
  lemma DecidedAfterDeadline(s: MarketState, now: int, action: Action)
    requires s.status != Resolved && now > s.deadline && Step(s, now, action).Ok?
    requires Step(s, now, action).value.status != Resolved
    ensures var s' := Step(s, now, action).value;
            && s'.a.accumulator == s.a.accumulator && s'.b.accumulator == s.b.accumulator
            && s'.samplesCount == s.samplesCount
            && (!FundsVault(action) ==> forall side :: s'.QuoteVault(side) == s.QuoteVault(side))
  {
    OtherWaysToSpend(s, now, action);
    hide Buy, Sell, RecordSample, Graduate, SellPostResolution, CloseVaults, EmergencyDraw, Transfer, Total;
    if action.HolderTransfer? && action.asset.Wsol? {
      TransferMoves(s.wsol, Wallet(action.wallet), action.dest, action.amount);
    }
  }

  /** The averages are final from the deadline on, and the winner with them: only an exact tie can still
      be moved, and only by giving money to a vault. */
  lemma {:induction false} VerdictFrozen(s: MarketState, events: seq<Event>)
    requires Inv(s) && s.clock > s.deadline && Run(s, events).status != Resolved
    ensures Verdict(s).Ok? <==> Verdict(Run(s, events)).Ok?
    ensures Verdict(s).Ok? ==>
              var v, v' := Verdict(s).value, Verdict(Run(s, events)).value;
              && v'.0 == v.0 && v'.1 == v.1
              && (v.0 != v.1 || (forall e :: e in events ==> !FundsVault(e.action)) ==> v'.2 == v.2)
    decreases |events|
  {
    hide Total, Reserve, Sum, Prices, Step, FinalTwap, FundsVault;
    if events == [] {
    } else {
      var now := s.clock + events[0].wait;
      var next := Apply(s, events[0]);
      ApplyKeeps(s, events[0]);
      RunKeeps(next, events[1..]);
      if Step(s, now, events[0].action).Ok? {
        DecidedAfterDeadline(s, now, events[0].action);
      }
      VerdictFrozen(next, events[1..]);
    }
  }

  // ---------- Graduation ----------

  /** When a market can graduate, in terms a resolver can check beforehand. */
  predicate CanGraduate(s: MarketState, now: int, expected: nat, tokenDest: Account, wsolDest: Account) {
    && s.status != Resolved && now >= s.deadline
    && MinSamples(s.twapWindow, s.twapInterval).Ok?
    && s.samplesCount >= MinSamples(s.twapWindow, s.twapInterval).value
    && Verdict(s).Ok?
    && var winner := Verdict(s).value.2;
    && expected == winner.Index()
    && s.QuoteVault(A) + s.QuoteVault(B) >= 100_000_000
    && s.TokenVault(winner) > 0
    && tokenDest in s.SideAt(winner).tokens && wsolDest in s.wsol
  }

  lemma GraduateSucceeds(s: MarketState, now: int, expected: nat, tokenDest: Account, wsolDest: Account)
    requires Inv(s) && CanGraduate(s, now, expected, tokenDest, wsolDest)
    ensures Graduate(s, now, expected, tokenDest, wsolDest).Ok?
  {
    hide Total, Reserve, Sum, Prices, MinSamples, FinalTwap, Transfer, Graduated, SeededPool;
    var winner := Verdict(s).value.2;
    var loser := winner.Other();
    HasFunds(s.wsol, Vault(loser), Vault(winner), s.QuoteVault(loser));
    OptionalTransferMoves(s.wsol, Vault(loser), Vault(winner), s.QuoteVault(loser));
    var w1 := TransferIfPositive(s.wsol, Vault(loser), Vault(winner), s.QuoteVault(loser)).value;
    HasFunds(w1, Vault(winner), wsolDest, Balance(w1, Vault(winner)));
    HasFunds(s.SideAt(winner).tokens, Vault(winner), tokenDest, s.TokenVault(winner));
  }

  /** Graduation succeeds exactly when the deadline has passed with a quorum, the caller names the right
      winner, the two reserves reach 0.1 SOL and the winner's stock is not sold out. */
  lemma GraduateSucceedsExactly(s: MarketState, now: int, expected: nat, tokenDest: Account, wsolDest: Account)
    requires Inv(s)
    ensures Graduate(s, now, expected, tokenDest, wsolDest).Ok? <==> CanGraduate(s, now, expected, tokenDest, wsolDest)
  {
    hide Total, Reserve, Sum, Prices, Graduate, CanGraduate;
    if CanGraduate(s, now, expected, tokenDest, wsolDest) {
      GraduateSucceeds(s, now, expected, tokenDest, wsolDest);
    } else if Graduate(s, now, expected, tokenDest, wsolDest).Ok? {
      GraduateOnlyIf(s, now, expected, tokenDest, wsolDest);
    }
  }

  lemma GraduateOnlyIf(s: MarketState, now: int, expected: nat, tokenDest: Account, wsolDest: Account)
    requires Inv(s) && Graduate(s, now, expected, tokenDest, wsolDest).Ok?
    ensures CanGraduate(s, now, expected, tokenDest, wsolDest)
  {
    hide Total, Reserve, Sum, Prices, Graduate, MinSamples, FinalTwap, TransferIfPositive, Graduated, SeededPool;
    var winner, twapA, twapB, w1, w2, held := GraduateParts(s, now, expected, tokenDest, wsolDest);
    OptionalTransferMoves(s.wsol, Vault(winner.Other()), Vault(winner), s.QuoteVault(winner.Other()));
  }

  /** Graduation takes both reserves in full: exactly the contents of the two quote vaults and of the winner's
      token vault go to the pool's seeds, and the verdict is recorded. Nothing stays behind unless a seed
      account is itself a vault. */
  lemma GraduationMovesEverything(s: MarketState, now: int, expected: nat, tokenDest: Account, wsolDest: Account)
    requires Inv(s) && Graduate(s, now, expected, tokenDest, wsolDest).Ok?
    ensures Verdict(s).Ok?
    ensures var s', v := Graduate(s, now, expected, tokenDest, wsolDest).value, Verdict(s).value;
            var sol, tokens := s.QuoteVault(A) + s.QuoteVault(B), s.TokenVault(v.2);
            && s'.status == Resolved && s'.winner == Some(v.2) && s'.finalTwapA == v.0 && s'.finalTwapB == v.1
            && (forall x: Account ::
                  Balance(s'.wsol, x) + (if x.Vault? then s.QuoteVault(x.side) else 0)
                  == Balance(s.wsol, x) + (if x == wsolDest then sol else 0))
            && (forall x: Account ::
                  Balance(s'.SideAt(v.2).tokens, x) + (if x == Vault(v.2) then tokens else 0)
                  == Balance(s.SideAt(v.2).tokens, x) + (if x == tokenDest then tokens else 0))
            && s'.wsol.Keys == s.wsol.Keys && s'.SideAt(v.2).tokens.Keys == s.SideAt(v.2).tokens.Keys
            && (wsolDest.Wallet? ==> s'.QuoteVault(A) == 0 && s'.QuoteVault(B) == 0)
            && (tokenDest.Wallet? ==> s'.TokenVault(v.2) == 0)
            && s'.SideAt(v.2.Other()) == s.SideAt(v.2.Other())
            && s'.SideAt(v.2) == s.SideAt(v.2).(tokens := s'.SideAt(v.2).tokens)
            && s' == s.(a := s'.a, b := s'.b, wsol := s'.wsol, pool := s'.pool,
                        status := Resolved, winner := Some(v.2), finalTwapA := v.0, finalTwapB := v.1)
            && s'.pool == Some(SeededPool(sol, tokens))
  {
    hide Inv, Total, Reserve, Sum, Prices, Graduate, MinSamples, FinalTwap, TransferIfPositive, Transfer, SeededPool;
    var winner, twapA, twapB, w1, w2, held := GraduateParts(s, now, expected, tokenDest, wsolDest);
    SeedsMove(s.wsol, s.SideAt(winner).tokens, winner, tokenDest, wsolDest, w1, w2, held);
    hide Balance;
  }

  lemma SeedsMove(wsol: Balances, tokens: Balances, winner: Side, tokenDest: Account, wsolDest: Account,
                  w1: Balances, w2: Balances, held: Balances)
    requires TransferIfPositive(wsol, Vault(winner.Other()), Vault(winner), Balance(wsol, Vault(winner.Other()))) == Ok(w1)
    requires Transfer(w1, Vault(winner), wsolDest, Balance(w1, Vault(winner))) == Ok(w2)
    requires Transfer(tokens, Vault(winner), tokenDest, Balance(tokens, Vault(winner))) == Ok(held)
    ensures Balance(w1, Vault(winner)) == Balance(wsol, Vault(A)) + Balance(wsol, Vault(B))
    ensures w2.Keys == wsol.Keys && held.Keys == tokens.Keys
    ensures forall x: Account ::
              Balance(w2, x) + (if x.Vault? then Balance(wsol, x) else 0)
              == Balance(wsol, x) + (if x == wsolDest then Balance(w1, Vault(winner)) else 0)
    ensures forall x: Account ::
              Balance(held, x) + (if x == Vault(winner) then Balance(tokens, x) else 0)
              == Balance(tokens, x) + (if x == tokenDest then Balance(tokens, Vault(winner)) else 0)
  {
    hide Total, Transfer, TransferIfPositive, Balance;
    var lost, sol, stock := Balance(wsol, Vault(winner.Other())), Balance(w1, Vault(winner)), Balance(tokens, Vault(winner));
    OptionalTransferMoves(wsol, Vault(winner.Other()), Vault(winner), lost);
    TransferMoves(w1, Vault(winner), wsolDest, sol);
    TransferMoves(tokens, Vault(winner), tokenDest, stock);
    MovedBalance(wsol, Vault(winner.Other()), Vault(winner), lost, w1, Vault(winner));
    forall x: Account
      ensures Balance(w2, x) + (if x.Vault? then Balance(wsol, x) else 0)
              == Balance(wsol, x) + (if x == wsolDest then sol else 0)
    {
      MovedBalance(wsol, Vault(winner.Other()), Vault(winner), lost, w1, x);
      MovedBalance(w1, Vault(winner), wsolDest, sol, w2, x);
    }
    forall x: Account
      ensures Balance(held, x) + (if x == Vault(winner) then Balance(tokens, x) else 0)
              == Balance(tokens, x) + (if x == tokenDest then stock else 0)
    {
      MovedBalance(tokens, Vault(winner), tokenDest, stock, held, x);
    }
  }

  /** Every graduated market seeds a valid pool with all that the vaults held: the price is the square root of
      their ratio in Q64.64, rounded down to a multiple of 2^32, and in the DEX's range exactly unless almost
      2^64 units are seeded with the last token; the liquidity is what the tokens are worth at that price, and
      so the geometric mean of the seeds to within 2. */
  lemma GraduationSeedsValidPool(s: MarketState, now: int, expected: nat, tokenDest: Account, wsolDest: Account)
    requires Inv(s) && Graduate(s, now, expected, tokenDest, wsolDest).Ok?
    ensures Verdict(s).Ok? && Graduate(s, now, expected, tokenDest, wsolDest).value.pool.Some?
    ensures var pool := Graduate(s, now, expected, tokenDest, wsolDest).value.pool.value;
            && pool.sol == s.QuoteVault(A) + s.QuoteVault(B)
            && pool.tokens == s.TokenVault(Verdict(s).value.2)
            && IsPool(pool)
            && pool.liquidity * pool.liquidity <= pool.sol * pool.tokens
               < (pool.liquidity + 2) * (pool.liquidity + 2)
            && (4_295_048_016 <= pool.sqrtPrice <= 79_226_673_521_066_979_257_578_248_091 <==>
                pool.tokens > 1 || pool.sol < 18_446_050_713_735_950_761)
  {
    hide Reserve, Sum, Prices, Graduate, Transfer, TransferIfPositive, SeededPool, MinSamples, IsPool;
    GraduationMovesEverything(s, now, expected, tokenDest, wsolDest);
    GraduateOnlyIf(s, now, expected, tokenDest, wsolDest);
    var winner := Verdict(s).value.2;
    TotalBounds(s.wsol, Vault(A), Vault(B));
    BalanceBound(s.SideAt(winner).tokens, Vault(winner));
    PoolIsValid(s.QuoteVault(A) + s.QuoteVault(B), s.TokenVault(winner));
  }

  /** A pool's price and liquidity follow from its seeds. */
  predicate IsPool(pool: Pool) {
    var P := pool.sqrtPrice;
    && P % 0x1_0000_0000 == 0
    && P * P * pool.tokens <= pool.sol * 0x1_0000_0000_0000_0000_0000_0000_0000_0000
       < (P + 0x1_0000_0000) * (P + 0x1_0000_0000) * pool.tokens
    && pool.liquidity * 0x1_0000_0000_0000_0000 <= pool.tokens * P < (pool.liquidity + 1) * 0x1_0000_0000_0000_0000
  }

  lemma PoolIsValid(sol: nat, tokens: nat)
    requires 100_000_000 <= sol <= U64_MAX && 1 <= tokens <= TOTAL_SUPPLY_PER_SIDE
    ensures var pool := SeededPool(sol, tokens);
            && IsPool(pool)
            && pool.liquidity * pool.liquidity <= pool.sol * pool.tokens
               < (pool.liquidity + 2) * (pool.liquidity + 2)
            && (4_295_048_016 <= pool.sqrtPrice <= 79_226_673_521_066_979_257_578_248_091 <==>
                tokens > 1 || sol < 18_446_050_713_735_950_761)
            && pool.sol == sol && pool.tokens == tokens
  {
    hide Root, IsPool;
    SeedLiquidityWithinTwo(sol, tokens);
    SqrtPriceInPoolRange(sol, tokens);
    PoolFollows(sol, tokens);
  }

  lemma PoolFollows(sol: nat, tokens: nat)
    requires 100_000_000 <= sol <= U64_MAX && 1 <= tokens <= TOTAL_SUPPLY_PER_SIDE
    ensures IsPool(SeededPool(sol, tokens))
  {
    SqrtPriceBracket(sol, tokens);
    SqrtPriceMultiple(sol, tokens);
    LiquidityAtPrice(sol, tokens);
    hide SqrtPriceQ64, InitialLiquidity;
  }
}

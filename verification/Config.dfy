/** The global protocol configuration, its bounds, and the fee split every handler shares. */
module Config {
  import opened Common
  import opened Arithmetic
  import opened Ledger

  datatype Settings = Settings(
    admin: nat,
    paused: bool,
    protocolFee: Account,
    tradeFeeBps: nat,
    creatorFeeSplitBps: nat,
    marketCreationFee: u64,
    minMarketDuration: nat)

  /** What every reachable configuration satisfies. */
  predicate InBounds(c: Settings) {
    && c.tradeFeeBps <= 500
    && c.creatorFeeSplitBps <= 10_000
    && c.minMarketDuration >= 10
  }

  function InitialSettings(admin: nat, protocolFee: Account, tradeFeeBps: nat, creatorFeeSplitBps: nat,
                           marketCreationFee: u64): Result<Settings>
  {
    var _ :- Require(tradeFeeBps <= MAX_TRADE_FEE_BPS, InvalidFeeConfig);
    var _ :- Require(creatorFeeSplitBps <= BPS_DENOMINATOR, InvalidFeeConfig);
    Ok(Settings(admin, false, protocolFee, tradeFeeBps, creatorFeeSplitBps, marketCreationFee, MIN_MARKET_DURATION))
  }

  /** A configuration starts unpaused, with the fees it was given if they are within bounds and the shortest
      duration a market may have. */
  lemma InitialExactly(admin: nat, protocolFee: Account, tradeFeeBps: nat, creatorFeeSplitBps: nat, marketCreationFee: u64)
    ensures var r := InitialSettings(admin, protocolFee, tradeFeeBps, creatorFeeSplitBps, marketCreationFee);
            && (r.Ok? <==> tradeFeeBps <= 500 && creatorFeeSplitBps <= 10_000)
            && (r.Err? ==> r == Err(InvalidFeeConfig))
            && (r.Ok? ==>
                  && InBounds(r.value) && r.value.admin == admin && !r.value.paused && r.value.protocolFee == protocolFee
                  && r.value.tradeFeeBps == tradeFeeBps && r.value.creatorFeeSplitBps == creatorFeeSplitBps
                  && r.value.marketCreationFee == marketCreationFee && r.value.minMarketDuration == 10)
  {
  }

  /** An update carries only the settings it changes. */
  datatype Update = Update(
    paused: Option<bool>,
    tradeFeeBps: Option<nat>,
    creatorFeeSplitBps: Option<nat>,
    marketCreationFee: Option<u64>,
    minMarketDuration: Option<nat>,
    protocolFee: Option<Account>,
    admin: Option<nat>)

  function GetOr<T>(o: Option<T>, default: T): T {
    match o
    case Some(v) => v
    case None => default
  }

  function Updated(c: Settings, signer: nat, u: Update): Result<Settings> {
    var _ :- Require(signer == c.admin, InvalidMarketConfig);
    var _ :- Require(GetOr(u.tradeFeeBps, 0) <= MAX_TRADE_FEE_BPS, InvalidFeeConfig);
    var _ :- Require(GetOr(u.creatorFeeSplitBps, 0) <= BPS_DENOMINATOR, InvalidFeeConfig);
    var _ :- Require(GetOr(u.minMarketDuration, MIN_MARKET_DURATION) >= MIN_MARKET_DURATION, InvalidMarketConfig);
    Ok(Settings(
         GetOr(u.admin, c.admin),
         GetOr(u.paused, c.paused),
         GetOr(u.protocolFee, c.protocolFee),
         GetOr(u.tradeFeeBps, c.tradeFeeBps),
         GetOr(u.creatorFeeSplitBps, c.creatorFeeSplitBps),
         GetOr(u.marketCreationFee, c.marketCreationFee),
         GetOr(u.minMarketDuration, c.minMarketDuration)))
  }

  /** A setting after an update: the new one if the update carries one, and otherwise the old one. */
  predicate Applied<T(==)>(after: T, given: Option<T>, before: T) {
    (given.Some? ==> after == given.value) && (given.None? ==> after == before)
  }

  /** Exactly when an update is accepted, with which error it is refused, and that it sets what it carries and
      nothing else. */
  lemma UpdateExactly(c: Settings, signer: nat, u: Update)
    ensures var r := Updated(c, signer, u);
            var feesFit := (u.tradeFeeBps.Some? ==> u.tradeFeeBps.value <= 500)
                           && (u.creatorFeeSplitBps.Some? ==> u.creatorFeeSplitBps.value <= 10_000);
            && (r.Ok? <==> signer == c.admin && feesFit && (u.minMarketDuration.Some? ==> u.minMarketDuration.value >= 10))
            && (r.Err? ==> r.error == if signer == c.admin && !feesFit then InvalidFeeConfig else InvalidMarketConfig)
            && (r.Ok? ==>
                  && Applied(r.value.admin, u.admin, c.admin) && Applied(r.value.paused, u.paused, c.paused)
                  && Applied(r.value.protocolFee, u.protocolFee, c.protocolFee)
                  && Applied(r.value.tradeFeeBps, u.tradeFeeBps, c.tradeFeeBps)
                  && Applied(r.value.creatorFeeSplitBps, u.creatorFeeSplitBps, c.creatorFeeSplitBps)
                  && Applied(r.value.marketCreationFee, u.marketCreationFee, c.marketCreationFee)
                  && Applied(r.value.minMarketDuration, u.minMarketDuration, c.minMarketDuration))
  {
  }

  /** Fee bounds hold from creation on, through any sequence of updates by anyone. */
  function UpdatedBy(c: Settings, updates: seq<(nat, Update)>): Settings
    decreases |updates|
  {
    if updates == [] then c
    else
      var next := Updated(c, updates[0].0, updates[0].1);
      UpdatedBy(if next.Ok? then next.value else c, updates[1..])
  }

  lemma {:induction false} BoundsKept(c: Settings, updates: seq<(nat, Update)>)
    requires InBounds(c)
    ensures InBounds(UpdatedBy(c, updates))
    decreases |updates|
  {
    if updates == [] {
    } else {
      var next := Updated(c, updates[0].0, updates[0].1);
      BoundsKept(if next.Ok? then next.value else c, updates[1..]);
    }
  }

  /** Nobody but the admin changes anything. */
  lemma {:induction false} OnlyAdminUpdates(c: Settings, updates: seq<(nat, Update)>)
    requires forall i :: 0 <= i < |updates| ==> updates[i].0 != c.admin
    ensures UpdatedBy(c, updates) == c
  {
    if updates == [] {
    } else {
      OnlyAdminUpdates(c, updates[1..]);
    }
  }

  // ---------- Fees ----------

  datatype Fees = Fees(trade: nat, creator: nat, protocol: nat, net: nat)

  function BpsOf(amount: nat, bps: nat): Result<nat> {
    var product :- CheckedMul(amount, bps, U128_MAX);
    Ok(AsU64(product / BPS_DENOMINATOR))
  }

  function TradeFees(gross: nat, c: Settings): Result<Fees> {
    var trade :- BpsOf(gross, c.tradeFeeBps);
    var creator :- BpsOf(trade, c.creatorFeeSplitBps);
    var protocol :- CheckedSub(trade, creator);
    var net :- CheckedSub(gross, trade);
    Ok(Fees(trade, creator, protocol, net))
  }

  /** The split of an amount; `FeesSplitExactly` says it exists for every u64. */
  function FeesOf(gross: nat, c: Settings): Fees {
    match TradeFees(gross, c)
    case Ok(fees) => fees
    case Err(_) => Fees(0, 0, 0, gross)
  }

  lemma BpsExact(amount: nat, bps: nat)
    requires amount <= U64_MAX && bps <= BPS_DENOMINATOR
    ensures amount * bps / BPS_DENOMINATOR <= amount
    ensures BpsOf(amount, bps) == Ok(amount * bps / BPS_DENOMINATOR)
  {
    MulMono(amount, amount, bps, BPS_DENOMINATOR);
    DivMono(amount * bps, amount * BPS_DENOMINATOR, BPS_DENOMINATOR);
    MulMono(amount, U64_MAX, bps, BPS_DENOMINATOR);
  }

  /** Under every reachable configuration the fee arithmetic neither fails nor truncates: the fee is its rate of the
      amount, the creator's part its rate of the fee, both rounded down, and the protocol and the trader have
      the rest. The fee is at most a twentieth of the amount. */
  lemma FeesSplitExactly(gross: nat, c: Settings)
    requires gross <= U64_MAX && InBounds(c)
    ensures TradeFees(gross, c).Ok?
    ensures var f := TradeFees(gross, c).value;
            && f.net + f.protocol + f.creator == gross
            && f.trade == f.protocol + f.creator == gross * c.tradeFeeBps / 10_000
            && f.creator == f.trade * c.creatorFeeSplitBps / 10_000
            && 20 * f.trade <= gross
  {
    BpsExact(gross, c.tradeFeeBps);
    var trade := gross * c.tradeFeeBps / BPS_DENOMINATOR;
    BpsExact(trade, c.creatorFeeSplitBps);
    MulMono(gross, gross, c.tradeFeeBps, MAX_TRADE_FEE_BPS);
  }

  /** The configuration account. */
  class ProgramConfig {
    var admin: nat
    var paused: bool
    var protocolFee: Account
    var tradeFeeBps: nat
    var creatorFeeSplitBps: nat
    var marketCreationFee: u64
    var minMarketDuration: nat

    ghost function Current(): Settings
      reads this
    {
      Settings(admin, paused, protocolFee, tradeFeeBps, creatorFeeSplitBps, marketCreationFee, minMarketDuration)
    }

    constructor (s: Settings)
      ensures Current() == s
    {
      admin, paused, protocolFee := s.admin, s.paused, s.protocolFee;
      tradeFeeBps, creatorFeeSplitBps := s.tradeFeeBps, s.creatorFeeSplitBps;
      marketCreationFee, minMarketDuration := s.marketCreationFee, s.minMarketDuration;
    }

    static method Initialize(admin: nat, protocolFee: Account, tradeFeeBps: nat, creatorFeeSplitBps: nat,
                             marketCreationFee: u64)
      returns (r: Result<ProgramConfig>)
      ensures match InitialSettings(admin, protocolFee, tradeFeeBps, creatorFeeSplitBps, marketCreationFee)
              case Ok(s) => r.Ok? && fresh(r.value) && r.value.Current() == s
              case Err(e) => r == Err(e)
    {
      if tradeFeeBps > MAX_TRADE_FEE_BPS || creatorFeeSplitBps > BPS_DENOMINATOR {
        return Err(InvalidFeeConfig);
      }
      var config := new ProgramConfig(
        Settings(admin, false, protocolFee, tradeFeeBps, creatorFeeSplitBps, marketCreationFee, MIN_MARKET_DURATION));
      return Ok(config);
    }

    method Restore(s: Settings)
      modifies this
      ensures Current() == s
    {
      admin, paused, protocolFee := s.admin, s.paused, s.protocolFee;
      tradeFeeBps, creatorFeeSplitBps := s.tradeFeeBps, s.creatorFeeSplitBps;
      marketCreationFee, minMarketDuration := s.marketCreationFee, s.minMarketDuration;
    }

    method Read() returns (s: Settings)
      ensures s == Current()
    {
      return Settings(admin, paused, protocolFee, tradeFeeBps, creatorFeeSplitBps, marketCreationFee, minMarketDuration);
    }

    /** Settings are overwritten one by one; a bound that fails halfway reverts the whole instruction. */
    method ApplyUpdate(signer: nat, u: Update) returns (r: Result<()>)
      modifies this
      ensures match Updated(old(Current()), signer, u)
              case Ok(s) => r == Ok(()) && Current() == s
              case Err(e) => r == Err(e) && Current() == old(Current())
    {
      if signer != admin {
        return Err(InvalidMarketConfig);
      }
      var before := Read();
      if u.paused.Some? {
        paused := u.paused.value;
      }
      if u.tradeFeeBps.Some? {
        if u.tradeFeeBps.value > MAX_TRADE_FEE_BPS {
          Restore(before);
          return Err(InvalidFeeConfig);
        }
        tradeFeeBps := u.tradeFeeBps.value;
      }
      if u.creatorFeeSplitBps.Some? {
        if u.creatorFeeSplitBps.value > BPS_DENOMINATOR {
          Restore(before);
          return Err(InvalidFeeConfig);
        }
        creatorFeeSplitBps := u.creatorFeeSplitBps.value;
      }
      if u.marketCreationFee.Some? {
        marketCreationFee := u.marketCreationFee.value;
      }
      if u.minMarketDuration.Some? {
        if u.minMarketDuration.value < MIN_MARKET_DURATION {
          Restore(before);
          return Err(InvalidMarketConfig);
        }
        minMarketDuration := u.minMarketDuration.value;
      }
      if u.protocolFee.Some? {
        protocolFee := u.protocolFee.value;
      }
      if u.admin.Some? {
        admin := u.admin.value;
      }
      return Ok(());
    }
  }
}

/** The ledger: the rows of the tables the three serverless functions read and write
    (`trades`, `subscriptions`, `subscription_trade_accounts`, `copied_trades`,
    `signal_accounts`, `performance_stats`), the outcomes of a handler, and the
    database object that holds the tables. Money, prices and lot sizes are `real`. */
module Ledger {

  datatype Option<T> = None | Some(value: T)

  /** A row identifier as the store hands it out (a uuid string). */
  type Id = string

  /** An ISO-8601 time stamp, as `new Date().toISOString()` produces; the clock is a parameter. */
  type Timestamp = string

  /** `subscriptions.status`. */
  datatype SubscriptionStatus = Active | Trial | Expired | Cancelled

  /** `performance_stats.period`. */
  datatype Period = Daily | Weekly | Monthly | Yearly | AllTime

  /** A row of `trades`. The status is kept as the opaque, nullable string the rows
      carry: the trade form writes "open", the schema lists "Open" and "Closed", and
      the close handler writes "Closed". */
  datatype Trade = Trade(
    id: Id,
    signalAccountId: Id,
    symbol: string,
    openPrice: real,
    currentPrice: Option<real>,
    lotSize: real,
    status: Option<string>,
    profit: Option<real>,
    closeTime: Option<Timestamp>)

  /** A row of `subscriptions`. */
  datatype Subscription = Subscription(
    id: Id,
    subscriberId: Id,
    signalAccountId: Id,
    status: Option<SubscriptionStatus>,
    lotSizeMultiplier: Option<real>)

  /** A row of `subscription_trade_accounts`: links a subscription to one of the
      subscriber's trade accounts; each link can be switched off on its own. */
  datatype SubscriptionTradeAccount = SubscriptionTradeAccount(
    subscriptionId: Id,
    tradeAccountId: Id,
    isActive: Option<bool>)

  /** A row of `copied_trades`. The store generates its id; the model numbers rows. */
  datatype CopiedTrade = CopiedTrade(
    id: nat,
    tradeId: Id,
    subscriptionId: Id,
    tradeAccountId: Id,
    lotSize: real,
    status: Option<string>,
    profit: Option<real>,
    openTime: Timestamp,
    closeTime: Option<Timestamp>)

  /** The columns of `signal_accounts` the aggregation reads. */
  datatype SignalAccount = SignalAccount(id: Id, isActive: Option<bool>)

  /** A row of `performance_stats`. */
  datatype PerformanceStats = PerformanceStats(
    signalAccountId: Id,
    period: Period,
    returnPercentage: real,
    winRate: real,
    drawdown: real,
    totalTrades: nat,
    winningTrades: nat,
    losingTrades: nat,
    calculatedAt: Timestamp)

  /** The key a stats row is written under. */
  datatype StatsKey = StatsKey(signalAccountId: Id, period: Period)

  /** A failure reported by the store during one invocation of a handler: the n-th
      read query (counted from 0) or the n-th write returns an error. */
  datatype Fault = NoFault | ReadFails(n: nat) | WriteFails(n: nat)

  /** The error a handler answers with (HTTP 400 with `{ error }`). */
  datatype Error =
    | TradeIdRequired              // "Trade ID is required"
    | TradeIdAndClosePriceRequired // "Trade ID and close price are required"
    | FetchTradeFailed(notFound: bool) // "Error fetching trade: ..."; `notFound` marks the lookup that found no row
    | FetchSubscriptionsFailed     // "Error fetching subscriptions: ..."
    | CreateCopiedTradeFailed      // "Error creating copied trade: ..."
    | UpdateTradeFailed            // "Error updating trade: ..."
    | FetchCopiedTradesFailed      // "Error fetching copied trades: ..."
    | UpdateCopiedTradeFailed      // "Error updating copied trade: ..."
    | FetchSignalAccountsFailed    // "Error fetching signal accounts: ..."
    | FetchTradesFailed            // "Error fetching trades: ..."
    | UpdatePerformanceStatsFailed // "Error updating performance stats: ..."

  datatype Result<T> = Ok(value: T) | Err(error: Error)

  /** JavaScript truthiness of an optional id from the request body: missing, null and "" are falsy. */
  predicate IdGiven(id: Option<Id>) {
    id.Some? && id.value != ""
  }

  /** JavaScript truthiness of an optional number: missing, null and 0 are falsy. */
  predicate NumberTruthy(x: Option<real>) {
    x.Some? && x.value != 0.0
  }

  /** `.eq("id", id).single()` on `trades`: the position of the row with that id. */
  function TradeIndex(trades: seq<Trade>, id: Id): (r: Option<nat>)
    ensures r.Some? ==> r.value < |trades| && trades[r.value].id == id
    ensures r.None? <==> forall i :: 0 <= i < |trades| ==> trades[i].id != id
  {
    if trades == [] then None
    else if trades[0].id == id then Some(0)
    else match TradeIndex(trades[1..], id)
      case None => None
      case Some(i) => Some(i + 1)
  }

  /** `trades.id` is the primary key. */
  ghost predicate UniqueTradeIds(trades: seq<Trade>) {
    forall i, j :: 0 <= i < j < |trades| ==> trades[i].id != trades[j].id
  }

  /** Copied-trade ids are handed out in increasing order, below the next free one. */
  ghost predicate CopiedIdsBelow(copied: seq<CopiedTrade>, next: nat) {
    && (forall i, j :: 0 <= i < j < |copied| ==> copied[i].id < copied[j].id)
    && (forall i :: 0 <= i < |copied| ==> copied[i].id < next)
  }

  /** With unique ids, the row found is the only one with that id. */
  lemma TradeIndexUnique(trades: seq<Trade>, id: Id, j: nat)
    requires UniqueTradeIds(trades)
    requires j < |trades| && trades[j].id == id
    ensures TradeIndex(trades, id) == Some(j)
  {
  }

  /** The tables of the backing database. */
  class Database {
    var trades: seq<Trade>
    var subscriptions: seq<Subscription>
    var subscriptionTradeAccounts: seq<SubscriptionTradeAccount>
    var copiedTrades: seq<CopiedTrade>
    var nextCopiedTradeId: nat
    var signalAccounts: seq<SignalAccount>
    var performanceStats: map<StatsKey, PerformanceStats>

    /** The key constraints the store maintains. */
    ghost predicate Valid()
      reads this
    {
      UniqueTradeIds(trades) && CopiedIdsBelow(copiedTrades, nextCopiedTradeId)
    }

    /** A database holding the given trades, subscriptions, links and signal accounts,
        and no copied trades or stats yet. */
    constructor (trades: seq<Trade>, subscriptions: seq<Subscription>,
                 links: seq<SubscriptionTradeAccount>, signalAccounts: seq<SignalAccount>)
      requires UniqueTradeIds(trades)
      ensures Valid()
      ensures this.trades == trades && this.subscriptions == subscriptions
      ensures this.subscriptionTradeAccounts == links && this.signalAccounts == signalAccounts
      ensures copiedTrades == [] && nextCopiedTradeId == 0 && performanceStats == map[]
    {
      this.trades := trades;
      this.subscriptions := subscriptions;
      this.subscriptionTradeAccounts := links;
      this.signalAccounts := signalAccounts;
      copiedTrades := [];
      nextCopiedTradeId := 0;
      performanceStats := map[];
    }
  }
}

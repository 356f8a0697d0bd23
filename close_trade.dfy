/** The reconciliation handler (`POST /close-trade`): close the source trade with the
    caller's close price and profit, then close every copied trade derived from it, each
    with the profit scaled by its lot size relative to the source trade's. */
module CloseTrade {
  import opened Ledger
  import CopyTrade

  /** The status the handler writes, for the trade and for its copies. */
  const ClosedStatus: string := "Closed"

  /** The source trade after its update: status "Closed", the close price as current
      price, the caller's profit and the close time; every other column is kept. */
  function CloseSource(t: Trade, closePrice: real, profit: real, now: Timestamp): (r: Trade)
    ensures r.status == Some(ClosedStatus) && r.currentPrice == Some(closePrice)
    ensures r.profit == Some(profit) && r.closeTime == Some(now)
    ensures r.(status := t.status, currentPrice := t.currentPrice, profit := t.profit, closeTime := t.closeTime) == t
  {
    t.(status := Some(ClosedStatus), currentPrice := Some(closePrice), profit := Some(profit), closeTime := Some(now))
  }

  /** The copy's share of the source profit: `profit * (copiedLot / sourceLot)`. */
  function Share(profit: real, copiedLot: real, sourceLot: real): real
    requires sourceLot != 0.0
  {
    profit * (copiedLot / sourceLot)
  }

  /** A copied trade after its update: status "Closed", the profit
      `profit * (copied.lot_size / source.lot_size)` and the close time; its lot size,
      ids and open time are kept. */
  function CloseCopied(c: CopiedTrade, profit: real, sourceLot: real, now: Timestamp): (r: CopiedTrade)
    requires sourceLot != 0.0
    ensures r.status == Some(ClosedStatus) && r.closeTime == Some(now)
    ensures r.profit == Some(Share(profit, c.lotSize, sourceLot))
    ensures r.(status := c.status, profit := c.profit, closeTime := c.closeTime) == c
  {
    c.(status := Some(ClosedStatus), profit := Some(Share(profit, c.lotSize, sourceLot)), closeTime := Some(now))
  }

  /** Positions `from` and beyond whose row has the given `trade_id`, in table order. */
  function MatchingFrom(copied: seq<CopiedTrade>, tradeId: Id, from: nat): (r: seq<nat>)
    requires from <= |copied|
    ensures forall k :: 0 <= k < |r| ==> from <= r[k] < |copied| && copied[r[k]].tradeId == tradeId
    ensures forall i :: from <= i < |copied| && copied[i].tradeId == tradeId ==> i in r
    ensures forall k, l :: 0 <= k < l < |r| ==> r[k] < r[l]
    decreases |copied| - from
  {
    if from == |copied| then []
    else
      var rest := MatchingFrom(copied, tradeId, from + 1);
      if copied[from].tradeId == tradeId then [from] + rest else rest
  }

  /** The `.eq("trade_id", tradeId)` query on `copied_trades`, as the positions of the
      rows it returns: exactly the matching rows, in increasing order. */
  function MatchingIndices(copied: seq<CopiedTrade>, tradeId: Id): (r: seq<nat>)
    ensures forall k :: 0 <= k < |r| ==> r[k] < |copied| && copied[r[k]].tradeId == tradeId
    ensures forall i :: 0 <= i < |copied| && copied[i].tradeId == tradeId ==> i in r
    ensures forall k, l :: 0 <= k < l < |r| ==> r[k] < r[l]
  {
    MatchingFrom(copied, tradeId, 0)
  }

  /** The copied-trades table after the rows at `indices` were closed. */
  function CloseRows(copied: seq<CopiedTrade>, indices: seq<nat>, profit: real, sourceLot: real,
                     now: Timestamp): (r: seq<CopiedTrade>)
    requires sourceLot != 0.0
    ensures |r| == |copied|
  {
    seq(|copied|, i requires 0 <= i < |copied| =>
      if i in indices then CloseCopied(copied[i], profit, sourceLot, now) else copied[i])
  }

  /** The updated copies the handler returns, one per queried row, in query order. */
  function ClosedCopies(copied: seq<CopiedTrade>, indices: seq<nat>, profit: real, sourceLot: real,
                        now: Timestamp): (r: seq<CopiedTrade>)
    requires sourceLot != 0.0
    requires forall k :: 0 <= k < |indices| ==> indices[k] < |copied|
    ensures |r| == |indices|
  {
    seq(|indices|, k requires 0 <= k < |indices| => CloseCopied(copied[indices[k]], profit, sourceLot, now))
  }

  /** The lot size of the trade with that id is non-zero, so the profit ratio is defined.
      The trade form only accepts positive lot sizes. */
  ghost predicate SourceLotNonZero(trades: seq<Trade>, id: Id) {
    forall i :: 0 <= i < |trades| && trades[i].id == id ==> trades[i].lotSize != 0.0
  }

  /** The success payload: the updated trade and the updated copies. */
  datatype CloseResult = CloseResult(trade: Trade, copiedTrades: seq<CopiedTrade>)

  // ---------------------------------------------------------------------------
  // Properties

  /** The query touches exactly the copies of the trade. */
  lemma MatchingIndicesExact(copied: seq<CopiedTrade>, tradeId: Id, i: int)
    ensures i in MatchingIndices(copied, tradeId) <==> 0 <= i < |copied| && copied[i].tradeId == tradeId
  {
  }

  /** Reconciliation closes the copies of the trade and leaves every other copied row
      as it was; no row is added or removed. */
  lemma CloseRowsOnlyCopiesOfTrade(copied: seq<CopiedTrade>, tradeId: Id, profit: real,
                                   sourceLot: real, now: Timestamp)
    requires sourceLot != 0.0
    ensures var r := CloseRows(copied, MatchingIndices(copied, tradeId), profit, sourceLot, now);
      && |r| == |copied|
      && forall i :: 0 <= i < |copied| ==>
           r[i] == if copied[i].tradeId == tradeId then CloseCopied(copied[i], profit, sourceLot, now) else copied[i]
  {
    forall i | 0 <= i < |copied|
      ensures (i in MatchingIndices(copied, tradeId)) == (copied[i].tradeId == tradeId)
    {
      MatchingIndicesExact(copied, tradeId, i);
    }
  }

  /** Closing the rows of one more position extends the closed table by that row. */
  lemma CloseRowsStep(copied: seq<CopiedTrade>, indices: seq<nat>, k: nat, profit: real,
                      sourceLot: real, now: Timestamp)
    requires sourceLot != 0.0 && k < |indices| && indices[k] < |copied|
    ensures CloseRows(copied, indices[..k + 1], profit, sourceLot, now)
         == CloseRows(copied, indices[..k], profit, sourceLot, now)[indices[k] := CloseCopied(copied[indices[k]], profit, sourceLot, now)]
  {
    assert forall i :: i in indices[..k + 1] <==> i in indices[..k] || i == indices[k] by {
      assert indices[..k + 1] == indices[..k] + [indices[k]];
    }
  }

  /** The returned copies grow by one per closed position. */
  lemma ClosedCopiesStep(copied: seq<CopiedTrade>, indices: seq<nat>, k: nat, profit: real,
                         sourceLot: real, now: Timestamp)
    requires sourceLot != 0.0 && k < |indices|
    requires forall j :: 0 <= j < |indices| ==> indices[j] < |copied|
    ensures ClosedCopies(copied, indices[..k + 1], profit, sourceLot, now)
         == ClosedCopies(copied, indices[..k], profit, sourceLot, now) + [CloseCopied(copied[indices[k]], profit, sourceLot, now)]
  {
  }

  /** Rewriting one row without changing its id keeps the id order. */
  lemma UpdateKeepsIds(copied: seq<CopiedTrade>, next: nat, i: nat, row: CopiedTrade)
    requires CopiedIdsBelow(copied, next) && i < |copied| && row.id == copied[i].id
    ensures CopiedIdsBelow(copied[i := row], next)
  {
  }

  /** Profit is split in proportion to lot size: every closed copy earns the same
      profit per lot as the source trade. */
  lemma ProfitPerLotEqual(c: CopiedTrade, profit: real, sourceLot: real, now: Timestamp)
    requires sourceLot != 0.0 && c.lotSize != 0.0
    ensures CloseCopied(c, profit, sourceLot, now).profit.value / c.lotSize == profit / sourceLot
  {
    var share := Share(profit, c.lotSize, sourceLot);
    assert share == (profit / sourceLot) * c.lotSize;
  }

  /** Fan-out then close: the copy made for the k-th pair earns the source profit times
      that subscription's effective multiplier `m` (`lot_size_multiplier || 1.0`). */
  lemma FanOutThenClose(trade: Trade, pairs: seq<CopyTrade.Pair>, firstId: nat, openedAt: Timestamp,
                        profit: real, closedAt: Timestamp, k: nat, m: real)
    requires trade.lotSize != 0.0 && k < |pairs|
    requires m == CopyTrade.EffectiveMultiplier(pairs[k].subscription.lotSizeMultiplier)
    ensures CloseCopied(CopyTrade.NewRows(trade, pairs, firstId, openedAt)[k], profit, trade.lotSize, closedAt).profit
              == Some(profit * m)
  {
    ClosedProfitOfScaledLot(CopyTrade.NewRows(trade, pairs, firstId, openedAt)[k], profit, trade.lotSize, m, closedAt);
  }

  /** A copy of `sourceLot * m` lots closes with `m` times the source profit. */
  lemma ClosedProfitOfScaledLot(c: CopiedTrade, profit: real, sourceLot: real, m: real, now: Timestamp)
    requires sourceLot != 0.0 && c.lotSize == sourceLot * m
    ensures CloseCopied(c, profit, sourceLot, now).profit == Some(profit * m)
  {
    ShareOfScaledLot(profit, sourceLot, m);
  }

  /** A lot of `sourceLot * m` earns `m` times the source profit. */
  lemma ShareOfScaledLot(profit: real, sourceLot: real, m: real)
    requires sourceLot != 0.0
    ensures Share(profit, sourceLot * m, sourceLot) == profit * m
  {
    assert (sourceLot * m) / sourceLot == m;
  }

  /** The reconciliation scenario: a copy of 1.0 lots of a 0.5-lot trade closed with
      profit 100 earns 200. */
  lemma ReconciliationScenario(c: CopiedTrade, now: Timestamp)
    requires c.lotSize == 1.0
    ensures CloseCopied(c, 100.0, 0.5, now).profit == Some(200.0)
  {
  }

  // ---------------------------------------------------------------------------
  // The handler

  /** The update loop: close each queried copy in query order, stopping at the first
      failed update (write number k + 1 is the update of the k-th copy). */
  method CloseCopies(db: Database, indices: seq<nat>, profit: real, sourceLot: real, now: Timestamp,
                     fault: Fault) returns (ok: bool, updated: seq<CopiedTrade>)
    requires db.Valid() && sourceLot != 0.0
    requires forall k :: 0 <= k < |indices| ==> indices[k] < |db.copiedTrades|
    modifies db`copiedTrades
    ensures db.Valid()
    ensures ok == !(fault.WriteFails? && 1 <= fault.n <= |indices|)
    ensures ok ==> db.copiedTrades == CloseRows(old(db.copiedTrades), indices, profit, sourceLot, now)
                   && updated == ClosedCopies(old(db.copiedTrades), indices, profit, sourceLot, now)
    ensures !ok ==> db.copiedTrades == CloseRows(old(db.copiedTrades), indices[..fault.n - 1], profit, sourceLot, now)
  {
    var before := db.copiedTrades;
    var queried := seq(|indices|, k requires 0 <= k < |indices| => before[indices[k]]);
    updated := [];
    for k := 0 to |indices|
      invariant db.copiedTrades == CloseRows(before, indices[..k], profit, sourceLot, now)
      invariant updated == ClosedCopies(before, indices[..k], profit, sourceLot, now)
      invariant !(fault.WriteFails? && 1 <= fault.n <= k)
      invariant db.Valid()
    {
      var copied := queried[k];
      assert copied == before[indices[k]];
      var share := Share(profit, copied.lotSize, sourceLot);
      if fault == WriteFails(k + 1) {
        return false, updated;
      }
      var closedRow := copied.(status := Some(ClosedStatus), profit := Some(share), closeTime := Some(now));
      assert closedRow == CloseCopied(before[indices[k]], profit, sourceLot, now);
      CloseRowsStep(before, indices, k, profit, sourceLot, now);
      ClosedCopiesStep(before, indices, k, profit, sourceLot, now);
      UpdateKeepsIds(db.copiedTrades, db.nextCopiedTradeId, indices[k], closedRow);
      db.copiedTrades := db.copiedTrades[indices[k] := closedRow];
      updated := updated + [closedRow];
    }
    assert indices[..|indices|] == indices;
    return true, updated;
  }

  /** `close_trade`: a missing id or a falsy close price (0 included) fails before any
      write. The source trade is then closed; only the copies whose `trade_id` is the
      trade's are closed, each with its proportional profit; all other rows are kept.
      A failed update stops the loop; earlier updates stay. */
  method CloseTrade(db: Database, tradeId: Option<Id>, closePrice: Option<real>, profit: real,
                    now: Timestamp, fault: Fault) returns (r: Result<CloseResult>)
    requires db.Valid()
    requires IdGiven(tradeId) ==> SourceLotNonZero(db.trades, tradeId.value)
    modifies db`trades, db`copiedTrades
    ensures db.Valid()
    ensures !IdGiven(tradeId) || !NumberTruthy(closePrice) ==>
      r == Err(TradeIdAndClosePriceRequired)
      && db.trades == old(db.trades) && db.copiedTrades == old(db.copiedTrades)
    ensures IdGiven(tradeId) && NumberTruthy(closePrice)
            && (fault == WriteFails(0) || TradeIndex(old(db.trades), tradeId.value).None?) ==>
      r == Err(UpdateTradeFailed)
      && db.trades == old(db.trades) && db.copiedTrades == old(db.copiedTrades)
    ensures IdGiven(tradeId) && NumberTruthy(closePrice)
            && fault != WriteFails(0) && TradeIndex(old(db.trades), tradeId.value).Some? ==>
      var i := TradeIndex(old(db.trades), tradeId.value).value;
      var source := CloseSource(old(db.trades)[i], closePrice.value, profit, now);
      var indices := MatchingIndices(old(db.copiedTrades), tradeId.value);
      && source.lotSize != 0.0
      && db.trades == old(db.trades)[i := source]
      && if fault == ReadFails(0) then
           r == Err(FetchCopiedTradesFailed) && db.copiedTrades == old(db.copiedTrades)
         else if fault.WriteFails? && fault.n <= |indices| then
           r == Err(UpdateCopiedTradeFailed)
           && db.copiedTrades == CloseRows(old(db.copiedTrades), indices[..fault.n - 1], profit, source.lotSize, now)
         else
           r == Ok(CloseResult(source, ClosedCopies(old(db.copiedTrades), indices, profit, source.lotSize, now)))
           && db.copiedTrades == CloseRows(old(db.copiedTrades), indices, profit, source.lotSize, now)
  {
    if !IdGiven(tradeId) || !NumberTruthy(closePrice) {
      return Err(TradeIdAndClosePriceRequired);
    }
    if fault == WriteFails(0) {
      return Err(UpdateTradeFailed);
    }
    var found := TradeIndex(db.trades, tradeId.value);
    if found.None? {
      return Err(UpdateTradeFailed);
    }
    var updatedTrade := CloseSource(db.trades[found.value], closePrice.value, profit, now);
    db.trades := db.trades[found.value := updatedTrade];
    if fault == ReadFails(0) {
      return Err(FetchCopiedTradesFailed);
    }
    var indices := MatchingIndices(db.copiedTrades, tradeId.value);
    var ok, updatedCopies := CloseCopies(db, indices, profit, updatedTrade.lotSize, now, fault);
    if !ok {
      return Err(UpdateCopiedTradeFailed);
    }
    return Ok(CloseResult(updatedTrade, updatedCopies));
  }
}

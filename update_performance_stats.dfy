/** The aggregation job (`update-performance-stats`): for every active signal account
    with at least one trade, recompute the all-time statistics from its trades and write
    them under the key (account, all_time). */
module UpdatePerformanceStats {
  import opened Ledger
  import Seqs

  // ---------------------------------------------------------------------------
  // The queries

  /** `.from("signal_accounts").select("id").eq("is_active", true)`, in table order. */
  function ActiveAccountIds(accounts: seq<SignalAccount>): (r: seq<Id>)
    ensures |r| <= |accounts|
    ensures forall id :: id in r <==> exists i :: 0 <= i < |accounts| && accounts[i].id == id && accounts[i].isActive == Some(true)
  {
    if accounts == [] then []
    else
      var rest := ActiveAccountIds(accounts[1..]);
      assert forall i :: 1 <= i < |accounts| ==> accounts[i] == accounts[1..][i - 1];
      if accounts[0].isActive == Some(true) then [accounts[0].id] + rest else rest
  }

  /** `.from("trades").select("*").eq("signal_account_id", id)`, in table order. */
  function TradesOf(trades: seq<Trade>, id: Id): seq<Trade> {
    Seqs.Filter(trades, (t: Trade) => t.signalAccountId == id)
  }

  // ---------------------------------------------------------------------------
  // The metrics of one account

  /** `trade.profit && trade.profit > 0`: a missing or zero profit is not a win. */
  predicate IsWin(t: Trade) {
    NumberTruthy(t.profit) && t.profit.value > 0.0
  }

  /** `trade.profit && trade.profit < 0`. */
  predicate IsLoss(t: Trade) {
    NumberTruthy(t.profit) && t.profit.value < 0.0
  }

  /** `trade.profit || 0`. */
  function ProfitOrZero(t: Trade): real {
    if NumberTruthy(t.profit) then t.profit.value else 0.0
  }

  /** `trades.reduce((sum, trade) => sum + (trade.profit || 0), 0)`. */
  function TotalProfit(trades: seq<Trade>): real {
    if trades == [] then 0.0 else ProfitOrZero(trades[0]) + TotalProfit(trades[1..])
  }

  /** `(winning / total) * 100`, and 0 when there are no trades. */
  function WinRate(winning: nat, total: nat): (r: real)
    ensures winning <= total ==> 0.0 <= r <= 100.0
    ensures total > 0 ==> (r == 0.0 <==> winning == 0)
    ensures total > 0 ==> (r == 100.0 <==> winning == total)
  {
    if total > 0 then (winning as real / total as real) * 100.0 else 0.0
  }

  /** The row written for one account. The return percentage is the plain profit sum
      and the drawdown is always 0. */
  function ComputeStats(accountId: Id, trades: seq<Trade>, now: Timestamp): (r: PerformanceStats)
    ensures r.signalAccountId == accountId && r.period == AllTime && r.calculatedAt == now
    ensures r.totalTrades == |trades| && r.drawdown == 0.0
    ensures r.winningTrades == |Seqs.Filter(trades, IsWin)| && r.losingTrades == |Seqs.Filter(trades, IsLoss)|
    ensures r.winningTrades + r.losingTrades <= r.totalTrades
    ensures r.winRate == WinRate(r.winningTrades, r.totalTrades) && 0.0 <= r.winRate <= 100.0
    ensures r.returnPercentage == TotalProfit(trades)
  {
    var winning := |Seqs.Filter(trades, IsWin)|;
    var losing := |Seqs.Filter(trades, IsLoss)|;
    Seqs.FilterDisjointCount(trades, IsWin, IsLoss);
    PerformanceStats(accountId, AllTime, TotalProfit(trades), WinRate(winning, |trades|), 0.0,
                     |trades|, winning, losing, now)
  }

  // ---------------------------------------------------------------------------
  // Properties of the metrics

  /** A trade is never counted both as a win and as a loss, and a trade without a
      non-zero profit is counted as neither. */
  lemma WinsAndLossesDisjoint(t: Trade)
    ensures IsWin(t) <==> t.profit.Some? && t.profit.value > 0.0
    ensures IsLoss(t) <==> t.profit.Some? && t.profit.value < 0.0
    ensures !(IsWin(t) && IsLoss(t))
    ensures !NumberTruthy(t.profit) ==> !IsWin(t) && !IsLoss(t)
  {
  }

  /** The trades that the row's win and loss counts count are exactly the account's
      trades with a positive and with a negative profit. */
  lemma WinsAndLossesCounted(trades: seq<Trade>, t: Trade)
    ensures t in Seqs.Filter(trades, IsWin) <==> t in trades && t.profit.Some? && t.profit.value > 0.0
    ensures t in Seqs.Filter(trades, IsLoss) <==> t in trades && t.profit.Some? && t.profit.value < 0.0
  {
    Seqs.FilterMembership(trades, IsWin, t);
    Seqs.FilterMembership(trades, IsLoss, t);
  }

  /** The profit sum splits over concatenation. */
  lemma {:induction false} TotalProfitConcat(a: seq<Trade>, b: seq<Trade>)
    ensures TotalProfit(a + b) == TotalProfit(a) + TotalProfit(b)
  {
    if a == [] {
      assert a + b == b;
    } else {
      assert (a + b)[0] == a[0];
      assert (a + b)[1..] == a[1..] + b;
      TotalProfitConcat(a[1..], b);
    }
  }

  /** Removing one trade from a list takes its profit out of the total. */
  lemma {:induction false} TotalProfitRemoveAt(b: seq<Trade>, j: nat)
    requires j < |b|
    ensures TotalProfit(b) == TotalProfit(b[..j] + b[j + 1..]) + ProfitOrZero(b[j])
  {
    var front, back := b[..j], b[j + 1..];
    assert b == front + ([b[j]] + back);
    TotalProfitConcat(front, [b[j]] + back);
    assert ([b[j]] + back)[1..] == back;
    assert TotalProfit([b[j]] + back) == ProfitOrZero(b[j]) + TotalProfit(back);
    TotalProfitConcat(front, back);
  }

  /** The total does not depend on the order of the trades. */
  lemma {:induction false} TotalProfitPermutation(a: seq<Trade>, b: seq<Trade>)
    requires multiset(a) == multiset(b)
    ensures TotalProfit(a) == TotalProfit(b)
    decreases |a|
  {
    if a == [] {
      assert |multiset(b)| == 0;
    } else {
      var x := a[0];
      assert a == [x] + a[1..];
      assert multiset(a) == multiset{x} + multiset(a[1..]);
      var j := Seqs.RemoveOne(b, x);
      var rest := b[..j] + b[j + 1..];
      assert multiset(a[1..]) == multiset(rest);
      TotalProfitPermutation(a[1..], rest);
      TotalProfitRemoveAt(b, j);
    }
  }

  /** The statistics are order-independent: any reordering of the same trades gives
      the same row. */
  lemma StatsOrderIndependent(accountId: Id, a: seq<Trade>, b: seq<Trade>, now: Timestamp)
    requires multiset(a) == multiset(b)
    ensures ComputeStats(accountId, a, now) == ComputeStats(accountId, b, now)
  {
    assert |a| == |multiset(a)| == |multiset(b)| == |b|;
    Seqs.FilterCountPermutation(a, b, IsWin);
    Seqs.FilterCountPermutation(a, b, IsLoss);
    TotalProfitPermutation(a, b);
  }

  /** Apart from `calculated_at`, the row depends only on the account and its trades. */
  lemma StatsIgnoreClock(accountId: Id, trades: seq<Trade>, now1: Timestamp, now2: Timestamp)
    ensures ComputeStats(accountId, trades, now1) == ComputeStats(accountId, trades, now2).(calculatedAt := now1)
  {
  }

  /** The aggregation scenario: profits 50, -20, 30 and a missing profit give 4 trades,
      2 wins, 1 loss, a 50% win rate and a return of 60. */
  lemma AggregationScenario(t1: Trade, t2: Trade, t3: Trade, t4: Trade, now: Timestamp)
    requires t1.profit == Some(50.0) && t2.profit == Some(-20.0)
    requires t3.profit == Some(30.0) && t4.profit == None
    ensures var r := ComputeStats("acc", [t1, t2, t3, t4], now);
      r.totalTrades == 4 && r.winningTrades == 2 && r.losingTrades == 1
      && r.winRate == 50.0 && r.returnPercentage == 60.0
  {
    var ts := [t1, t2, t3, t4];
    assert ts[1..] == [t2, t3, t4] && [t2, t3, t4][1..] == [t3, t4] && [t3, t4][1..] == [t4];
    assert Seqs.Filter([t4], IsWin) == [] && Seqs.Filter([t4], IsLoss) == [];
    assert Seqs.Filter([t3, t4], IsWin) == [t3] && Seqs.Filter([t3, t4], IsLoss) == [];
    assert Seqs.Filter([t2, t3, t4], IsWin) == [t3] && Seqs.Filter([t2, t3, t4], IsLoss) == [t2];
    assert Seqs.Filter(ts, IsWin) == [t1, t3] && Seqs.Filter(ts, IsLoss) == [t2];
    assert TotalProfit([t4]) == 0.0 && TotalProfit([t3, t4]) == 30.0;
    assert TotalProfit([t2, t3, t4]) == 10.0;
  }

  // ---------------------------------------------------------------------------
  // The batch

  /** The accounts the loop writes a row for: active accounts with at least one trade. */
  function Processed(ids: seq<Id>, trades: seq<Trade>): seq<Id> {
    Seqs.Filter(ids, (id: Id) => |TradesOf(trades, id)| > 0)
  }

  /** The rows written, one per processed account, in loop order. */
  function Rows(ids: seq<Id>, trades: seq<Trade>, now: Timestamp): (r: seq<PerformanceStats>)
    ensures |r| == |ids|
  {
    seq(|ids|, k requires 0 <= k < |ids| => ComputeStats(ids[k], TradesOf(trades, ids[k]), now))
  }

  /** The key a row is written under. */
  function KeyOf(s: PerformanceStats): StatsKey {
    StatsKey(s.signalAccountId, s.period)
  }

  /** The stats table after writing `rows` in order; a later row for the same key wins. */
  function PutAll(m: map<StatsKey, PerformanceStats>, rows: seq<PerformanceStats>): (r: map<StatsKey, PerformanceStats>)
    ensures forall k :: k in r <==> k in m || exists i :: 0 <= i < |rows| && KeyOf(rows[i]) == k
    decreases |rows|
  {
    if rows == [] then m
    else
      var r := PutAll(m[KeyOf(rows[0]) := rows[0]], rows[1..]);
      assert forall i :: 1 <= i < |rows| ==> rows[i] == rows[1..][i - 1];
      r
  }

  /** One entry of the `results` array: `{ signal_account_id, stats_updated: true }`. */
  datatype AccountResult = AccountResult(signalAccountId: Id, statsUpdated: bool)

  /** The results reported for the processed accounts. */
  function Results(ids: seq<Id>): (r: seq<AccountResult>)
    ensures |r| == |ids|
    ensures forall k :: 0 <= k < |ids| ==> r[k] == AccountResult(ids[k], true)
  {
    seq(|ids|, k requires 0 <= k < |ids| => AccountResult(ids[k], true))
  }

  /** The first account (from position `from`) whose step fails: read `1 + i` is the
      trades query of account `i`, write `w` is the `w`-th upsert. `written` is the
      number of upserts before position `from`. */
  function FirstFailure(ids: seq<Id>, trades: seq<Trade>, fault: Fault, from: nat, written: nat): (r: Option<nat>)
    requires from <= |ids|
    ensures r.Some? ==> from <= r.value < |ids|
    ensures fault == NoFault ==> r == None
    decreases |ids| - from
  {
    if from == |ids| then None
    else if fault == ReadFails(from + 1) then Some(from)
    else if |TradesOf(trades, ids[from])| > 0 && fault == WriteFails(written) then Some(from)
    else FirstFailure(ids, trades, fault, from + 1, written + if |TradesOf(trades, ids[from])| > 0 then 1 else 0)
  }

  // ---------------------------------------------------------------------------
  // Properties of the batch

  /** Keys that no row carries keep their previous value. */
  lemma {:induction false} PutAllFrame(m: map<StatsKey, PerformanceStats>, rows: seq<PerformanceStats>, k: StatsKey)
    requires forall i :: 0 <= i < |rows| ==> KeyOf(rows[i]) != k
    ensures k in m ==> k in PutAll(m, rows) && PutAll(m, rows)[k] == m[k]
    ensures k !in m ==> k !in PutAll(m, rows)
    decreases |rows|
  {
    if rows != [] {
      assert forall i :: 1 <= i < |rows| ==> rows[i] == rows[1..][i - 1];
      PutAllFrame(m[KeyOf(rows[0]) := rows[0]], rows[1..], k);
    }
  }

  /** A row that no later row overrides is what the table holds under its key. */
  lemma {:induction false} PutAllWritten(m: map<StatsKey, PerformanceStats>, rows: seq<PerformanceStats>, i: nat)
    requires i < |rows|
    requires forall j :: i < j < |rows| ==> KeyOf(rows[j]) != KeyOf(rows[i])
    ensures KeyOf(rows[i]) in PutAll(m, rows) && PutAll(m, rows)[KeyOf(rows[i])] == rows[i]
    decreases |rows|
  {
    assert forall j :: 1 <= j < |rows| ==> rows[j] == rows[1..][j - 1];
    if i == 0 {
      PutAllFrame(m[KeyOf(rows[0]) := rows[0]], rows[1..], KeyOf(rows[0]));
    } else {
      PutAllWritten(m[KeyOf(rows[0]) := rows[0]], rows[1..], i - 1);
    }
  }

  /** Writing `a` then `b` is writing `a + b`. */
  lemma {:induction false} PutAllConcat(m: map<StatsKey, PerformanceStats>, a: seq<PerformanceStats>, b: seq<PerformanceStats>)
    ensures PutAll(m, a + b) == PutAll(PutAll(m, a), b)
    decreases |a|
  {
    if a == [] {
      assert a + b == b;
    } else {
      assert (a + b)[0] == a[0];
      assert (a + b)[1..] == a[1..] + b;
      PutAllConcat(m[KeyOf(a[0]) := a[0]], a[1..], b);
    }
  }

  /** Writing one more row puts it under its key. */
  lemma PutAllSnoc(m: map<StatsKey, PerformanceStats>, rows: seq<PerformanceStats>, row: PerformanceStats)
    ensures PutAll(m, rows + [row]) == PutAll(m, rows)[KeyOf(row) := row]
  {
    PutAllConcat(m, rows, [row]);
    assert [row][1..] == [];
  }

  /** Writing rows under the same keys twice leaves what the second write wrote. */
  lemma {:induction false} PutAllOverwrite(m: map<StatsKey, PerformanceStats>, a: seq<PerformanceStats>, b: seq<PerformanceStats>)
    requires |a| == |b|
    requires forall i :: 0 <= i < |a| ==> KeyOf(a[i]) == KeyOf(b[i])
    ensures PutAll(PutAll(m, a), b) == PutAll(m, b)
  {
    var left, right := PutAll(PutAll(m, a), b), PutAll(m, b);
    forall k | k in left || k in right
      ensures k in left && k in right && left[k] == right[k]
    {
      if exists i :: 0 <= i < |b| && KeyOf(b[i]) == k {
        var i :| 0 <= i < |b| && KeyOf(b[i]) == k;
        var last := LastWith(b, k, i);
        PutAllWritten(PutAll(m, a), b, last);
        PutAllWritten(m, b, last);
      } else {
        PutAllFrame(PutAll(m, a), b, k);
        PutAllFrame(m, b, k);
        PutAllFrame(m, a, k);
      }
    }
  }

  /** The last position at or after `i` whose row has key `k`. */
  lemma {:induction false} LastWith(rows: seq<PerformanceStats>, k: StatsKey, i: nat) returns (last: nat)
    requires i < |rows| && KeyOf(rows[i]) == k
    ensures i <= last < |rows| && KeyOf(rows[last]) == k
    ensures forall j :: last < j < |rows| ==> KeyOf(rows[j]) != k
    decreases |rows| - i
  {
    if exists j :: i < j < |rows| && KeyOf(rows[j]) == k {
      var j :| i < j < |rows| && KeyOf(rows[j]) == k;
      last := LastWith(rows, k, j);
    } else {
      last := i;
    }
  }

  /** Each processed account ends up with exactly its freshly computed row, when the
      accounts are distinct. */
  lemma RowForEachAccount(m: map<StatsKey, PerformanceStats>, ids: seq<Id>, trades: seq<Trade>, now: Timestamp, k: nat)
    requires k < |ids|
    requires forall i, j :: 0 <= i < j < |ids| ==> ids[i] != ids[j]
    ensures var table := PutAll(m, Rows(ids, trades, now));
      && StatsKey(ids[k], AllTime) in table
      && table[StatsKey(ids[k], AllTime)] == ComputeStats(ids[k], TradesOf(trades, ids[k]), now)
  {
    PutAllWritten(m, Rows(ids, trades, now), k);
  }

  /** Idempotence: a second run with unchanged trades leaves what a single run at the
      later time leaves; only `calculated_at` differs from the first run's rows. */
  lemma AggregationIdempotent(m: map<StatsKey, PerformanceStats>, ids: seq<Id>, trades: seq<Trade>,
                              now1: Timestamp, now2: Timestamp)
    ensures PutAll(PutAll(m, Rows(ids, trades, now1)), Rows(ids, trades, now2)) == PutAll(m, Rows(ids, trades, now2))
    ensures forall k :: 0 <= k < |ids| ==> Rows(ids, trades, now1)[k] == Rows(ids, trades, now2)[k].(calculatedAt := now1)
  {
    PutAllOverwrite(m, Rows(ids, trades, now1), Rows(ids, trades, now2));
  }

  /** Without store failures the batch never stops early. */
  lemma NoFaultNoFailure(ids: seq<Id>, trades: seq<Trade>)
    ensures FirstFailure(ids, trades, NoFault, 0, 0) == None
  {
  }

  /** The processed prefix grows by the next account exactly when it has trades. */
  lemma ProcessedStep(ids: seq<Id>, trades: seq<Trade>, i: nat)
    requires i < |ids|
    ensures Processed(ids[..i + 1], trades)
         == Processed(ids[..i], trades) + if |TradesOf(trades, ids[i])| > 0 then [ids[i]] else []
  {
    assert ids[..i + 1] == ids[..i] + [ids[i]];
    Seqs.FilterConcat(ids[..i], [ids[i]], (id: Id) => |TradesOf(trades, id)| > 0);
  }

  /** The rows of a longer prefix extend the rows of a shorter one. */
  lemma RowsConcat(a: seq<Id>, b: seq<Id>, trades: seq<Trade>, now: Timestamp)
    ensures Rows(a + b, trades, now) == Rows(a, trades, now) + Rows(b, trades, now)
  {
  }

  /** What the loop over the accounts keeps after `i` accounts: the accounts with trades
      among them, `results` and the stats table are those of the batch so far, and the
      first failure, if any, is still ahead. */
  ghost predicate Progress(ids: seq<Id>, trades: seq<Trade>, fault: Fault, now: Timestamp, i: nat,
                           processed: seq<Id>, results: seq<AccountResult>,
                           start: map<StatsKey, PerformanceStats>, stats: map<StatsKey, PerformanceStats>)
  {
    && i <= |ids|
    && processed == Processed(ids[..i], trades)
    && results == Results(processed)
    && stats == PutAll(start, Rows(processed, trades, now))
    && FirstFailure(ids, trades, fault, 0, 0) == FirstFailure(ids, trades, fault, i, |processed|)
  }

  /** An account without trades is skipped. */
  lemma SkipStep(ids: seq<Id>, trades: seq<Trade>, fault: Fault, now: Timestamp, i: nat,
                 processed: seq<Id>, results: seq<AccountResult>,
                 start: map<StatsKey, PerformanceStats>, stats: map<StatsKey, PerformanceStats>)
    requires i < |ids| && Progress(ids, trades, fault, now, i, processed, results, start, stats)
    requires fault != ReadFails(i + 1) && |TradesOf(trades, ids[i])| == 0
    ensures Progress(ids, trades, fault, now, i + 1, processed, results, start, stats)
  {
    ProcessedStep(ids, trades, i);
  }

  /** An account with trades whose write succeeds adds its row and its result. */
  lemma WriteStep(ids: seq<Id>, trades: seq<Trade>, fault: Fault, now: Timestamp, i: nat,
                  processed: seq<Id>, results: seq<AccountResult>,
                  start: map<StatsKey, PerformanceStats>, stats: map<StatsKey, PerformanceStats>)
    requires i < |ids| && Progress(ids, trades, fault, now, i, processed, results, start, stats)
    requires fault != ReadFails(i + 1) && |TradesOf(trades, ids[i])| > 0 && fault != WriteFails(|results|)
    ensures var row := ComputeStats(ids[i], TradesOf(trades, ids[i]), now);
      Progress(ids, trades, fault, now, i + 1, processed + [ids[i]], results + [AccountResult(ids[i], true)],
               start, stats[KeyOf(row) := row])
  {
    var id := ids[i];
    var row := ComputeStats(id, TradesOf(trades, id), now);
    ProcessedStep(ids, trades, i);
    RowsConcat(processed, [id], trades, now);
    assert Rows([id], trades, now) == [row];
    PutAllSnoc(start, Rows(processed, trades, now), row);
    assert Results(processed + [id]) == Results(processed) + [AccountResult(id, true)];
  }

  /** A failed read or write of account `i` is the batch's first failure, and the table
      holds the rows of the accounts before it. */
  lemma StopStep(ids: seq<Id>, trades: seq<Trade>, fault: Fault, now: Timestamp, i: nat,
                 processed: seq<Id>, results: seq<AccountResult>,
                 start: map<StatsKey, PerformanceStats>, stats: map<StatsKey, PerformanceStats>)
    requires i < |ids| && Progress(ids, trades, fault, now, i, processed, results, start, stats)
    requires fault == ReadFails(i + 1) || (|TradesOf(trades, ids[i])| > 0 && fault == WriteFails(|results|))
    ensures FirstFailure(ids, trades, fault, 0, 0) == Some(i)
    ensures stats == PutAll(start, Rows(Processed(ids[..i], trades), trades, now))
  {
  }

  // ---------------------------------------------------------------------------
  // The handler

  /** The loop over the active accounts: stops at the first failing step, and reports
      where it stopped. */
  method ProcessAccounts(db: Database, ids: seq<Id>, now: Timestamp, fault: Fault)
    returns (failure: Option<nat>, results: seq<AccountResult>)
    modifies db`performanceStats
    ensures failure == FirstFailure(ids, db.trades, fault, 0, 0)
    ensures failure.None? ==>
      && results == Results(Processed(ids, db.trades))
      && db.performanceStats == PutAll(old(db.performanceStats), Rows(Processed(ids, db.trades), db.trades, now))
    ensures failure.Some? ==>
      && failure.value <= |ids|
      && db.performanceStats == PutAll(old(db.performanceStats), Rows(Processed(ids[..failure.value], db.trades), db.trades, now))
  {
    results := [];
    var all := db.trades;
    ghost var start := db.performanceStats;
    ghost var processed: seq<Id> := [];
    for i := 0 to |ids|
      invariant Progress(ids, all, fault, now, i, processed, results, start, db.performanceStats)
    {
      if fault == ReadFails(i + 1) {
        StopStep(ids, all, fault, now, i, processed, results, start, db.performanceStats);
        return Some(i), results;
      }
      var trades := TradesOf(all, ids[i]);
      if |trades| == 0 {
        SkipStep(ids, all, fault, now, i, processed, results, start, db.performanceStats);
        continue;
      }
      var row := ComputeStats(ids[i], trades, now);
      if fault == WriteFails(|results|) {
        StopStep(ids, all, fault, now, i, processed, results, start, db.performanceStats);
        return Some(i), results;
      }
      WriteStep(ids, all, fault, now, i, processed, results, start, db.performanceStats);
      db.performanceStats := db.performanceStats[KeyOf(row) := row];
      results := results + [AccountResult(ids[i], true)];
      processed := processed + [ids[i]];
    }
    assert ids[..|ids|] == ids;
    return None, results;
  }

  /** `update_performance_stats`: fails when the account query fails; otherwise walks
      the active accounts in order, skips the ones without trades, and writes one row
      per remaining account. The first failing trades query or upsert aborts the
      batch; rows written before it stay. */
  method UpdatePerformanceStats(db: Database, now: Timestamp, fault: Fault) returns (r: Result<seq<AccountResult>>)
    modifies db`performanceStats
    ensures fault == ReadFails(0) ==> r == Err(FetchSignalAccountsFailed) && db.performanceStats == old(db.performanceStats)
    ensures fault != ReadFails(0) ==>
      var ids := ActiveAccountIds(db.signalAccounts);
      match FirstFailure(ids, db.trades, fault, 0, 0)
      case None =>
        r == Ok(Results(Processed(ids, db.trades)))
        && db.performanceStats == PutAll(old(db.performanceStats), Rows(Processed(ids, db.trades), db.trades, now))
      case Some(i) =>
        r == Err(if fault.ReadFails? then FetchTradesFailed else UpdatePerformanceStatsFailed)
        && db.performanceStats == PutAll(old(db.performanceStats), Rows(Processed(ids[..i], db.trades), db.trades, now))
  {
    if fault == ReadFails(0) {
      return Err(FetchSignalAccountsFailed);
    }
    var ids := ActiveAccountIds(db.signalAccounts);
    var failure, results := ProcessAccounts(db, ids, now, fault);
    if failure.Some? {
      return Err(if fault.ReadFails? then FetchTradesFailed else UpdatePerformanceStatsFailed);
    }
    return Ok(results);
  }
}

/** The fan-out handler (`POST /copy-trade`): given a trade id, load the trade, find the
    active subscriptions on its signal account together with their active trade-account
    links, and insert one copied trade per (subscription, link) pair, its lot size scaled
    by the subscription's multiplier. */
module CopyTrade {
  import opened Ledger

  /** A link that makes the subscription `subscriptionId` copy to its trade account. */
  predicate ActiveLinkOf(l: SubscriptionTradeAccount, subscriptionId: Id) {
    l.subscriptionId == subscriptionId && l.isActive == Some(true)
  }

  /** The filter of the subscriptions query: `.eq("signal_account_id", ...).eq("status", "active")`. */
  predicate SubscriptionEligible(s: Subscription, signalAccountId: Id) {
    s.signalAccountId == signalAccountId && s.status == Some(Active)
  }

  /** The embedded `subscription_trade_accounts(trade_account_id)` of one subscription,
      restricted by `.eq("subscription_trade_accounts.is_active", true)`, in table order. */
  function ActiveLinkAccounts(links: seq<SubscriptionTradeAccount>, subscriptionId: Id): (r: seq<Id>)
    ensures |r| <= |links|
    ensures forall a :: a in r <==>
      exists l :: l in links && ActiveLinkOf(l, subscriptionId) && l.tradeAccountId == a
  {
    if links == [] then []
    else
      assert forall l :: l in links <==> l == links[0] || l in links[1..];
      (if ActiveLinkOf(links[0], subscriptionId) then [links[0].tradeAccountId] else [])
        + ActiveLinkAccounts(links[1..], subscriptionId)
  }

  /** One row of the subscriptions query: a subscription and its embedded active links. */
  datatype EligibleSubscription = EligibleSubscription(subscription: Subscription, tradeAccountIds: seq<Id>)

  /** The subscriptions query. The `!inner` join drops subscriptions without an active link. */
  function EligibleSubscriptions(subs: seq<Subscription>, links: seq<SubscriptionTradeAccount>,
                                 signalAccountId: Id): (r: seq<EligibleSubscription>)
    ensures |r| <= |subs|
  {
    if subs == [] then []
    else
      var ids := ActiveLinkAccounts(links, subs[0].id);
      (if SubscriptionEligible(subs[0], signalAccountId) && ids != []
       then [EligibleSubscription(subs[0], ids)] else [])
        + EligibleSubscriptions(subs[1..], links, signalAccountId)
  }

  /** One (subscription, trade account) pair the nested loop visits. */
  datatype Pair = Pair(subscription: Subscription, tradeAccountId: Id)

  function GroupPairs(e: EligibleSubscription): seq<Pair> {
    seq(|e.tradeAccountIds|, k requires 0 <= k < |e.tradeAccountIds| => Pair(e.subscription, e.tradeAccountIds[k]))
  }

  /** The pairs in the order of the nested `for ... of` loops. */
  function PairsOf(groups: seq<EligibleSubscription>): seq<Pair> {
    if groups == [] then [] else GroupPairs(groups[0]) + PairsOf(groups[1..])
  }

  /** All pairs fan-out produces a row for. */
  function FanOutPairs(subs: seq<Subscription>, links: seq<SubscriptionTradeAccount>, signalAccountId: Id): seq<Pair> {
    PairsOf(EligibleSubscriptions(subs, links, signalAccountId))
  }

  /** `subscription.lot_size_multiplier || 1.0`: a null and a zero multiplier both act as 1.0. */
  function EffectiveMultiplier(m: Option<real>): (r: real)
    ensures r != 0.0
    ensures m == None || m == Some(0.0) ==> r == 1.0
    ensures m.Some? && m.value != 0.0 ==> r == m.value
  {
    if NumberTruthy(m) then m.value else 1.0
  }

  /** The inserted copied trade for one pair; `open_time` is the current time, not the trade's. */
  function CopyRow(trade: Trade, p: Pair, id: nat, now: Timestamp): CopiedTrade {
    CopiedTrade(id, trade.id, p.subscription.id, p.tradeAccountId,
                trade.lotSize * EffectiveMultiplier(p.subscription.lotSizeMultiplier),
                trade.status, None, now, None)
  }

  /** The rows fan-out inserts, in loop order, numbered from `firstId`. */
  function NewRows(trade: Trade, pairs: seq<Pair>, firstId: nat, now: Timestamp): (r: seq<CopiedTrade>)
    ensures |r| == |pairs|
  {
    seq(|pairs|, k requires 0 <= k < |pairs| => CopyRow(trade, pairs[k], firstId + k, now))
  }

  /** The success payload: the trade and `copied_trades_count`. */
  datatype FanOutResult = FanOutResult(trade: Trade, copiedTradesCount: nat)

  // ---------------------------------------------------------------------------
  // Properties of the query and of the rows

  lemma {:induction false} PairsOfConcat(a: seq<EligibleSubscription>, b: seq<EligibleSubscription>)
    ensures PairsOf(a + b) == PairsOf(a) + PairsOf(b)
  {
    if a != [] {
      assert (a + b)[0] == a[0];
      assert (a + b)[1..] == a[1..] + b;
      PairsOfConcat(a[1..], b);
      calc {
        PairsOf(a + b);
        GroupPairs(a[0]) + PairsOf(a[1..] + b);
        GroupPairs(a[0]) + (PairsOf(a[1..]) + PairsOf(b));
        (GroupPairs(a[0]) + PairsOf(a[1..])) + PairsOf(b);
        PairsOf(a) + PairsOf(b);
      }
    } else {
      assert a + b == b;
    }
  }

  /** Finishing the inner loop for group i extends the pairs visited by that group's pairs. */
  lemma PairsPrefixStep(groups: seq<EligibleSubscription>, i: nat)
    requires i < |groups|
    ensures PairsOf(groups[..i + 1]) == PairsOf(groups[..i]) + GroupPairs(groups[i])
  {
    assert groups[..i + 1] == groups[..i] + [groups[i]];
    PairsOfConcat(groups[..i], [groups[i]]);
  }

  /** A row of the subscriptions query is exactly an eligible subscription that has an
      active link, carrying all its active links. */
  lemma {:induction false} EligibleSubscriptionsMembership(subs: seq<Subscription>,
      links: seq<SubscriptionTradeAccount>, signalAccountId: Id, e: EligibleSubscription)
    ensures e in EligibleSubscriptions(subs, links, signalAccountId) <==>
      && e.subscription in subs
      && SubscriptionEligible(e.subscription, signalAccountId)
      && e.tradeAccountIds == ActiveLinkAccounts(links, e.subscription.id)
      && e.tradeAccountIds != []
  {
    if subs != [] {
      EligibleSubscriptionsMembership(subs[1..], links, signalAccountId, e);
      assert e.subscription in subs <==> e.subscription == subs[0] || e.subscription in subs[1..];
    }
  }

  lemma {:induction false} PairsOfMembership(groups: seq<EligibleSubscription>, p: Pair)
    ensures p in PairsOf(groups) <==>
      exists g :: g in groups && g.subscription == p.subscription && p.tradeAccountId in g.tradeAccountIds
  {
    if groups != [] {
      PairsOfMembership(groups[1..], p);
      var g0 := groups[0];
      assert p in GroupPairs(g0) <==> g0.subscription == p.subscription && p.tradeAccountId in g0.tradeAccountIds by {
        if p.tradeAccountId in g0.tradeAccountIds && g0.subscription == p.subscription {
          var k :| 0 <= k < |g0.tradeAccountIds| && g0.tradeAccountIds[k] == p.tradeAccountId;
          assert GroupPairs(g0)[k] == p;
        }
      }
      assert forall g :: g in groups <==> g == g0 || g in groups[1..];
    }
  }

  /** Fan-out eligibility, both directions: a pair gets a row exactly when its
      subscription is on the trade's signal account, has status `active`, and has an
      active link to that trade account. */
  lemma FanOutPairsExactlyEligible(subs: seq<Subscription>, links: seq<SubscriptionTradeAccount>,
                                   signalAccountId: Id, p: Pair)
    ensures p in FanOutPairs(subs, links, signalAccountId) <==>
      && p.subscription in subs
      && SubscriptionEligible(p.subscription, signalAccountId)
      && exists l :: l in links && ActiveLinkOf(l, p.subscription.id) && l.tradeAccountId == p.tradeAccountId
  {
    var groups := EligibleSubscriptions(subs, links, signalAccountId);
    PairsOfMembership(groups, p);
    var e := EligibleSubscription(p.subscription, ActiveLinkAccounts(links, p.subscription.id));
    EligibleSubscriptionsMembership(subs, links, signalAccountId, e);
    if p in FanOutPairs(subs, links, signalAccountId) {
      var g :| g in groups && g.subscription == p.subscription && p.tradeAccountId in g.tradeAccountIds;
      EligibleSubscriptionsMembership(subs, links, signalAccountId, g);
    }
    if && p.subscription in subs && SubscriptionEligible(p.subscription, signalAccountId)
       && exists l :: l in links && ActiveLinkOf(l, p.subscription.id) && l.tradeAccountId == p.tradeAccountId {
      assert p.tradeAccountId in e.tradeAccountIds;
      assert e in groups;
    }
  }

  /** A subscription that is not `active` (trial, expired, cancelled or null) receives no copy. */
  lemma InactiveSubscriptionNeverCopied(subs: seq<Subscription>, links: seq<SubscriptionTradeAccount>,
                                        signalAccountId: Id, p: Pair)
    requires p.subscription.status != Some(Active)
    ensures p !in FanOutPairs(subs, links, signalAccountId)
  {
    FanOutPairsExactlyEligible(subs, links, signalAccountId, p);
  }

  /** The number of pairs, counted independently: each eligible subscription
      contributes one pair per active link. */
  function PairCount(subs: seq<Subscription>, links: seq<SubscriptionTradeAccount>, signalAccountId: Id): nat {
    if subs == [] then 0
    else
      (if SubscriptionEligible(subs[0], signalAccountId) then |ActiveLinkAccounts(links, subs[0].id)| else 0)
        + PairCount(subs[1..], links, signalAccountId)
  }

  lemma {:induction false} FanOutPairCount(subs: seq<Subscription>, links: seq<SubscriptionTradeAccount>, signalAccountId: Id)
    ensures |FanOutPairs(subs, links, signalAccountId)| == PairCount(subs, links, signalAccountId)
  {
    if subs != [] {
      FanOutPairCount(subs[1..], links, signalAccountId);
      var ids := ActiveLinkAccounts(links, subs[0].id);
      var head := if SubscriptionEligible(subs[0], signalAccountId) && ids != []
                  then [EligibleSubscription(subs[0], ids)] else [];
      var rest := EligibleSubscriptions(subs[1..], links, signalAccountId);
      assert EligibleSubscriptions(subs, links, signalAccountId) == head + rest;
      PairsOfConcat(head, rest);
      if head != [] {
        assert PairsOf(head) == GroupPairs(head[0]) + PairsOf([]);
      }
    }
  }

  /** Every inserted row belongs to an eligible pair and carries the trade's id and
      status, the subscription's id, the link's trade account, a null profit, and the
      trade's lot size times the effective multiplier. */
  lemma NewRowsFaithful(trade: Trade, subs: seq<Subscription>, links: seq<SubscriptionTradeAccount>,
                        firstId: nat, now: Timestamp, k: nat)
    requires k < |FanOutPairs(subs, links, trade.signalAccountId)|
    ensures var p := FanOutPairs(subs, links, trade.signalAccountId)[k];
            var row := NewRows(trade, FanOutPairs(subs, links, trade.signalAccountId), firstId, now)[k];
            && p.subscription in subs
            && p.subscription.signalAccountId == trade.signalAccountId
            && p.subscription.status == Some(Active)
            && (exists l :: l in links && ActiveLinkOf(l, p.subscription.id) && l.tradeAccountId == row.tradeAccountId)
            && row.tradeId == trade.id && row.subscriptionId == p.subscription.id
            && row.status == trade.status && row.profit == None && row.id == firstId + k
            && row.lotSize == trade.lotSize * EffectiveMultiplier(p.subscription.lotSizeMultiplier)
  {
    var pairs := FanOutPairs(subs, links, trade.signalAccountId);
    FanOutPairsExactlyEligible(subs, links, trade.signalAccountId, pairs[k]);
  }

  /** The basic scenario: one active subscription with multiplier 2.0 and one active
      link; a trade of 0.5 lots yields exactly one copied trade of 1.0 lots. */
  lemma BasicFanOutScenario(trade: Trade, sub: Subscription, link: SubscriptionTradeAccount, now: Timestamp)
    requires trade.lotSize == 0.5
    requires sub.signalAccountId == trade.signalAccountId && sub.status == Some(Active)
    requires sub.lotSizeMultiplier == Some(2.0)
    requires link.subscriptionId == sub.id && link.isActive == Some(true)
    ensures |FanOutPairs([sub], [link], trade.signalAccountId)| == 1
    ensures NewRows(trade, FanOutPairs([sub], [link], trade.signalAccountId), 0, now)[0].lotSize == 1.0
  {
    assert ActiveLinkAccounts([link], sub.id) == [link.tradeAccountId];
    assert EligibleSubscriptions([sub], [link], trade.signalAccountId)
        == [EligibleSubscription(sub, [link.tradeAccountId])];
    var g := EligibleSubscription(sub, [link.tradeAccountId]);
    assert GroupPairs(g) == [Pair(sub, link.tradeAccountId)];
    assert PairsOf([g]) == GroupPairs(g) + PairsOf([]);
  }

  // ---------------------------------------------------------------------------
  // The handler

  /** Appending a row numbered with the next free id keeps the id invariant. */
  lemma AppendKeepsIdsBelow(copied: seq<CopiedTrade>, next: nat, row: CopiedTrade)
    requires CopiedIdsBelow(copied, next) && row.id == next
    ensures CopiedIdsBelow(copied + [row], next + 1)
  {
  }

  lemma NewRowsConcat(trade: Trade, p: seq<Pair>, q: seq<Pair>, firstId: nat, now: Timestamp)
    ensures NewRows(trade, p + q, firstId, now) == NewRows(trade, p, firstId, now) + NewRows(trade, q, firstId + |p|, now)
  {
  }

  lemma NewRowsTake(trade: Trade, p: seq<Pair>, firstId: nat, now: Timestamp, k: nat)
    requires k <= |p|
    ensures NewRows(trade, p, firstId, now)[..k] == NewRows(trade, p[..k], firstId, now)
  {
  }

  /** The state of the loop over the groups after `i` of them: `current` is the table
      with the first `count` rows of the invocation appended, and the count and the
      outcome keep their relation to the fault. */
  ghost predicate Inserted(trade: Trade, groups: seq<EligibleSubscription>, i: nat, ok: bool,
                           count: nat, firstId: nat, now: Timestamp, fault: Fault,
                           initial: seq<CopiedTrade>, current: seq<CopiedTrade>)
  {
    var rows := NewRows(trade, PairsOf(groups), firstId, now);
    && i <= |groups|
    && count <= |rows|
    && (ok ==> count == |PairsOf(groups[..i])| && !(fault.WriteFails? && fault.n < count))
    && (!ok ==> fault.WriteFails? && fault.n < |rows| && count == fault.n)
    && current == initial + rows[..count]
  }

  /** One pass of the loop over the groups keeps `Inserted`. */
  lemma InsertStep(trade: Trade, groups: seq<EligibleSubscription>, i: nat, done: nat,
                   groupOk: bool, c: nat, firstId: nat, now: Timestamp, fault: Fault,
                   initial: seq<CopiedTrade>, before: seq<CopiedTrade>, after: seq<CopiedTrade>)
    requires i < |groups| && Inserted(trade, groups, i, true, done, firstId, now, fault, initial, before)
    requires groupOk == !(fault.WriteFails? && fault.n < done + |groups[i].tradeAccountIds|)
    requires c == (if groupOk then |groups[i].tradeAccountIds| else fault.n - done)
    requires after == before + NewRows(trade, GroupPairs(groups[i]), firstId + done, now)[..c]
    ensures Inserted(trade, groups, i + 1, groupOk, done + c, firstId, now, fault, initial, after)
  {
    var rows := NewRows(trade, PairsOf(groups), firstId, now);
    var group := NewRows(trade, GroupPairs(groups[i]), firstId + done, now)[..c];
    GroupStep(trade, groups, i, done, c, firstId, now);
    assert rows[..done] + group == rows[..done + c];
    assert after == initial + (rows[..done] + group);
  }

  lemma GroupStep(trade: Trade, groups: seq<EligibleSubscription>, i: nat, done: nat, c: nat,
                  firstId: nat, now: Timestamp)
    requires i < |groups| && c <= |groups[i].tradeAccountIds| && done == |PairsOf(groups[..i])|
    ensures |PairsOf(groups[..i + 1])| == done + |groups[i].tradeAccountIds|
    ensures done + |groups[i].tradeAccountIds| <= |PairsOf(groups)|
    ensures NewRows(trade, PairsOf(groups), firstId, now)[..done]
            + NewRows(trade, GroupPairs(groups[i]), firstId + done, now)[..c]
            == NewRows(trade, PairsOf(groups), firstId, now)[..done + c]
  {
    PairsPrefixStep(groups, i);
    RowsBeforeFailure(trade, groups, i, c, firstId, now);
    RowsBeforeFailure(trade, groups, i, 0, firstId, now);
    RowsBeforeFailure(trade, groups, i, |groups[i].tradeAccountIds|, firstId, now);
  }

  /** The rows inserted before an insert fails inside the inner loop of group i, after
      c inserts there, are a prefix of all rows. */
  lemma RowsBeforeFailure(trade: Trade, groups: seq<EligibleSubscription>, i: nat, c: nat,
                          firstId: nat, now: Timestamp)
    requires i < |groups| && c <= |groups[i].tradeAccountIds|
    ensures |PairsOf(groups[..i])| + c <= |PairsOf(groups)|
    ensures NewRows(trade, PairsOf(groups), firstId, now)[..|PairsOf(groups[..i])| + c]
         == NewRows(trade, PairsOf(groups[..i]), firstId, now)
            + NewRows(trade, GroupPairs(groups[i]), firstId + |PairsOf(groups[..i])|, now)[..c]
  {
    var done := PairsOf(groups[..i]);
    var g := GroupPairs(groups[i]);
    assert groups == groups[..i] + groups[i..];
    PairsOfConcat(groups[..i], groups[i..]);
    assert groups[i..][1..] == groups[i + 1..];
    assert PairsOf(groups) == done + g + PairsOf(groups[i + 1..]);
    assert PairsOf(groups)[..|done| + c] == done + g[..c];
    NewRowsTake(trade, PairsOf(groups), firstId, now, |done| + c);
    NewRowsConcat(trade, done, g[..c], firstId, now);
    NewRowsTake(trade, g, firstId + |done|, now, c);
  }

  /** The inner loop for one subscription: insert a row for each of its trade accounts.
      `start` is the number of inserts made before this subscription. */
  method InsertForSubscription(db: Database, trade: Trade, e: EligibleSubscription, now: Timestamp,
                               fault: Fault, start: nat)
      returns (ok: bool, count: nat)
    requires db.Valid()
    requires !(fault.WriteFails? && fault.n < start)
    modifies db`copiedTrades, db`nextCopiedTradeId
    ensures db.Valid()
    ensures ok == !(fault.WriteFails? && fault.n < start + |e.tradeAccountIds|)
    ensures count == (if ok then |e.tradeAccountIds| else fault.n - start)
    ensures db.copiedTrades == old(db.copiedTrades)
                               + NewRows(trade, GroupPairs(e), old(db.nextCopiedTradeId), now)[..count]
    ensures db.nextCopiedTradeId == old(db.nextCopiedTradeId) + count
  {
    ghost var initial, firstId := db.copiedTrades, db.nextCopiedTradeId;
    ghost var rows := NewRows(trade, GroupPairs(e), firstId, now);
    var subscription := e.subscription;
    var accounts := e.tradeAccountIds;
    for j := 0 to |accounts|
      invariant db.copiedTrades == initial + rows[..j]
      invariant db.nextCopiedTradeId == firstId + j
      invariant !(fault.WriteFails? && fault.n < start + j)
      invariant db.Valid()
    {
      var lotSize := trade.lotSize * EffectiveMultiplier(subscription.lotSizeMultiplier);
      if fault == WriteFails(start + j) {
        return false, j;
      }
      var copied := CopiedTrade(db.nextCopiedTradeId, trade.id, subscription.id, accounts[j],
                                lotSize, trade.status, None, now, None);
      assert copied == rows[j];
      assert rows[..j + 1] == rows[..j] + [copied];
      AppendKeepsIdsBelow(db.copiedTrades, db.nextCopiedTradeId, copied);
      db.copiedTrades := db.copiedTrades + [copied];
      db.nextCopiedTradeId := db.nextCopiedTradeId + 1;
    }
    assert rows[..|accounts|] == rows;
    return true, |accounts|;
  }

  /** The nested insert loop: one insert per pair, in loop order, stopping at the first
      failed insert. `count` is the number of rows inserted (`copiedTradesResults.length`). */
  method InsertCopiedTrades(db: Database, trade: Trade, subscriptions: seq<EligibleSubscription>,
                            now: Timestamp, fault: Fault) returns (ok: bool, count: nat)
    requires db.Valid()
    modifies db`copiedTrades, db`nextCopiedTradeId
    ensures db.Valid()
    ensures var rows := NewRows(trade, PairsOf(subscriptions), old(db.nextCopiedTradeId), now);
      && ok == !(fault.WriteFails? && fault.n < |rows|)
      && count == (if ok then |rows| else fault.n)
      && count <= |rows|
      && db.copiedTrades == old(db.copiedTrades) + rows[..count]
      && db.nextCopiedTradeId == old(db.nextCopiedTradeId) + count
  {
    ghost var base := db.nextCopiedTradeId;
    ghost var initial := db.copiedTrades;
    count := 0;
    ok := true;
    var i := 0;
    while i < |subscriptions| && ok
      invariant Inserted(trade, subscriptions, i, ok, count, base, now, fault, initial, db.copiedTrades)
      invariant db.nextCopiedTradeId == base + count
      invariant db.Valid()
    {
      ghost var before := db.copiedTrades;
      var groupOk, inserted := InsertForSubscription(db, trade, subscriptions[i], now, fault, count);
      InsertStep(trade, subscriptions, i, count, groupOk, inserted, base, now, fault,
                 initial, before, db.copiedTrades);
      ok := groupOk;
      count := count + inserted;
      i := i + 1;
    }
    if ok {
      assert subscriptions[..|subscriptions|] == subscriptions;
    }
  }

  /** `copy_trade`: a missing id and an unknown trade fail before any insert; otherwise
      one row is inserted per fan-out pair, in loop order. An insert failure stops the
      loop with an error; the rows inserted before it stay. Only `copied_trades` is written. */
  method CopyTrade(db: Database, tradeId: Option<Id>, now: Timestamp, fault: Fault)
      returns (r: Result<FanOutResult>)
    requires db.Valid()
    modifies db`copiedTrades, db`nextCopiedTradeId
    ensures db.Valid()
    ensures db.trades == old(db.trades) && db.subscriptions == old(db.subscriptions)
    ensures db.subscriptionTradeAccounts == old(db.subscriptionTradeAccounts)
    ensures !IdGiven(tradeId) ==>
      r == Err(TradeIdRequired) && db.copiedTrades == old(db.copiedTrades)
      && db.nextCopiedTradeId == old(db.nextCopiedTradeId)
    ensures IdGiven(tradeId) && fault == ReadFails(0) ==>
      r == Err(FetchTradeFailed(false)) && db.copiedTrades == old(db.copiedTrades)
      && db.nextCopiedTradeId == old(db.nextCopiedTradeId)
    ensures IdGiven(tradeId) && fault != ReadFails(0) && TradeIndex(old(db.trades), tradeId.value).None? ==>
      r == Err(FetchTradeFailed(true)) && db.copiedTrades == old(db.copiedTrades)
      && db.nextCopiedTradeId == old(db.nextCopiedTradeId)
    ensures IdGiven(tradeId) && fault != ReadFails(0) && TradeIndex(old(db.trades), tradeId.value).Some? ==>
      var trade := old(db.trades)[TradeIndex(old(db.trades), tradeId.value).value];
      var rows := NewRows(trade, FanOutPairs(old(db.subscriptions), old(db.subscriptionTradeAccounts),
                                             trade.signalAccountId), old(db.nextCopiedTradeId), now);
      if fault == ReadFails(1) then
        r == Err(FetchSubscriptionsFailed) && db.copiedTrades == old(db.copiedTrades)
        && db.nextCopiedTradeId == old(db.nextCopiedTradeId)
      else if fault.WriteFails? && fault.n < |rows| then
        r == Err(CreateCopiedTradeFailed) && db.copiedTrades == old(db.copiedTrades) + rows[..fault.n]
        && db.nextCopiedTradeId == old(db.nextCopiedTradeId) + fault.n
      else
        r == Ok(FanOutResult(trade, |rows|)) && db.copiedTrades == old(db.copiedTrades) + rows
        && db.nextCopiedTradeId == old(db.nextCopiedTradeId) + |rows|
  {
    if !IdGiven(tradeId) {
      return Err(TradeIdRequired);
    }
    if fault == ReadFails(0) {
      return Err(FetchTradeFailed(false));
    }
    var found := TradeIndex(db.trades, tradeId.value);
    if found.None? {
      return Err(FetchTradeFailed(true));
    }
    var trade := db.trades[found.value];
    if fault == ReadFails(1) {
      return Err(FetchSubscriptionsFailed);
    }
    var subscriptions := EligibleSubscriptions(db.subscriptions, db.subscriptionTradeAccounts, trade.signalAccountId);
    ghost var rows := NewRows(trade, PairsOf(subscriptions), db.nextCopiedTradeId, now);
    var ok, count := InsertCopiedTrades(db, trade, subscriptions, now, fault);
    if !ok {
      return Err(CreateCopiedTradeFailed);
    }
    assert rows[..count] == rows;
    return Ok(FanOutResult(trade, count));
  }
}

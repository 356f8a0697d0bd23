/** The subscriber's copied-trades table: `filterTrades` narrows the open trades and the
    trade history by trade account, by signal account and by a case-insensitive search. */
module CopiedTradesSection {
  import Seqs
  import Text

  datatype Side = Buy | Sell
  datatype TradeStatus = Open | Closed

  /** A copied trade as the table shows it: accounts by display name. */
  datatype CopiedTradeRow = CopiedTradeRow(
    id: string,
    signalAccount: string,
    tradeAccount: string,
    symbol: string,
    side: Side,
    openPrice: real,
    lotSize: real,
    status: TradeStatus,
    profit: real)

  /** The selector value that means "no restriction". */
  const All: string := "All"

  /** The component's filter state. */
  datatype Selection = Selection(tradeAccount: string, signalAccount: string, searchTerm: string)

  predicate MatchesTradeAccount(t: CopiedTradeRow, sel: Selection) {
    sel.tradeAccount == All || t.tradeAccount == sel.tradeAccount
  }

  predicate MatchesSignalAccount(t: CopiedTradeRow, sel: Selection) {
    sel.signalAccount == All || t.signalAccount == sel.signalAccount
  }

  predicate MatchesSearch(t: CopiedTradeRow, sel: Selection) {
    sel.searchTerm == ""
    || Text.MatchesTerm(t.symbol, sel.searchTerm)
    || Text.MatchesTerm(t.signalAccount, sel.searchTerm)
    || Text.MatchesTerm(t.tradeAccount, sel.searchTerm)
  }

  /** The three tests together. */
  predicate Keep(t: CopiedTradeRow, sel: Selection) {
    MatchesTradeAccount(t, sel) && MatchesSignalAccount(t, sel) && MatchesSearch(t, sel)
  }

  /** `filterTrades`. */
  function FilterTrades(trades: seq<CopiedTradeRow>, sel: Selection): seq<CopiedTradeRow> {
    Seqs.Filter(trades, (t: CopiedTradeRow) => Keep(t, sel))
  }

  /** The filter keeps the table's order and invents nothing. */
  lemma FilterTradesOrdered(trades: seq<CopiedTradeRow>, sel: Selection)
    ensures Seqs.IsSubsequence(FilterTrades(trades, sel), trades)
  {
    Seqs.FilterIsSubsequence(trades, (t: CopiedTradeRow) => Keep(t, sel));
  }

  /** A trade is listed exactly when it is in the table and passes all three tests, so
      a trade passing them is never dropped. */
  lemma FilterTradesExact(trades: seq<CopiedTradeRow>, sel: Selection, t: CopiedTradeRow)
    ensures t in FilterTrades(trades, sel) <==> t in trades && Keep(t, sel)
  {
    Seqs.FilterMembership(trades, (u: CopiedTradeRow) => Keep(u, sel), t);
  }

  /** The initial state, both selectors "All" and no search, shows the whole table. */
  lemma NoRestrictionKeepsAll(trades: seq<CopiedTradeRow>)
    ensures FilterTrades(trades, Selection(All, All, "")) == trades
  {
    Seqs.FilterKeepsAll(trades, (t: CopiedTradeRow) => Keep(t, Selection(All, All, "")));
  }

  /** A chosen trade account or signal account is the account of every listed trade. */
  lemma SelectorsRestrict(trades: seq<CopiedTradeRow>, sel: Selection, t: CopiedTradeRow)
    requires t in FilterTrades(trades, sel)
    ensures sel.tradeAccount != All ==> t.tradeAccount == sel.tradeAccount
    ensures sel.signalAccount != All ==> t.signalAccount == sel.signalAccount
  {
    FilterTradesExact(trades, sel, t);
  }

  /** With a search term, every listed trade has it, ignoring case, in its symbol, its
      signal account or its trade account. */
  lemma SearchRestricts(trades: seq<CopiedTradeRow>, sel: Selection, t: CopiedTradeRow)
    requires sel.searchTerm != "" && t in FilterTrades(trades, sel)
    ensures Text.MatchesTerm(t.symbol, sel.searchTerm) || Text.MatchesTerm(t.signalAccount, sel.searchTerm)
            || Text.MatchesTerm(t.tradeAccount, sel.searchTerm)
  {
    FilterTradesExact(trades, sel, t);
  }

  /** Narrowing a selector from "All" to one account can only remove trades. */
  lemma NarrowingShrinks(trades: seq<CopiedTradeRow>, sel: Selection, account: string)
    requires sel.tradeAccount == All
    ensures Seqs.IsSubsequence(FilterTrades(trades, sel.(tradeAccount := account)), FilterTrades(trades, sel))
  {
    var narrowSel := sel.(tradeAccount := account);
    Seqs.FilterStricter(trades, (t: CopiedTradeRow) => Keep(t, sel), (t: CopiedTradeRow) => Keep(t, narrowSel));
  }
}

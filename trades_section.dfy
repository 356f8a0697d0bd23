/** The provider's trades panel: which signal accounts it lists, which one is selected,
    and how the selected account's trades split into the "open" and "closed" tables. */
module TradesSection {
  import Seqs

  datatype TradeStatus = Open | Closed

  /** A trade as the panel holds it; prices, times and pips are display-only. */
  datatype Trade = Trade(id: string, pair: string, status: TradeStatus)

  datatype SignalAccount = SignalAccount(id: string, name: string, trades: seq<Trade>)

  /** The built-in accounts shown when the caller passes none. */
  const DefaultAccounts: seq<SignalAccount> := [
    SignalAccount("acc1", "Aggressive Scalper", [
      Trade("t1", "EUR/USD", Open),
      Trade("t2", "GBP/USD", Open),
      Trade("t3", "USD/JPY", Closed),
      Trade("t4", "AUD/USD", Closed)]),
    SignalAccount("acc2", "Trend Follower", [
      Trade("t5", "EUR/JPY", Open),
      Trade("t6", "USD/CAD", Closed)])
  ]

  /** The accounts listed: the given ones, or the defaults when none are given. */
  function Accounts(signalAccounts: seq<SignalAccount>): (r: seq<SignalAccount>)
    ensures |r| > 0
    ensures |signalAccounts| > 0 ==> r == signalAccounts
    ensures signalAccounts == [] ==> r == DefaultAccounts
  {
    if |signalAccounts| > 0 then signalAccounts else DefaultAccounts
  }

  /** The selection the panel starts with: the first given account's id, or "". */
  function InitialSelection(signalAccounts: seq<SignalAccount>): (r: string)
    ensures signalAccounts == [] ==> r == ""
    ensures signalAccounts != [] ==> r == signalAccounts[0].id
  {
    if |signalAccounts| > 0 && signalAccounts[0].id != "" then signalAccounts[0].id else ""
  }

  /** The position of the first account with the given id, or |accounts| when there is none. */
  function FindIndex(accounts: seq<SignalAccount>, id: string): (r: nat)
    ensures r <= |accounts|
    ensures r < |accounts| ==> accounts[r].id == id
    ensures forall j :: 0 <= j < r ==> accounts[j].id != id
  {
    if accounts == [] then 0
    else if accounts[0].id == id then 0
    else 1 + FindIndex(accounts[1..], id)
  }

  /** The account whose trades are shown: the first listed account with the selected id,
      falling back to the first listed account. */
  function CurrentAccount(signalAccounts: seq<SignalAccount>, selected: string): SignalAccount {
    var accounts := Accounts(signalAccounts);
    var i := FindIndex(accounts, selected);
    if i < |accounts| then accounts[i] else accounts[0]
  }

  /** The current account is a listed account; it has the selected id whenever some listed
      account does, and it is the earliest such account. */
  lemma CurrentAccountChosen(signalAccounts: seq<SignalAccount>, selected: string)
    ensures CurrentAccount(signalAccounts, selected) in Accounts(signalAccounts)
    ensures (exists a :: a in Accounts(signalAccounts) && a.id == selected)
            <==> CurrentAccount(signalAccounts, selected).id == selected
    ensures (forall a :: a in Accounts(signalAccounts) ==> a.id != selected)
            ==> CurrentAccount(signalAccounts, selected) == Accounts(signalAccounts)[0]
  {
    var accounts := Accounts(signalAccounts);
    var i := FindIndex(accounts, selected);
    if i == |accounts| {
      forall a | a in accounts ensures a.id != selected {
        var j :| 0 <= j < |accounts| && accounts[j] == a;
      }
    }
  }

  /** At first the panel shows the first listed account. */
  lemma InitialShowsFirstAccount(signalAccounts: seq<SignalAccount>)
    ensures CurrentAccount(signalAccounts, InitialSelection(signalAccounts)) == Accounts(signalAccounts)[0]
  {
    var accounts := Accounts(signalAccounts);
    if signalAccounts == [] {
      assert FindIndex(accounts[1..], "") == 1;
    }
  }

  function IsOpen(t: Trade): bool { t.status == Open }

  function IsClosed(t: Trade): bool { t.status == Closed }

  /** The "open trades" table of an account. */
  function OpenTrades(account: SignalAccount): seq<Trade> {
    Seqs.Filter(account.trades, IsOpen)
  }

  /** The "trade history" table of an account. */
  function ClosedTrades(account: SignalAccount): seq<Trade> {
    Seqs.Filter(account.trades, IsClosed)
  }

  /** Both tables keep the account's order; each holds exactly the trades of its status. */
  lemma TablesExact(account: SignalAccount, t: Trade)
    ensures Seqs.IsSubsequence(OpenTrades(account), account.trades)
    ensures Seqs.IsSubsequence(ClosedTrades(account), account.trades)
    ensures t in OpenTrades(account) <==> t in account.trades && t.status == Open
    ensures t in ClosedTrades(account) <==> t in account.trades && t.status == Closed
  {
    Seqs.FilterIsSubsequence(account.trades, IsOpen);
    Seqs.FilterIsSubsequence(account.trades, IsClosed);
    Seqs.FilterMembership(account.trades, IsOpen, t);
    Seqs.FilterMembership(account.trades, IsClosed, t);
  }

  /** Since a trade is either open or closed, the two tables together hold every trade of
      the account exactly once. */
  lemma TablesPartition(account: SignalAccount)
    ensures |OpenTrades(account)| + |ClosedTrades(account)| == |account.trades|
    ensures multiset(OpenTrades(account)) + multiset(ClosedTrades(account)) == multiset(account.trades)
  {
    Seqs.FilterPartition(account.trades, IsOpen, IsClosed);
  }

  /** The first default account has two open trades followed by two closed ones. */
  lemma FirstDefaultTables()
    ensures OpenTrades(DefaultAccounts[0]) == DefaultAccounts[0].trades[..2]
    ensures ClosedTrades(DefaultAccounts[0]) == DefaultAccounts[0].trades[2..]
  {
    var ts := DefaultAccounts[0].trades;
    var tail := ts[2..];
    assert tail[1..][1..] == [];
    assert Seqs.Filter(tail, IsOpen) == [];
    assert Seqs.Filter(tail[1..], IsClosed) == [tail[1]];
    assert Seqs.Filter(tail, IsClosed) == tail;
    assert ts[1..][1..] == tail;
    assert Seqs.Filter(ts[1..], IsOpen) == [ts[1]];
    assert Seqs.Filter(ts[1..], IsClosed) == tail;
  }

  /** With no accounts given, the panel shows "Aggressive Scalper" with two open trades
      and two closed ones. */
  lemma DefaultPanel()
    ensures CurrentAccount([], InitialSelection([])).name == "Aggressive Scalper"
    ensures |OpenTrades(CurrentAccount([], InitialSelection([])))| == 2
    ensures |ClosedTrades(CurrentAccount([], InitialSelection([])))| == 2
  {
    InitialShowsFirstAccount([]);
    FirstDefaultTables();
  }
}

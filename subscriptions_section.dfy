/** The subscriber's subscriptions panel: the trial tabs that filter the list and the
    badges each subscription card shows. */
module SubscriptionsSection {
  import Seqs

  datatype TrialStatus = TrialActive | TrialExpired | NoTrial
  datatype Status = Active | Inactive

  /** A subscription card's data; names, lot size and switches are display-only here. */
  datatype Subscription = Subscription(id: string, providerName: string, trialStatus: TrialStatus, subscriptionStatus: Status)

  /** The string value of a trial status, which the panel compares with the tab value. */
  function TrialName(t: TrialStatus): (r: string)
    ensures r == "active" <==> t == TrialActive
    ensures r == "expired" <==> t == TrialExpired
    ensures r == "none" <==> t == NoTrial
  {
    match t
    case TrialActive => "active"
    case TrialExpired => "expired"
    case NoTrial => "none"
  }

  /** The panel's tabs, by value, and the caption of each. */
  const Tabs: seq<string> := ["all", "active", "expired"]

  function TabCaption(tab: string): string {
    if tab == "all" then "All Subscriptions"
    else if tab == "active" then "Trial Active"
    else if tab == "expired" then "Trial Expired"
    else ""
  }

  /** The default list used when the caller passes none. */
  const DefaultSubscriptions: seq<Subscription> := [
    Subscription("sub1", "TraderJoe", TrialActive, Active),
    Subscription("sub2", "ForexMaster", TrialExpired, Active),
    Subscription("sub3", "SwingTrader", TrialActive, Active)
  ]

  function HasTrial(tab: string): Subscription -> bool {
    (sub: Subscription) => TrialName(sub.trialStatus) == tab
  }

  /** `filteredSubscriptions`: the whole list on "all", otherwise the subscriptions whose
      trial status is the tab value. */
  function Filtered(subscriptions: seq<Subscription>, tab: string): seq<Subscription> {
    if tab == "all" then subscriptions else Seqs.Filter(subscriptions, HasTrial(tab))
  }

  /** Any tab lists a subsequence of the subscriptions; "all" lists them unchanged. */
  lemma FilteredOrdered(subscriptions: seq<Subscription>, tab: string)
    ensures Seqs.IsSubsequence(Filtered(subscriptions, tab), subscriptions)
    ensures tab == "all" ==> Filtered(subscriptions, tab) == subscriptions
  {
    if tab == "all" {
      Seqs.SubsequenceReflexive(subscriptions);
    } else {
      Seqs.FilterIsSubsequence(subscriptions, HasTrial(tab));
    }
  }

  /** Any other tab lists exactly the subscriptions whose trial status has the tab's value. */
  lemma FilteredExact(subscriptions: seq<Subscription>, tab: string, sub: Subscription)
    requires tab != "all"
    ensures sub in Filtered(subscriptions, tab) <==> sub in subscriptions && TrialName(sub.trialStatus) == tab
  {
    Seqs.FilterMembership(subscriptions, HasTrial(tab), sub);
  }

  /** A subscription without a trial appears on the "all" tab only. */
  lemma NoTrialOnlyUnderAll(subscriptions: seq<Subscription>, tab: string, sub: Subscription)
    requires tab in Tabs && sub in subscriptions && sub.trialStatus == NoTrial
    ensures sub in Filtered(subscriptions, tab) <==> tab == "all"
  {
    if tab != "all" {
      FilteredExact(subscriptions, tab, sub);
    }
  }

  /** The two trial tabs never list the same subscription, so together they hold no more
      than the whole list. */
  lemma TrialTabsDisjoint(subscriptions: seq<Subscription>)
    ensures |Filtered(subscriptions, "active")| + |Filtered(subscriptions, "expired")| <= |subscriptions|
  {
    Seqs.FilterDisjointCount(subscriptions, HasTrial("active"), HasTrial("expired"));
  }

  /** `getTrialBadge`: a badge for a running or an expired trial, none otherwise. */
  datatype TrialBadge = NoBadge | Badge(text: string)

  function TrialBadgeOf(sub: Subscription): TrialBadge {
    if sub.trialStatus == TrialActive then Badge("Trial Active")
    else if sub.trialStatus == TrialExpired then Badge("Trial Expired")
    else NoBadge
  }

  /** A card carries a trial badge exactly when its subscription is listed under one of the
      trial tabs, and the badge reads as that tab's caption. */
  lemma TrialBadgeMatchesTab(subscriptions: seq<Subscription>, sub: Subscription)
    requires sub in subscriptions
    ensures TrialBadgeOf(sub) == NoBadge
            <==> forall tab :: tab in Tabs && tab != "all" ==> sub !in Filtered(subscriptions, tab)
    ensures forall tab :: tab in Tabs && tab != "all" ==>
              (sub in Filtered(subscriptions, tab) <==> TrialBadgeOf(sub) == Badge(TabCaption(tab)))
  {
    FilteredExact(subscriptions, "active", sub);
    FilteredExact(subscriptions, "expired", sub);
  }

  /** `getStatusBadge`: "Active" for an active subscription and "Inactive" otherwise. */
  function StatusBadge(sub: Subscription): (r: string)
    ensures r == "Active" <==> sub.subscriptionStatus == Active
    ensures r == "Inactive" <==> sub.subscriptionStatus != Active
  {
    if sub.subscriptionStatus == Active then "Active" else "Inactive"
  }

  /** With the default list, "all" shows three cards, "active" two and "expired" one. */
  lemma DefaultTabs()
    ensures |Filtered(DefaultSubscriptions, "all")| == 3
    ensures Filtered(DefaultSubscriptions, "active") == [DefaultSubscriptions[0], DefaultSubscriptions[2]]
    ensures Filtered(DefaultSubscriptions, "expired") == [DefaultSubscriptions[1]]
  {
    var s := DefaultSubscriptions;
    assert s[1..][1..][1..] == [];
    assert Seqs.Filter(s[1..][1..], HasTrial("active")) == [s[2]];
    assert Seqs.Filter(s[1..], HasTrial("active")) == [s[2]];
    assert Seqs.Filter(s[1..][1..], HasTrial("expired")) == [];
    assert Seqs.Filter(s[1..], HasTrial("expired")) == [s[1]];
  }
}

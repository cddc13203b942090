/**
 * What the alerts section (warframe-frontend/src/components/alerts-section.tsx)
 * shows for a logged-in user: the red "triggered" banner with its list, and
 * the "Your Alerts" list. Its alert list and edit dialog are
 * `PriceAlerts.AlertEditor`.
 */
module AlertsSection {
  import opened Seqs
  import opened PriceAlerts

  /** The triggered block: absent, or shown with the triggered alerts. */
  datatype Banner = NoBanner | Banner(alerts: seq<Alert>)

  /** `alerts.some(a => a.isTriggered) && ... alerts.filter(a => a.isTriggered)`. */
  function TriggeredBanner(alerts: seq<Alert>): (b: Banner)
    ensures b.Banner? <==> exists i :: 0 <= i < |alerts| && alerts[i].isTriggered
    ensures b.Banner? ==> b.alerts != [] && forall a :: a in b.alerts <==> a in alerts && a.isTriggered
  {
    AnyTriggeredIffListed(alerts);
    TriggeredPartition(alerts);
    if AnyTriggered(alerts) then Banner(Triggered(alerts)) else NoBanner
  }

  /** The "Your Alerts" block: the empty-state message, or a list. */
  datatype AlertList = EmptyState | Listed(alerts: seq<Alert>)

  /** `alerts.length > 0 ? alerts.filter(a => !a.isTriggered) : <empty state>`. */
  function YourAlerts(alerts: seq<Alert>): (l: AlertList)
    ensures l.EmptyState? <==> alerts == []
    ensures l.Listed? ==> forall a :: a in l.alerts <==> a in alerts && !a.isTriggered
  {
    TriggeredPartition(alerts);
    if |alerts| > 0 then Listed(Untriggered(alerts)) else EmptyState
  }

  /**
   * Every alert appears in exactly one of the two blocks, as often as in the
   * fetched list and in its order.
   */
  lemma EveryAlertShownOnce(alerts: seq<Alert>)
    requires alerts != []
    ensures var shown := (if TriggeredBanner(alerts).Banner? then TriggeredBanner(alerts).alerts else [])
        + YourAlerts(alerts).alerts;
      multiset(shown) == multiset(alerts) && |shown| == |alerts|
    ensures IsSubsequence(YourAlerts(alerts).alerts, alerts)
  {
    TriggeredPartition(alerts);
    AnyTriggeredIffListed(alerts);
  }

  /**
   * When every alert is triggered the "Your Alerts" block lists nothing and
   * shows no empty-state message either: the message is only for a user
   * with no alerts at all.
   */
  lemma {:induction false} AllTriggeredLeavesListBlank(alerts: seq<Alert>)
    requires alerts != []
    requires forall i :: 0 <= i < |alerts| ==> alerts[i].isTriggered
    ensures YourAlerts(alerts) == Listed([])
    ensures TriggeredBanner(alerts) == Banner(alerts)
  {
    TriggeredPartition(alerts);
    FilterKeepsAll(alerts, (a: Alert) => a.isTriggered);
    assert alerts[0].isTriggered;
  }
}

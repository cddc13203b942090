/**
 * The notification bell (warframe-frontend/src/components/NotificationBell.tsx):
 * the badge over the bell icon and what a click on a notification does.
 * Its alert list and edit dialog are `PriceAlerts.AlertEditor`; its
 * notifications are a `Notifications.NotificationStore`.
 */
module Bell {
  import opened Seqs
  import opened PriceAlerts
  import opened Notifications

  /** `alerts.filter(a => a.isTriggered).length`. */
  function TriggeredCount(alerts: seq<Alert>): (n: nat)
    ensures n == CountTriggered(alerts) <= |alerts|
    ensures n == 0 <==> !AnyTriggered(alerts)
  {
    TriggeredLengthIsCount(alerts);
    TriggeredPartition(alerts);
    AnyTriggeredIffListed(alerts);
    |Triggered(alerts)|
  }

  /** `unreadCount + (triggeredAlerts > 0 ? 1 : 0)`. */
  function BadgeCount(unreadCount: nat, alerts: seq<Alert>): (c: nat)
    ensures unreadCount <= c <= unreadCount + 1
    ensures c == unreadCount + 1 <==> AnyTriggered(alerts)
  {
    unreadCount + (if TriggeredCount(alerts) > 0 then 1 else 0)
  }

  /** `badgeCount > 0 || totalAlerts > 0`. */
  predicate BadgeVisible(unreadCount: nat, alerts: seq<Alert>) {
    BadgeCount(unreadCount, alerts) > 0 || |alerts| > 0
  }

  /**
   * The badge shows whenever there is an unread notification or any alert at
   * all; triggered alerts never show it on their own, since a triggered alert
   * is an alert.
   */
  lemma BadgeVisibleSpec(unreadCount: nat, alerts: seq<Alert>)
    ensures BadgeVisible(unreadCount, alerts) <==> unreadCount > 0 || alerts != []
  {
  }

  /** The text of the badge: "9+" or a number. */
  datatype BadgeLabel = NinePlus | Count(n: nat)

  /** `badgeCount > 9 ? "9+" : badgeCount || totalAlerts`. */
  function Label(unreadCount: nat, alerts: seq<Alert>): (l: BadgeLabel)
    ensures l == NinePlus <==> unreadCount + (if AnyTriggered(alerts) then 1 else 0) > 9
  {
    var badge := BadgeCount(unreadCount, alerts);
    if badge > 9 then NinePlus
    else if badge != 0 then Count(badge)
    else Count(|alerts|)
  }

  /**
   * With something unread or triggered the badge counts those, capped at
   * "9+"; otherwise it shows the number of alerts, which the cap does not
   * reach. A visible badge never reads 0.
   */
  lemma LabelSpec(unreadCount: nat, alerts: seq<Alert>)
    ensures unreadCount > 0 || AnyTriggered(alerts) ==>
      Label(unreadCount, alerts) == NinePlus || Label(unreadCount, alerts) == Count(BadgeCount(unreadCount, alerts))
    ensures unreadCount == 0 && !AnyTriggered(alerts) ==> Label(unreadCount, alerts) == Count(|alerts|)
    ensures Label(unreadCount, alerts).Count? && Label(unreadCount, alerts).n > 9 ==>
      unreadCount == 0 && !AnyTriggered(alerts)
    ensures BadgeVisible(unreadCount, alerts) ==> Label(unreadCount, alerts) != Count(0)
  {
  }

  /**
   * Ten untriggered alerts and nothing unread: the badge reads 10, not "9+",
   * because the cap applies to `badgeCount` only.
   */
  lemma {:induction false} AlertTotalIsNotCapped(alerts: seq<Alert>)
    requires |alerts| == 10
    requires forall i :: 0 <= i < |alerts| ==> !alerts[i].isTriggered
    ensures Label(0, alerts) == Count(10)
  {
    assert !AnyTriggered(alerts);
  }

  /**
   * A click on a notification (the row and its check button alike) marks it
   * read only when it is unread, `accepted` being the server's answer. A
   * counter that was in step with the list of distinct ids stays in step.
   */
  method ClickNotification(store: NotificationStore, n: Notification, accepted: bool)
    requires store.Valid()
    modifies store
    ensures store.Valid()
    ensures n.isRead ==> store.notifications == old(store.notifications) && store.unreadCount == old(store.unreadCount)
    ensures !n.isRead && accepted ==>
      store.notifications == MarkRead(old(store.notifications), n.id)
      && store.unreadCount == if old(store.unreadCount) > 0 then old(store.unreadCount) - 1 else 0
    ensures !accepted ==> store.notifications == old(store.notifications) && store.unreadCount == old(store.unreadCount)
    ensures n in old(store.notifications) && DistinctIds(old(store.notifications))
      && old(store.unreadCount) == CountUnread(old(store.notifications))
      ==> store.unreadCount == CountUnread(store.notifications)
  {
    ghost var list := store.notifications;
    if !n.isRead {
      store.MarkAsRead(n.id, accepted);
      if accepted && n in list && DistinctIds(list) && old(store.unreadCount) == CountUnread(list) {
        var k :| 0 <= k < |list| && list[k] == n;
        MarkUnreadCountsDown(list, k);
      }
    }
  }
}

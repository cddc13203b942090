/**
 * The client-side notification store (warframe-frontend/src/hooks/useNotifications.ts):
 * the list of unread notifications fetched from the server, an unread
 * counter, which fetched notifications are new, and marking as read.
 *
 * Each request's outcome is a parameter: `None` for a failed request (an
 * error status or a network error), `Some(list)` for the body of a
 * successful `GET /api/Alert/notifications/unread`.
 */
module Notifications {
  import opened Wrappers
  import opened Seqs

  datatype Notification = Notification(
    id: int,
    message: string,
    createdAt: string,
    isRead: bool,
    triggeredPrice: int,
    itemName: string,
    priceAlertId: int
  )

  /** `new Set(list.map(n => n.id))`. */
  function Ids(list: seq<Notification>): (ids: set<int>) {
    set n | n in list :: n.id
  }

  /** The fetched notifications whose id the previous list does not hold: one toast each. */
  function NewOnes(previous: seq<Notification>, fetched: seq<Notification>): (added: seq<Notification>)
    ensures |added| <= |fetched|
  {
    Filter(fetched, (n: Notification) => n.id !in Ids(previous))
  }

  /**
   * The new notifications are exactly the fetched ones with an id that was not
   * in the previous list, in fetched order.
   */
  lemma NewOnesSpec(previous: seq<Notification>, fetched: seq<Notification>)
    ensures forall n :: n in NewOnes(previous, fetched) <==>
      n in fetched && forall m :: m in previous ==> m.id != n.id
    ensures IsSubsequence(NewOnes(previous, fetched), fetched)
  {
    FilterIsSubsequence(fetched, (n: Notification) => n.id !in Ids(previous));
  }

  /** Fetching the same list again reports nothing new, so no toast is repeated. */
  lemma SameListNothingNew(list: seq<Notification>)
    ensures NewOnes(list, list) == []
  {
    assert forall n :: n in list ==> n.id in Ids(list);
  }

  /**
   * When the server's list grows by notifications with fresh ids, exactly those
   * are new, in the order they arrived.
   */
  lemma {:induction false} GrownListOnlyAdditionsNew(list: seq<Notification>, added: seq<Notification>)
    requires forall n, m :: n in added && m in list ==> n.id != m.id
    ensures NewOnes(list, list + added) == added
  {
    var p := (n: Notification) => n.id !in Ids(list);
    FilterConcat(list, added, p);
    SameListNothingNew(list);
    FilterKeepsAll(added, p);
  }

  /** `markAsRead` on the local list: the entry with that id becomes read. */
  function MarkRead(list: seq<Notification>, id: int): (r: seq<Notification>)
    ensures |r| == |list|
  {
    seq(|list|, i requires 0 <= i < |list| => if list[i].id == id then list[i].(isRead := true) else list[i])
  }

  /** `markAllAsRead` on the local list: every entry becomes read. */
  function MarkAllRead(list: seq<Notification>): (r: seq<Notification>)
    ensures |r| == |list|
    ensures forall i :: 0 <= i < |r| ==> r[i] == list[i].(isRead := true)
    ensures forall i :: 0 <= i < |r| ==> r[i].isRead && r[i].id == list[i].id
    ensures forall i :: 0 <= i < |r| && list[i].isRead ==> r[i] == list[i]
  {
    seq(|list|, i requires 0 <= i < |list| => list[i].(isRead := true))
  }

  /**
   * Marking one notification read touches only the entries with that id and
   * only their read flag; length, order and every other entry are kept.
   */
  lemma MarkReadSpec(list: seq<Notification>, id: int)
    ensures |MarkRead(list, id)| == |list|
    ensures forall i :: 0 <= i < |list| ==> MarkRead(list, id)[i].id == list[i].id
    ensures forall i :: 0 <= i < |list| && list[i].id != id ==> MarkRead(list, id)[i] == list[i]
    ensures forall i :: 0 <= i < |list| && list[i].id == id ==>
      MarkRead(list, id)[i].isRead && MarkRead(list, id)[i] == list[i].(isRead := true)
    ensures Ids(MarkRead(list, id)) == Ids(list)
  {
    var r := MarkRead(list, id);
    forall x | x in Ids(r) ensures x in Ids(list) {
      var n :| n in r && n.id == x;
      var k :| 0 <= k < |r| && r[k] == n;
      assert list[k] in list;
    }
    forall x | x in Ids(list) ensures x in Ids(r) {
      var n :| n in list && n.id == x;
      var k :| 0 <= k < |list| && list[k] == n;
      assert r[k] in r;
    }
  }

  /**
   * The `markAsRead` calls that `markAllAsRead` starts together may finish in
   * any order: marking commutes and is idempotent.
   */
  lemma MarkReadCommutes(list: seq<Notification>, a: int, b: int)
    ensures MarkRead(MarkRead(list, a), b) == MarkRead(MarkRead(list, b), a)
    ensures MarkRead(MarkRead(list, a), a) == MarkRead(list, a)
  {
  }

  /** `notifications.filter(n => !n.isRead)`: the unread entries, in list order. */
  function Unread(list: seq<Notification>): (unread: seq<Notification>)
    ensures IsSubsequence(unread, list)
    ensures forall n :: n in unread <==> n in list && !n.isRead
  {
    FilterIsSubsequence(list, (n: Notification) => !n.isRead);
    Filter(list, (n: Notification) => !n.isRead)
  }

  /**
   * The ids `markAllAsRead` sends a request for: one per unread entry, the
   * k-th being that of the k-th unread entry.
   */
  function UnreadIds(list: seq<Notification>): (ids: seq<int>)
    ensures |ids| == CountUnread(list) <= |list|
    ensures forall k :: 0 <= k < |ids| ==> ids[k] == Unread(list)[k].id
    ensures forall id :: id in ids <==> exists i :: 0 <= i < |list| && !list[i].isRead && list[i].id == id
  {
    var unread := Unread(list);
    var ids := seq(|unread|, k requires 0 <= k < |unread| => unread[k].id);
    IdsOfUnread(list, unread, ids);
    ids
  }

  /** The ids of a list's unread entries, listed one by one, are the ids of unread entries. */
  lemma IdsOfUnread(list: seq<Notification>, unread: seq<Notification>, ids: seq<int>)
    requires forall n :: n in unread <==> n in list && !n.isRead
    requires |ids| == |unread| && forall k :: 0 <= k < |ids| ==> ids[k] == unread[k].id
    ensures forall id :: id in ids <==> exists i :: 0 <= i < |list| && !list[i].isRead && list[i].id == id
  {
    forall id | id in ids ensures exists i :: 0 <= i < |list| && !list[i].isRead && list[i].id == id {
      var k :| 0 <= k < |ids| && ids[k] == id;
      assert unread[k] in list;
      var i :| 0 <= i < |list| && list[i] == unread[k];
    }
    forall i | 0 <= i < |list| && !list[i].isRead ensures list[i].id in ids {
      assert list[i] in unread;
      var k :| 0 <= k < |unread| && unread[k] == list[i];
      assert ids[k] == list[i].id;
    }
  }

  /** `list` after marking each id of `ids` in turn. */
  function MarkEach(list: seq<Notification>, ids: seq<int>): (r: seq<Notification>)
    ensures |r| == |list|
    decreases |ids|
  {
    if ids == [] then list else MarkEach(MarkRead(list, ids[0]), ids[1..])
  }

  /** Marking a sequence of ids marks exactly the entries whose id is among them. */
  lemma {:induction false} MarkEachSpec(list: seq<Notification>, ids: seq<int>)
    ensures forall i :: 0 <= i < |list| ==>
      MarkEach(list, ids)[i] == if list[i].id in ids then list[i].(isRead := true) else list[i]
    decreases |ids|
  {
    if ids != [] {
      MarkEachSpec(MarkRead(list, ids[0]), ids[1..]);
      forall i | 0 <= i < |list|
        ensures MarkEach(list, ids)[i] == if list[i].id in ids then list[i].(isRead := true) else list[i]
      {
        assert list[i].id in ids <==> list[i].id == ids[0] || list[i].id in ids[1..] by {
          assert ids == [ids[0]] + ids[1..];
        }
      }
    }
  }

  /**
   * The requests `markAllAsRead` sends cover the whole list: applying their
   * local effect one by one leaves the same list as its final "all read" update.
   */
  lemma MarkingUnreadIdsMarksAll(list: seq<Notification>)
    ensures MarkEach(list, UnreadIds(list)) == MarkAllRead(list)
  {
    var ids := UnreadIds(list);
    var unread := Unread(list);
    var marked, all := MarkEach(list, ids), MarkAllRead(list);
    MarkEachSpec(list, ids);
    forall i | 0 <= i < |list| ensures marked[i] == all[i] {
      if !list[i].isRead {
        assert list[i] in unread;
        var k :| 0 <= k < |unread| && unread[k] == list[i];
        assert ids[k] == list[i].id;
      }
    }
  }

  /** The number of entries not yet read. */
  function CountUnread(list: seq<Notification>): (count: nat) {
    |Unread(list)|
  }

  predicate DistinctIds(list: seq<Notification>) {
    forall i, j :: 0 <= i < j < |list| ==> list[i].id != list[j].id
  }

  /**
   * Marking an unread entry read (ids being distinct) lowers the number of
   * unread entries by exactly one, in step with the counter's decrement.
   */
  lemma {:induction false} MarkUnreadCountsDown(list: seq<Notification>, k: nat)
    requires DistinctIds(list) && k < |list| && !list[k].isRead
    ensures CountUnread(MarkRead(list, list[k].id)) == CountUnread(list) - 1
  {
    var id := list[k].id;
    var p := (n: Notification) => !n.isRead;
    var r := MarkRead(list, id);
    assert list == [list[0]] + list[1..];
    assert r == [r[0]] + MarkRead(list[1..], id);
    if k == 0 {
      assert forall i :: 0 <= i < |list[1..]| ==> list[1..][i].id != id by {
        forall i | 0 <= i < |list[1..]| ensures list[1..][i].id != id { assert list[1..][i] == list[i + 1]; }
      }
      assert MarkRead(list[1..], id) == list[1..];
      assert !p(r[0]);
    } else {
      assert DistinctIds(list[1..]) by {
        forall i, j | 0 <= i < j < |list[1..]| ensures list[1..][i].id != list[1..][j].id {
          assert list[1..][i] == list[i + 1] && list[1..][j] == list[j + 1];
        }
      }
      assert list[1..][k - 1] == list[k];
      MarkUnreadCountsDown(list[1..], k - 1);
      assert r[0] == list[0];
    }
  }

  /** A list with no unread entry has nothing to count. */
  lemma NoneUnreadCountsZero(list: seq<Notification>)
    requires forall i :: 0 <= i < |list| ==> list[i].isRead
    ensures CountUnread(list) == 0
  {
    var u := Unread(list);
    if u != [] {
      assert u[0] in list;
    }
  }

  /** A list of unread entries counts all of them. */
  lemma AllUnreadCountsAll(list: seq<Notification>)
    requires forall i :: 0 <= i < |list| ==> !list[i].isRead
    ensures CountUnread(list) == |list|
  {
    FilterKeepsAll(list, (n: Notification) => !n.isRead);
  }

  class NotificationStore {
    var notifications: seq<Notification>
    var unreadCount: int

    /**
     * The counter never goes negative (`Math.max(0, prev - 1)`) and never
     * exceeds the length of the list it was last set from.
     */
    ghost predicate Valid()
      reads this
    {
      0 <= unreadCount <= |notifications|
    }

    constructor ()
      ensures Valid() && notifications == [] && unreadCount == 0
    {
      notifications, unreadCount := [], 0;
    }

    /**
     * One poll of the unread notifications: on success the list is replaced by
     * the fetched one, the counter becomes its length, and `toasts` are the new
     * ones; on failure nothing changes.
     */
    method Fetch(response: Option<seq<Notification>>) returns (toasts: seq<Notification>)
      requires Valid()
      modifies this
      ensures Valid()
      ensures response.Some? ==>
        toasts == NewOnes(old(notifications), response.value)
        && notifications == response.value && unreadCount == |response.value|
      ensures response.None? ==> toasts == [] && notifications == old(notifications) && unreadCount == old(unreadCount)
      ensures response.Some? && (forall i :: 0 <= i < |response.value| ==> !response.value[i].isRead) ==>
        unreadCount == CountUnread(notifications)
    {
      toasts := [];
      if response.Some? {
        var fetched := response.value;
        if forall i :: 0 <= i < |fetched| ==> !fetched[i].isRead {
          AllUnreadCountsAll(fetched);
        }
        toasts := NewOnes(notifications, fetched);
        notifications := fetched;
        unreadCount := |fetched|;
      }
    }

    /** `refreshNotifications`: the same update as a poll, and nothing without a user. */
    method Refresh(loggedIn: bool, response: Option<seq<Notification>>) returns (toasts: seq<Notification>)
      requires Valid()
      modifies this
      ensures Valid()
      ensures loggedIn && response.Some? ==>
        toasts == NewOnes(old(notifications), response.value)
        && notifications == response.value && unreadCount == |response.value|
      ensures !(loggedIn && response.Some?) ==>
        toasts == [] && notifications == old(notifications) && unreadCount == old(unreadCount)
    {
      toasts := [];
      if !loggedIn {
        return;
      }
      toasts := Fetch(response);
    }

    /**
     * `markAsRead(id)` given whether the server accepted it: on success the
     * entry is marked read and the counter drops by one but not below zero.
     */
    method MarkAsRead(id: int, accepted: bool)
      requires Valid()
      modifies this
      ensures Valid()
      ensures accepted ==> notifications == MarkRead(old(notifications), id) && unreadCount == if old(unreadCount) > 0 then old(unreadCount) - 1 else 0
      ensures !accepted ==> notifications == old(notifications) && unreadCount == old(unreadCount)
    {
      if accepted {
        notifications := MarkRead(notifications, id);
        unreadCount := if unreadCount - 1 > 0 then unreadCount - 1 else 0;
      }
    }

    /**
     * `markAllAsRead`: one `markAsRead` per unread entry, `accepted[k]` being
     * the server's answer to the k-th; then every entry is marked read and the
     * counter is reset, whatever the answers were.
     */
    method MarkAllAsRead(accepted: seq<bool>) returns (requested: seq<int>)
      requires Valid()
      requires |accepted| == |UnreadIds(notifications)|
      modifies this
      ensures Valid()
      ensures requested == UnreadIds(old(notifications))
      ensures notifications == MarkAllRead(old(notifications)) && unreadCount == 0
      ensures unreadCount == CountUnread(notifications)
    {
      requested := UnreadIds(notifications);
      ghost var original := notifications;
      var k := 0;
      while k < |requested|
        invariant 0 <= k <= |requested|
        invariant Valid()
        invariant |notifications| == |original|
        invariant MarkAllRead(notifications) == MarkAllRead(original)
      {
        ghost var before := notifications;
        MarkAsRead(requested[k], accepted[k]);
        assert MarkAllRead(notifications) == MarkAllRead(before);
        k := k + 1;
      }
      notifications := MarkAllRead(notifications);
      unreadCount := 0;
      NoneUnreadCountsZero(notifications);
    }
  }
}

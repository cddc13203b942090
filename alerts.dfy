/**
 * The user's price alerts as both the notification bell
 * (warframe-frontend/src/components/NotificationBell.tsx) and the alerts
 * section (warframe-frontend/src/components/alerts-section.tsx) hold them:
 * the triggered/untriggered split, and the edit dialog the two components
 * implement identically.
 */
module PriceAlerts {
  import opened Wrappers
  import opened Seqs
  import opened PriceField

  /** The `Alert` record returned by `GET /api/Alert`; prices are whole platinum. */
  datatype Alert = Alert(
    id: int,
    itemName: string,
    alertPrice: int,
    currentPrice: Option<int>,
    isActive: bool,
    isTriggered: bool,
    createdAt: string
  )

  /** `alerts.filter(a => a.isTriggered)`. */
  function Triggered(alerts: seq<Alert>): (triggered: seq<Alert>)
    ensures forall a :: a in triggered <==> a in alerts && a.isTriggered
  {
    Filter(alerts, (a: Alert) => a.isTriggered)
  }

  /** `alerts.filter(a => !a.isTriggered)`. */
  function Untriggered(alerts: seq<Alert>): (waiting: seq<Alert>)
    ensures forall a :: a in waiting <==> a in alerts && !a.isTriggered
  {
    Filter(alerts, (a: Alert) => !a.isTriggered)
  }

  /** The number of triggered alerts, counted one alert at a time. */
  function CountTriggered(alerts: seq<Alert>): (n: nat)
    ensures n <= |alerts|
    decreases |alerts|
  {
    if alerts == [] then 0
    else (if alerts[0].isTriggered then 1 else 0) + CountTriggered(alerts[1..])
  }

  /** The triggered list is as long as the number of triggered alerts. */
  lemma {:induction false} TriggeredLengthIsCount(alerts: seq<Alert>)
    ensures |Triggered(alerts)| == CountTriggered(alerts)
    decreases |alerts|
  {
    if alerts != [] {
      TriggeredLengthIsCount(alerts[1..]);
      assert Triggered(alerts) == (if alerts[0].isTriggered then [alerts[0]] else []) + Triggered(alerts[1..]);
    }
  }

  /** `alerts.some(a => a.isTriggered)`. */
  predicate AnyTriggered(alerts: seq<Alert>) {
    exists i :: 0 <= i < |alerts| && alerts[i].isTriggered
  }

  /**
   * The two lists split the alerts: each keeps its alerts in the original
   * order, none is in both, and together they hold every alert exactly as
   * often as the full list does.
   */
  lemma TriggeredPartition(alerts: seq<Alert>)
    ensures forall a :: a in Triggered(alerts) <==> a in alerts && a.isTriggered
    ensures forall a :: a in Untriggered(alerts) <==> a in alerts && !a.isTriggered
    ensures forall a :: !(a in Triggered(alerts) && a in Untriggered(alerts))
    ensures multiset(Triggered(alerts)) + multiset(Untriggered(alerts)) == multiset(alerts)
    ensures |Triggered(alerts)| + |Untriggered(alerts)| == |alerts|
    ensures IsSubsequence(Triggered(alerts), alerts) && IsSubsequence(Untriggered(alerts), alerts)
  {
    var t, u := Triggered(alerts), Untriggered(alerts);
    assert forall a :: (multiset(t) + multiset(u))[a] == multiset(alerts)[a];
    assert multiset(t) + multiset(u) == multiset(alerts);
    assert |multiset(t) + multiset(u)| == |t| + |u|;
    FilterIsSubsequence(alerts, (a: Alert) => a.isTriggered);
    FilterIsSubsequence(alerts, (a: Alert) => !a.isTriggered);
  }

  /** Some alert is triggered exactly when the triggered list is not empty. */
  lemma AnyTriggeredIffListed(alerts: seq<Alert>)
    ensures AnyTriggered(alerts) <==> Triggered(alerts) != []
  {
    var t := Triggered(alerts);
    if AnyTriggered(alerts) {
      var i :| 0 <= i < |alerts| && alerts[i].isTriggered;
      assert alerts[i] in t;
    }
    if t != [] {
      assert t[0] in alerts;
      var i :| 0 <= i < |alerts| && alerts[i] == t[0];
    }
  }

  /** The body of `PUT /api/Alert/{id}`. */
  datatype AlertUpdate = AlertUpdate(id: int, alertPrice: int)

  /**
   * The alert list and the "Modify Price Alert" dialog: which alert is being
   * edited and the text of its price field.
   */
  class AlertEditor {
    var alerts: seq<Alert>
    var editingAlert: Option<Alert>
    var editPrice: PriceInput
    var isUpdating: bool

    /**
     * The price field is only on screen inside the open dialog, so a closed
     * dialog leaves it empty; between two user actions no update is in flight.
     */
    ghost predicate Valid()
      reads this
    {
      (editingAlert.None? ==> editPrice == Blank) && !isUpdating
    }

    constructor ()
      ensures Valid()
      ensures alerts == [] && editingAlert == None && editPrice == Blank
    {
      alerts, editingAlert, editPrice, isUpdating := [], None, Blank, false;
    }

    /** `fetchAlerts`: a successful response replaces the list; a failure keeps it. */
    method FetchAlerts(response: Option<seq<Alert>>)
      requires Valid()
      modifies this`alerts
      ensures Valid()
      ensures alerts == if response.Some? then response.value else old(alerts)
    {
      if response.Some? {
        alerts := response.value;
      }
    }

    /** `openEditDialog`: the dialog shows the alert, its field pre-filled with the current target price. */
    method OpenEditDialog(alert: Alert)
      requires Valid()
      modifies this`editingAlert, this`editPrice
      ensures Valid()
      ensures editingAlert == Some(alert)
      ensures editPrice.Number? && editPrice.value == alert.alertPrice
    {
      editingAlert := Some(alert);
      editPrice := Shown(alert.alertPrice);
    }

    /** `closeEditDialog`: nothing is being edited and the field is empty. */
    method CloseEditDialog()
      requires Valid()
      modifies this`editingAlert, this`editPrice
      ensures Valid()
      ensures editingAlert == None && editPrice == Blank
    {
      editingAlert := None;
      editPrice := Blank;
    }

    /** Typing into the price field of the open dialog. */
    method SetEditPrice(price: PriceInput)
      requires Valid() && editingAlert.Some?
      modifies this`editPrice
      ensures Valid()
      ensures editPrice == price
    {
      editPrice := price;
    }

    /**
     * `updateAlert`, `accepted` being whether the server answered with a
     * success status. Without an alert under edit, or with a price that is
     * not a number `>= 0`, no request is sent and nothing changes. Otherwise
     * the new price is sent for that alert; on success the dialog closes and
     * `refresh` asks for the alerts to be fetched again, on failure the
     * dialog stays open as it was.
     */
    method UpdateAlert(accepted: bool) returns (request: Option<AlertUpdate>, refresh: bool)
      requires Valid()
      modifies this`editingAlert, this`editPrice, this`isUpdating
      ensures Valid()
      ensures request.Some? <==> old(editingAlert).Some? && AcceptsEditedPrice(old(editPrice))
      ensures request.Some? ==>
        request.value == AlertUpdate(old(editingAlert).value.id, old(editPrice).value) && request.value.alertPrice >= 0
      ensures refresh <==> request.Some? && accepted
      ensures refresh ==> editingAlert == None && editPrice == Blank
      ensures !refresh ==> editingAlert == old(editingAlert) && editPrice == old(editPrice)
    {
      request, refresh := None, false;
      if editingAlert.None? {
        return;
      }
      if !AcceptsEditedPrice(editPrice) {
        return;
      }
      AcceptsEditedPriceSpec(editPrice);
      isUpdating := true;
      request := Some(AlertUpdate(editingAlert.value.id, editPrice.value));
      if accepted {
        editingAlert := None;
        editPrice := Blank;
        refresh := true;
      }
      isUpdating := false;
    }
  }
}

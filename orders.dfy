/**
 * The order book as the search section displays it
 * (warframe-frontend/src/components/search-section.tsx): `sortOrders` and
 * the default alert price taken from the first sell order.
 */
module OrderBook {
  import opened Wrappers
  import opened Seqs

  datatype Trader = Trader(ingameName: string, status: string)

  datatype Order = Order(orderType: string, platinum: int, quantity: int, user: Trader)

  /** The two tabs the orders are shown in. */
  datatype OrderKind = Sell | Buy

  function KindName(kind: OrderKind): (name: string) {
    match kind
    case Sell => "sell"
    case Buy => "buy"
  }

  /** The trader is online in the game. */
  predicate IsInGame(o: Order) {
    o.user.status == "ingame"
  }

  /** Orders of the given kind, in server order. */
  function OfKind(orders: seq<Order>, kind: OrderKind): (r: seq<Order>)
  {
    Filter(orders, (o: Order) => o.orderType == KindName(kind))
  }

  /** The comparator passed to `sort`: in-game traders first, then by price. */
  function Compare(a: Order, b: Order, kind: OrderKind): (c: int) {
    if IsInGame(a) && !IsInGame(b) then -1
    else if !IsInGame(a) && IsInGame(b) then 1
    else if kind == Sell then a.platinum - b.platinum
    else b.platinum - a.platinum
  }

  /**
   * The comparator is consistent, as `Array.prototype.sort` requires: swapping
   * the arguments negates it, and "not after" is transitive.
   */
  lemma CompareIsConsistent(a: Order, b: Order, c: Order, kind: OrderKind)
    ensures Compare(b, a, kind) == -Compare(a, b, kind)
    ensures Compare(a, a, kind) == 0
    ensures Compare(a, b, kind) <= 0 && Compare(b, c, kind) <= 0 ==> Compare(a, c, kind) <= 0
  {
  }

  /** Every element may stand before every later one. */
  predicate Ordered(s: seq<Order>, kind: OrderKind) {
    forall i, j :: 0 <= i < j < |s| ==> Compare(s[i], s[j], kind) <= 0
  }

  /** An element that may stand before every element of an ordered list may head it. */
  lemma PrependOrdered(y: Order, s: seq<Order>, kind: OrderKind)
    requires Ordered(s, kind)
    requires forall z :: z in s ==> Compare(y, z, kind) <= 0
    ensures Ordered([y] + s, kind)
  {
    var r := [y] + s;
    forall i, j | 0 <= i < j < |r| ensures Compare(r[i], r[j], kind) <= 0 {
      assert r[j] == s[j - 1];
      if i > 0 { assert r[i] == s[i - 1]; }
    }
  }

  /** An element that may stand before the head of an ordered list may stand before all of it. */
  lemma BeforeHeadBeforeAll(x: Order, s: seq<Order>, kind: OrderKind)
    requires Ordered(s, kind) && s != [] && Compare(x, s[0], kind) <= 0
    ensures forall z :: z in s ==> Compare(x, z, kind) <= 0
  {
    forall z | z in s ensures Compare(x, z, kind) <= 0 {
      var k :| 0 <= k < |s| && s[k] == z;
      CompareIsConsistent(x, s[0], z, kind);
    }
  }

  /**
   * The head of an ordered list may stand before every element of the rest
   * with `x` inserted, when `x` comes after that head.
   */
  lemma HeadBeforeInserted(x: Order, s: seq<Order>, rest: seq<Order>, kind: OrderKind)
    requires Ordered(s, kind) && s != [] && Compare(x, s[0], kind) > 0
    requires multiset(rest) == multiset(s[1..]) + multiset{x}
    ensures forall z :: z in rest ==> Compare(s[0], z, kind) <= 0
  {
    forall z | z in rest ensures Compare(s[0], z, kind) <= 0 {
      assert z in multiset(rest);
      if z == x {
        CompareIsConsistent(x, s[0], s[0], kind);
      } else {
        assert z in multiset(s[1..]);
        var k :| 0 <= k < |s[1..]| && s[1..][k] == z;
        assert s[k + 1] == z;
      }
    }
  }

  /** Insertion of `x` before the first element it does not come after. */
  function Insert(x: Order, s: seq<Order>, kind: OrderKind): (r: seq<Order>)
    requires Ordered(s, kind)
    ensures multiset(r) == multiset(s) + multiset{x}
    ensures Ordered(r, kind)
  {
    if s == [] then [x]
    else if Compare(x, s[0], kind) <= 0 then
      BeforeHeadBeforeAll(x, s, kind);
      PrependOrdered(x, s, kind);
      [x] + s
    else
      var rest := Insert(x, s[1..], kind);
      assert s == [s[0]] + s[1..];
      HeadBeforeInserted(x, s, rest, kind);
      PrependOrdered(s[0], rest, kind);
      [s[0]] + rest
  }

  /** A stable insertion sort under `Compare` (the engine's `sort` is stable). */
  function SortBy(s: seq<Order>, kind: OrderKind): (r: seq<Order>)
    ensures multiset(r) == multiset(s)
    ensures Ordered(r, kind)
  {
    if s == [] then []
    else
      assert s == [s[0]] + s[1..];
      Insert(s[0], SortBy(s[1..], kind), kind)
  }

  /** `sortOrders(ordersList, type)`: copy, keep one kind, sort. */
  function SortOrders(orders: seq<Order>, kind: OrderKind): (r: seq<Order>)
  {
    SortBy(OfKind(orders, kind), kind)
  }

  /**
   * The displayed list holds exactly the orders of the requested kind, with
   * their multiplicities; in-game traders come before all others; and within
   * one group sell orders rise and buy orders fall in price.
   */
  lemma SortOrdersSpec(orders: seq<Order>, kind: OrderKind)
    ensures forall o :: (multiset(SortOrders(orders, kind))[o] ==
      if o.orderType == KindName(kind) then multiset(orders)[o] else 0)
    ensures forall o :: o in SortOrders(orders, kind) <==> o in orders && o.orderType == KindName(kind)
    ensures |SortOrders(orders, kind)| == |OfKind(orders, kind)|
    ensures forall i, j :: (0 <= i < j < |SortOrders(orders, kind)| && IsInGame(SortOrders(orders, kind)[j])
      ==> IsInGame(SortOrders(orders, kind)[i]))
    ensures forall i, j :: (0 <= i < j < |SortOrders(orders, kind)|
      && IsInGame(SortOrders(orders, kind)[i]) == IsInGame(SortOrders(orders, kind)[j])
      ==> if kind == Sell then SortOrders(orders, kind)[i].platinum <= SortOrders(orders, kind)[j].platinum
          else SortOrders(orders, kind)[i].platinum >= SortOrders(orders, kind)[j].platinum)
  {
    var r := SortOrders(orders, kind);
    var f := OfKind(orders, kind);
    assert multiset(r) == multiset(f);
    assert |r| == |multiset(r)| == |multiset(f)| == |f|;
    forall o ensures o in r <==> o in orders && o.orderType == KindName(kind) {
      assert o in r <==> o in multiset(r);
      assert o in f <==> o in multiset(f);
    }
  }

  /**
   * The order the server sends (Controllers/API/SearchController.cs): sell
   * orders by rising price, buy orders by falling price.
   */
  predicate ServerOrdered(orders: seq<Order>) {
    forall i, j :: 0 <= i < j < |orders| ==> ServerKey(orders[i]) <= ServerKey(orders[j])
  }

  function ServerKey(o: Order): (key: int) {
    if o.orderType == "sell" then o.platinum else -o.platinum
  }

  /**
   * The default alert price chosen after a search: the price of the first
   * sell order in server order, or none (an empty field) when there is none.
   */
  function DefaultAlertPrice(orders: seq<Order>): (p: Option<int>)
    ensures p.None? <==> forall i :: 0 <= i < |orders| ==> orders[i].orderType != "sell"
    ensures p.Some? ==> exists i :: (0 <= i < |orders| && orders[i].orderType == "sell" && orders[i].platinum == p.value
      && forall j :: 0 <= j < i ==> orders[j].orderType != "sell")
  {
    var sells := OfKind(orders, Sell);
    if sells == [] then
      assert forall i :: 0 <= i < |orders| ==> orders[i].orderType != "sell" by {
        forall i | 0 <= i < |orders| ensures orders[i].orderType != "sell" {
          assert orders[i] in orders;
        }
      }
      None
    else
      FilterHead(orders, (o: Order) => o.orderType == KindName(Sell));
      Some(sells[0].platinum)
  }

  /** With the server's ordering, the default alert price is the lowest sell price. */
  lemma DefaultIsLowestSell(orders: seq<Order>)
    requires ServerOrdered(orders)
    ensures DefaultAlertPrice(orders).Some? ==>
      forall o :: o in orders && o.orderType == "sell" ==> DefaultAlertPrice(orders).value <= o.platinum
  {
    var p := DefaultAlertPrice(orders);
    if p.Some? {
      var i :| 0 <= i < |orders| && orders[i].orderType == "sell" && orders[i].platinum == p.value
        && forall j :: 0 <= j < i ==> orders[j].orderType != "sell";
      forall o | o in orders && o.orderType == "sell" ensures p.value <= o.platinum {
        var k :| 0 <= k < |orders| && orders[k] == o;
        assert k >= i;
        if k > i { assert ServerKey(orders[i]) <= ServerKey(orders[k]); }
      }
    }
  }
}

/**
 * The figures `updateStats` shows: how many customers there are, and the
 * total number of orders, a record without an order list counting 0.
 */
module CustomerStats {
  import opened Wrappers
  import opened Records

  datatype Summary = Summary(customerCount: nat, orderCount: nat)

  /** `customer.orders ? customer.orders.length : 0` */
  function OrderCount(c: Customer): (n: nat)
    ensures n == 0 <==> c.orders.None? || c.orders.value == []
  {
    if c.orders.Some? then |c.orders.value| else 0
  }

  /**
   * The `reduce` over the list, left to right from 0. No record holds more
   * orders than the total.
   */
  function TotalOrders(s: seq<Customer>): (total: nat)
    ensures forall j :: 0 <= j < |s| ==> OrderCount(s[j]) <= total
  {
    if s == [] then 0 else TotalOrders(s[..|s| - 1]) + OrderCount(s[|s| - 1])
  }

  /** The two figures: the list's length and its total order count. */
  function Stats(s: seq<Customer>): (r: Summary)
    ensures r.customerCount == |s|
    ensures r.orderCount == TotalOrders(s)
    ensures r.orderCount == 0 <==> forall j :: 0 <= j < |s| ==> OrderCount(s[j]) == 0
  {
    TotalOrdersZero(s);
    Summary(|s|, TotalOrders(s))
  }

  /** The total is zero exactly when no record has an order. */
  lemma {:induction false} TotalOrdersZero(s: seq<Customer>)
    ensures TotalOrders(s) == 0 <==> forall j :: 0 <= j < |s| ==> OrderCount(s[j]) == 0
  {
    if s != [] {
      var init := s[..|s| - 1];
      TotalOrdersZero(init);
      assert forall j :: 0 <= j < |init| ==> init[j] == s[j];
    }
  }

  /** The total of a concatenation is the sum of the totals. */
  lemma {:induction false} TotalOrdersAppend(a: seq<Customer>, b: seq<Customer>)
    ensures TotalOrders(a + b) == TotalOrders(a) + TotalOrders(b)
    decreases |b|
  {
    if b == [] {
      assert a + b == a;
    } else {
      var init := b[..|b| - 1];
      assert (a + b)[..|a + b| - 1] == a + init;
      TotalOrdersAppend(a, init);
    }
  }

  /** The total counted first to last agrees with the sum taken from the front. */
  lemma TotalOrdersFromFront(s: seq<Customer>)
    requires s != []
    ensures TotalOrders(s) == OrderCount(s[0]) + TotalOrders(s[1..])
  {
    assert s == [s[0]] + s[1..];
    TotalOrdersAppend([s[0]], s[1..]);
    assert [s[0]][..0] == [];
  }

  /** Replacing one record changes the total by the difference of the two records' order counts. */
  lemma TotalOrdersReplace(s: seq<Customer>, i: nat, c: Customer)
    requires i < |s|
    ensures TotalOrders(s[i := c]) + OrderCount(s[i]) == TotalOrders(s) + OrderCount(c)
  {
    var before, after := s[..i], s[i + 1..];
    assert s == before + [s[i]] + after;
    assert s[i := c] == before + [c] + after;
    TotalOrdersAppend(before + [s[i]], after);
    TotalOrdersAppend(before + [c], after);
    TotalOrdersAppend(before, [s[i]]);
    TotalOrdersAppend(before, [c]);
    assert [s[i]][..0] == [] && [c][..0] == [];
  }

  /** Three customers with 0, 2 and 1 orders give the figures (3, 3). */
  lemma StatsOfThreeCustomers(a: Customer, b: Customer, c: Customer)
    requires a.orders == Some([])
    requires b.orders.Some? && |b.orders.value| == 2
    requires c.orders.Some? && |c.orders.value| == 1
    ensures Stats([a, b, c]) == Summary(3, 3)
  {
    TotalOrdersFromFront([a, b, c]);
    TotalOrdersFromFront([b, c]);
    TotalOrdersFromFront([c]);
    assert [a, b, c][1..] == [b, c] && [b, c][1..] == [c] && [c][1..] == [];
  }
}

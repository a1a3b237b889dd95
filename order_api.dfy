/**
 * Shaping orders for the order endpoints.
 *
 * Version 6 reads one flat row per (order, order item) pair and regroups the rows in memory:
 * one `OrderQueryDto` per distinct order id, carrying its order's items in row order, sorted
 * by order id. The grouping key is the order id: two rows belong to the same order exactly
 * when their `orderId`s are equal, and the header of a group is taken from the first row of
 * its order (a hash map keeps the key it was first given).
 *
 * Versions 2, 3 and 3.1 project order entities into `OrderDto`s, which copy the order's items
 * in order.
 */
module OrderApi {
  import opened Domain

  /** Order status; the order entity's enum is not part of this model. */
  datatype OrderStatus = Ordered | Canceled

  /** A point in time, as an integer timestamp; it is only copied, never inspected. */
  type LocalDateTime = int

  /** One joined row of order, member, delivery, order item and item. */
  datatype OrderFlatDto = OrderFlatDto(
    orderId: int, name: string, orderDate: LocalDateTime, orderStatus: OrderStatus,
    address: Address, itemName: string, orderPrice: int, count: int)

  /** One order item of a query result, tagged with the id of its order. */
  datatype OrderItemQueryDto = OrderItemQueryDto(orderId: int, itemName: string, orderPrice: int, count: int)

  /** One order of a query result, with its items. */
  datatype OrderQueryDto = OrderQueryDto(
    orderId: int, name: string, orderDate: LocalDateTime, orderStatus: OrderStatus,
    address: Address, orderItems: seq<OrderItemQueryDto>)

  // ---------------------------------------------------------------------------------------
  // Version 6: the regrouping

  /** The item part of a flat row. */
  function ItemOf(f: OrderFlatDto): OrderItemQueryDto
  {
    OrderItemQueryDto(f.orderId, f.itemName, f.orderPrice, f.count)
  }

  /** The order header of a flat row, with the given items. */
  function HeaderOf(f: OrderFlatDto, items: seq<OrderItemQueryDto>): OrderQueryDto
  {
    OrderQueryDto(f.orderId, f.name, f.orderDate, f.orderStatus, f.address, items)
  }

  /** Position of the group for order `id`, or `|groups|` when there is none. */
  function IndexOfOrder(groups: seq<OrderQueryDto>, id: int): (k: nat)
    ensures k <= |groups|
    ensures k < |groups| ==> groups[k].orderId == id
    ensures forall j :: 0 <= j < k ==> groups[j].orderId != id
  {
    if groups == [] then 0
    else if groups[0].orderId == id then 0
    else 1 + IndexOfOrder(groups[1..], id)
  }

  /**
   * One step of the grouping collector: the row's item goes to the end of its order's group,
   * and a row of an order not seen yet opens a new group with that row's header. The row's
   * order id joins the ids, a new group is opened only for a new id, ids stay distinct, and
   * exactly one item is added.
   */
  function AddRow(groups: seq<OrderQueryDto>, f: OrderFlatDto): (r: seq<OrderQueryDto>)
    ensures |r| == |groups| + (if f.orderId in IdsOf(groups) then 0 else 1)
    ensures IdsOf(r) == IdsOf(groups) + {f.orderId}
    ensures DistinctIds(groups) ==> DistinctIds(r)
    ensures TotalItems(r) == TotalItems(groups) + 1
  {
    var k := IndexOfOrder(groups, f.orderId);
    if k < |groups| then
      var after := groups[k := groups[k].(orderItems := groups[k].orderItems + [ItemOf(f)])];
      SameIds(groups, after);
      TotalItemsUpdate(groups, k, after[k]);
      after
    else
      var newGroup := HeaderOf(f, [ItemOf(f)]);
      assert f.orderId !in IdsOf(groups);
      IdsOfSnoc(groups, newGroup);
      TotalItemsSnoc(groups, newGroup);
      groups + [newGroup]
  }

  /**
   * Groups the rows by order id, in the order in which each order first appears: one group
   * per distinct order id, each the expected group of its order, one item per row.
   */
  function GroupByOrder(flats: seq<OrderFlatDto>): (groups: seq<OrderQueryDto>)
    ensures GroupedFrom(groups, flats)
  {
    if flats == [] then
      assert OrderIds(flats) == {};
      assert IdsOf([]) == {};
      []
    else
      var init := flats[..|flats| - 1];
      var f := flats[|flats| - 1];
      assert flats == init + [f];
      var groups := GroupByOrder(init);
      var k := IndexOfOrder(groups, f.orderId);
      if k < |groups| then
        AddRowExisting(groups, init, f, k);
        AddRow(groups, f)
      else
        AddRowNew(groups, init, f);
        AddRow(groups, f)
  }

  /** Inserts `g` into `sorted` before the first group whose id is not smaller. */
  function InsertByOrderId(g: OrderQueryDto, sorted: seq<OrderQueryDto>): (r: seq<OrderQueryDto>)
    ensures multiset(r) == multiset(sorted) + multiset{g}
    ensures TotalItems(r) == |g.orderItems| + TotalItems(sorted)
  {
    if sorted == [] || g.orderId <= sorted[0].orderId then
      assert ([g] + sorted)[1..] == sorted;
      [g] + sorted
    else
      var rest := InsertByOrderId(g, sorted[1..]);
      assert sorted == [sorted[0]] + sorted[1..];
      assert ([sorted[0]] + rest)[1..] == rest;
      [sorted[0]] + rest
  }

  /** A stable sort of the groups by ascending order id: it rearranges the groups and keeps every item. */
  function SortByOrderId(groups: seq<OrderQueryDto>): (r: seq<OrderQueryDto>)
    ensures multiset(r) == multiset(groups)
    ensures TotalItems(r) == TotalItems(groups)
  {
    if groups == [] then []
    else
      assert groups == [groups[0]] + groups[1..];
      InsertByOrderId(groups[0], SortByOrderId(groups[1..]))
  }

  /** The version 6 result: the rows grouped by order id, sorted by order id. */
  function OrdersV6(flats: seq<OrderFlatDto>): (orders: seq<OrderQueryDto>)
    ensures flats == [] ==> orders == []
  {
    SortByOrderId(GroupByOrder(flats))
  }

  // ---------------------------------------------------------------------------------------
  // What the regrouping should produce, stated row by row

  /** The ids of the orders that occur in the rows. */
  ghost function OrderIds(flats: seq<OrderFlatDto>): set<int>
  {
    set i | 0 <= i < |flats| :: flats[i].orderId
  }

  /** The ids of a sequence of groups. */
  ghost function IdsOf(groups: seq<OrderQueryDto>): set<int>
  {
    set k | 0 <= k < |groups| :: groups[k].orderId
  }

  /** The items of order `id`, one per row of that order, in row order. */
  function ItemsOfOrder(flats: seq<OrderFlatDto>, id: int): seq<OrderItemQueryDto>
  {
    if flats == [] then []
    else (if flats[0].orderId == id then [ItemOf(flats[0])] else []) + ItemsOfOrder(flats[1..], id)
  }

  /** Position of the first row of order `id`. */
  function FirstRowOf(flats: seq<OrderFlatDto>, id: int): (i: nat)
    requires id in OrderIds(flats)
    ensures i < |flats| && flats[i].orderId == id
    ensures forall j :: 0 <= j < i ==> flats[j].orderId != id
  {
    if flats[0].orderId == id then 0
    else
      assert id in OrderIds(flats[1..]) by {
        var i :| 0 <= i < |flats| && flats[i].orderId == id;
        assert flats[1..][i - 1] == flats[i];
      }
      1 + FirstRowOf(flats[1..], id)
  }

  /** The group order `id` should become: the header of its first row, all of its items. */
  ghost function ExpectedOrder(flats: seq<OrderFlatDto>, id: int): OrderQueryDto
    requires id in OrderIds(flats)
  {
    HeaderOf(flats[FirstRowOf(flats, id)], ItemsOfOrder(flats, id))
  }

  /** No two groups have the same order id. */
  ghost predicate DistinctIds(groups: seq<OrderQueryDto>)
  {
    forall i, j :: 0 <= i < j < |groups| ==> groups[i].orderId != groups[j].orderId
  }

  /** Order ids increase strictly from each group to the next. */
  ghost predicate StrictlyAscending(groups: seq<OrderQueryDto>)
  {
    forall i, j :: 0 <= i < j < |groups| ==> groups[i].orderId < groups[j].orderId
  }

  /** The number of items over all groups. */
  function TotalItems(groups: seq<OrderQueryDto>): nat
  {
    if groups == [] then 0 else |groups[0].orderItems| + TotalItems(groups[1..])
  }

  /** Every group is the expected group of its order. */
  ghost predicate AsExpected(groups: seq<OrderQueryDto>, flats: seq<OrderFlatDto>)
  {
    forall k :: 0 <= k < |groups| ==>
      groups[k].orderId in OrderIds(flats) && groups[k] == ExpectedOrder(flats, groups[k].orderId)
  }

  /** The groups are exactly the orders of `flats`, each once, each as `ExpectedOrder` says. */
  ghost predicate GroupedFrom(groups: seq<OrderQueryDto>, flats: seq<OrderFlatDto>)
  {
    && DistinctIds(groups)
    && IdsOf(groups) == OrderIds(flats)
    && AsExpected(groups, flats)
    && TotalItems(groups) == |flats|
  }

  // ---------------------------------------------------------------------------------------
  // Lemmas about the row-by-row description

  /** Items of earlier rows come before items of later rows. */
  lemma {:induction false} ItemsOfOrderAppend(a: seq<OrderFlatDto>, b: seq<OrderFlatDto>, id: int)
    ensures ItemsOfOrder(a + b, id) == ItemsOfOrder(a, id) + ItemsOfOrder(b, id)
  {
    if a == [] {
      assert a + b == b;
    } else {
      assert (a + b)[0] == a[0];
      assert (a + b)[1..] == a[1..] + b;
      ItemsOfOrderAppend(a[1..], b, id);
    }
  }

  /** The order ids of non-empty rows: the first row's id and those of the rest. */
  lemma {:induction false} OrderIdsCons(flats: seq<OrderFlatDto>)
    requires flats != []
    ensures OrderIds(flats) == {flats[0].orderId} + OrderIds(flats[1..])
  {
    forall id | id in OrderIds(flats) ensures id in {flats[0].orderId} + OrderIds(flats[1..]) {
      var i :| 0 <= i < |flats| && flats[i].orderId == id;
      if i > 0 {
        assert flats[1..][i - 1] == flats[i];
      }
    }
    forall id | id in OrderIds(flats[1..]) ensures id in OrderIds(flats) {
      var i :| 0 <= i < |flats[1..]| && flats[1..][i].orderId == id;
      assert flats[i + 1] == flats[1..][i];
    }
  }

  /** Appending a row adds its order id to the order ids. */
  lemma {:induction false} OrderIdsSnoc(flats: seq<OrderFlatDto>, f: OrderFlatDto)
    ensures OrderIds(flats + [f]) == OrderIds(flats) + {f.orderId}
  {
    var all := flats + [f];
    forall id | id in OrderIds(all) ensures id in OrderIds(flats) + {f.orderId} {
      var i :| 0 <= i < |all| && all[i].orderId == id;
      if i < |flats| {
        assert all[i] == flats[i];
      }
    }
    forall id | id in OrderIds(flats) ensures id in OrderIds(all) {
      var i :| 0 <= i < |flats| && flats[i].orderId == id;
      assert all[i] == flats[i];
    }
    assert all[|flats|] == f;
  }

  /** Every item of order `id` carries `id`, and there is one per row of that order. */
  lemma {:induction false} ItemsOfOrderTagged(flats: seq<OrderFlatDto>, id: int)
    ensures forall it :: it in ItemsOfOrder(flats, id) ==> it.orderId == id
    ensures id !in OrderIds(flats) <==> ItemsOfOrder(flats, id) == []
  {
    if flats != [] {
      ItemsOfOrderTagged(flats[1..], id);
      OrderIdsCons(flats);
    }
  }

  /** Appending a row keeps the first row of every order already present. */
  lemma {:induction false} FirstRowOfSnoc(flats: seq<OrderFlatDto>, f: OrderFlatDto, id: int)
    requires id in OrderIds(flats)
    ensures id in OrderIds(flats + [f])
    ensures FirstRowOf(flats + [f], id) == FirstRowOf(flats, id)
  {
    OrderIdsSnoc(flats, f);
    if flats[0].orderId != id {
      OrderIdsCons(flats);
      assert (flats + [f])[1..] == flats[1..] + [f];
      FirstRowOfSnoc(flats[1..], f, id);
    }
  }

  /** Appending a row of an order present before extends that order's items only. */
  lemma {:induction false} ExpectedOrderSnoc(flats: seq<OrderFlatDto>, f: OrderFlatDto, id: int)
    requires id in OrderIds(flats)
    ensures id in OrderIds(flats + [f])
    ensures ExpectedOrder(flats + [f], id) ==
      ExpectedOrder(flats, id).(orderItems := ItemsOfOrder(flats, id) + (if f.orderId == id then [ItemOf(f)] else []))
  {
    FirstRowOfSnoc(flats, f, id);
    ItemsOfOrderAppend(flats, [f], id);
    assert ItemsOfOrder([f], id) == (if f.orderId == id then [ItemOf(f)] else []) + ItemsOfOrder([], id);
    assert (flats + [f])[FirstRowOf(flats, id)] == flats[FirstRowOf(flats, id)];
  }

  /** A row of an order absent before becomes that order's whole group. */
  lemma {:induction false} ExpectedOrderNew(flats: seq<OrderFlatDto>, f: OrderFlatDto)
    requires f.orderId !in OrderIds(flats)
    ensures f.orderId in OrderIds(flats + [f])
    ensures ExpectedOrder(flats + [f], f.orderId) == HeaderOf(f, [ItemOf(f)])
  {
    var all := flats + [f];
    OrderIdsSnoc(flats, f);
    assert all[|flats|] == f;
    forall j | 0 <= j < |flats| ensures all[j].orderId != f.orderId {
      assert all[j] == flats[j];
    }
    ItemsOfOrderTagged(flats, f.orderId);
    ItemsOfOrderAppend(flats, [f], f.orderId);
    assert ItemsOfOrder([f], f.orderId) == [ItemOf(f)] + ItemsOfOrder([], f.orderId);
  }

  // ---------------------------------------------------------------------------------------
  // The grouping step is correct

  /** Changing the items of one group changes the total by the difference. */
  lemma {:induction false} TotalItemsUpdate(groups: seq<OrderQueryDto>, k: nat, g: OrderQueryDto)
    requires k < |groups|
    ensures TotalItems(groups[k := g]) + |groups[k].orderItems| == TotalItems(groups) + |g.orderItems|
  {
    if k > 0 {
      assert groups[k := g][1..] == groups[1..][k - 1 := g];
      TotalItemsUpdate(groups[1..], k - 1, g);
    }
  }

  /** Appending a group adds its items to the total. */
  lemma {:induction false} TotalItemsSnoc(groups: seq<OrderQueryDto>, g: OrderQueryDto)
    ensures TotalItems(groups + [g]) == TotalItems(groups) + |g.orderItems|
  {
    if groups != [] {
      assert (groups + [g])[1..] == groups[1..] + [g];
      TotalItemsSnoc(groups[1..], g);
    }
  }

  /** A row of an order already grouped, at position `k`, extends that group and no other. */
  lemma {:induction false} AddRowExistingAsExpected(groups: seq<OrderQueryDto>, flats: seq<OrderFlatDto>, f: OrderFlatDto, k: nat)
    requires DistinctIds(groups) && AsExpected(groups, flats)
    requires k < |groups| && groups[k].orderId == f.orderId
    ensures AsExpected(groups[k := groups[k].(orderItems := groups[k].orderItems + [ItemOf(f)])], flats + [f])
  {
    var after := groups[k := groups[k].(orderItems := groups[k].orderItems + [ItemOf(f)])];
    forall j | 0 <= j < |after|
      ensures after[j].orderId in OrderIds(flats + [f]) && after[j] == ExpectedOrder(flats + [f], after[j].orderId)
    {
      ExpectedOrderSnoc(flats, f, groups[j].orderId);
    }
  }

  /** A row of an order already grouped keeps the groups grouped from the extended rows. */
  lemma {:induction false} AddRowExisting(groups: seq<OrderQueryDto>, flats: seq<OrderFlatDto>, f: OrderFlatDto, k: nat)
    requires GroupedFrom(groups, flats)
    requires k == IndexOfOrder(groups, f.orderId) && k < |groups|
    ensures GroupedFrom(AddRow(groups, f), flats + [f])
  {
    assert AddRow(groups, f) == groups[k := groups[k].(orderItems := groups[k].orderItems + [ItemOf(f)])];
    AddRowExistingAsExpected(groups, flats, f, k);
    assert f.orderId in IdsOf(groups);
    OrderIdsSnoc(flats, f);
  }

  /** Groups with the same ids at the same positions have the same id set, distinct alike. */
  lemma {:induction false} SameIds(a: seq<OrderQueryDto>, b: seq<OrderQueryDto>)
    requires |a| == |b| && forall j :: 0 <= j < |a| ==> a[j].orderId == b[j].orderId
    ensures IdsOf(a) == IdsOf(b)
    ensures DistinctIds(a) ==> DistinctIds(b)
  {
    forall x | x in IdsOf(a) ensures x in IdsOf(b) {
      var j :| 0 <= j < |a| && a[j].orderId == x;
      assert b[j].orderId == x;
    }
    forall x | x in IdsOf(b) ensures x in IdsOf(a) {
      var j :| 0 <= j < |b| && b[j].orderId == x;
      assert a[j].orderId == x;
    }
  }

  /** Appending a group adds its id; a new id keeps the ids distinct. */
  lemma {:induction false} IdsOfSnoc(groups: seq<OrderQueryDto>, g: OrderQueryDto)
    ensures IdsOf(groups + [g]) == IdsOf(groups) + {g.orderId}
    ensures DistinctIds(groups) && g.orderId !in IdsOf(groups) ==> DistinctIds(groups + [g])
  {
    var after := groups + [g];
    assert after[|groups|] == g;
    assert forall j :: 0 <= j < |groups| ==> after[j] == groups[j];
  }

  /** The groups of earlier orders stay as expected when a row of a new order is appended. */
  lemma {:induction false} AddRowNewAsExpected(groups: seq<OrderQueryDto>, flats: seq<OrderFlatDto>, f: OrderFlatDto)
    requires AsExpected(groups, flats) && f.orderId !in OrderIds(flats)
    ensures AsExpected(groups + [HeaderOf(f, [ItemOf(f)])], flats + [f])
  {
    var after := groups + [HeaderOf(f, [ItemOf(f)])];
    ExpectedOrderNew(flats, f);
    forall j | 0 <= j < |after|
      ensures after[j].orderId in OrderIds(flats + [f]) && after[j] == ExpectedOrder(flats + [f], after[j].orderId)
    {
      if j < |groups| {
        assert after[j] == groups[j];
        ExpectedOrderSnoc(flats, f, groups[j].orderId);
      }
    }
  }

  /** A row of an order not grouped yet opens a new group at the end. */
  lemma {:induction false} AddRowNew(groups: seq<OrderQueryDto>, flats: seq<OrderFlatDto>, f: OrderFlatDto)
    requires GroupedFrom(groups, flats)
    requires IndexOfOrder(groups, f.orderId) == |groups|
    ensures GroupedFrom(AddRow(groups, f), flats + [f])
  {
    var newGroup := HeaderOf(f, [ItemOf(f)]);
    assert AddRow(groups, f) == groups + [newGroup];
    assert f.orderId !in IdsOf(groups);
    AddRowNewAsExpected(groups, flats, f);
    OrderIdsSnoc(flats, f);
  }

  // ---------------------------------------------------------------------------------------
  // The sorting step is correct

  /** Every group's id exceeds `bound`. */
  ghost predicate Above(groups: seq<OrderQueryDto>, bound: int)
  {
    forall i :: 0 <= i < |groups| ==> bound < groups[i].orderId
  }

  /** No group has id `id`. */
  ghost predicate Lacks(groups: seq<OrderQueryDto>, id: int)
  {
    forall i :: 0 <= i < |groups| ==> groups[i].orderId != id
  }

  /** Insertion keeps lower bounds and absent ids that `g` respects too. */
  lemma {:induction false} InsertByOrderIdBounds(g: OrderQueryDto, sorted: seq<OrderQueryDto>, bound: int, id: int)
    ensures Above(sorted, bound) && bound < g.orderId ==> Above(InsertByOrderId(g, sorted), bound)
    ensures Lacks(sorted, id) && g.orderId != id ==> Lacks(InsertByOrderId(g, sorted), id)
  {
    if sorted != [] && g.orderId > sorted[0].orderId {
      InsertByOrderIdBounds(g, sorted[1..], bound, id);
    }
  }

  /** Sorting keeps absent ids absent. */
  lemma {:induction false} SortByOrderIdLacks(groups: seq<OrderQueryDto>, id: int)
    requires Lacks(groups, id)
    ensures Lacks(SortByOrderId(groups), id)
  {
    if groups != [] {
      SortByOrderIdLacks(groups[1..], id);
      InsertByOrderIdBounds(groups[0], SortByOrderId(groups[1..]), 0, id);
    }
  }

  /** Inserting a group whose id is new into a strictly ascending sequence keeps it so. */
  lemma {:induction false} InsertByOrderIdAscending(g: OrderQueryDto, sorted: seq<OrderQueryDto>)
    requires StrictlyAscending(sorted) && Lacks(sorted, g.orderId)
    ensures StrictlyAscending(InsertByOrderId(g, sorted))
  {
    if sorted != [] && g.orderId > sorted[0].orderId {
      var rest := InsertByOrderId(g, sorted[1..]);
      InsertByOrderIdAscending(g, sorted[1..]);
      InsertByOrderIdBounds(g, sorted[1..], sorted[0].orderId, g.orderId);
      assert Above(rest, sorted[0].orderId);
    }
  }

  /** Sorting groups with distinct ids yields strictly ascending ids. */
  lemma {:induction false} SortByOrderIdAscending(groups: seq<OrderQueryDto>)
    requires DistinctIds(groups)
    ensures StrictlyAscending(SortByOrderId(groups))
  {
    if groups != [] {
      var rest := groups[1..];
      SortByOrderIdAscending(rest);
      assert Lacks(rest, groups[0].orderId);
      SortByOrderIdLacks(rest, groups[0].orderId);
      InsertByOrderIdAscending(groups[0], SortByOrderId(rest));
    }
  }

  /** Groups with distinct ids: there are as many groups as ids. */
  lemma {:induction false} DistinctIdsCount(groups: seq<OrderQueryDto>)
    requires DistinctIds(groups)
    ensures |IdsOf(groups)| == |groups|
  {
    if groups != [] {
      var rest := groups[1..];
      DistinctIdsCount(rest);
      assert IdsOf(groups) == {groups[0].orderId} + IdsOf(rest) by {
        forall x | x in IdsOf(groups) ensures x in {groups[0].orderId} + IdsOf(rest) {
          var i :| 0 <= i < |groups| && groups[i].orderId == x;
          if i > 0 {
            assert rest[i - 1] == groups[i];
          }
        }
        forall x | x in IdsOf(rest) ensures x in IdsOf(groups) {
          var i :| 0 <= i < |rest| && rest[i].orderId == x;
          assert groups[i + 1] == rest[i];
        }
      }
      assert groups[0].orderId !in IdsOf(rest) by {
        forall i | 0 <= i < |rest| ensures rest[i].orderId != groups[0].orderId {
          assert rest[i] == groups[i + 1];
        }
      }
    }
  }

  // ---------------------------------------------------------------------------------------
  // The order of the groups before sorting does not matter

  /** In groups with distinct ids, each group occurs exactly once. */
  lemma {:induction false} DistinctIdsOccurOnce(groups: seq<OrderQueryDto>, p: nat)
    requires DistinctIds(groups) && p < |groups|
    ensures multiset(groups)[groups[p]] == 1
  {
    var rest := groups[1..];
    assert groups == [groups[0]] + rest;
    assert DistinctIds(rest) by {
      forall i, j | 0 <= i < j < |rest| ensures rest[i].orderId != rest[j].orderId {
        assert rest[i] == groups[i + 1] && rest[j] == groups[j + 1];
      }
    }
    if p == 0 {
      assert groups[0] !in rest by {
        forall i | 0 <= i < |rest| ensures rest[i] != groups[0] {
          assert rest[i] == groups[i + 1];
        }
      }
    } else {
      DistinctIdsOccurOnce(rest, p - 1);
      assert rest[p - 1] == groups[p];
    }
  }

  /** Two equal groups at different positions are counted twice. */
  lemma {:induction false} TwiceCounted(groups: seq<OrderQueryDto>, i: nat, j: nat)
    requires i < j < |groups|
    ensures groups[i] == groups[j] ==> multiset(groups)[groups[i]] >= 2
  {
    assert groups == groups[..j] + groups[j..];
    assert groups[..j][i] == groups[i];
    assert groups[j..][0] == groups[j];
  }

  /** A rearrangement of groups with distinct ids has distinct ids. */
  lemma {:induction false} DistinctIdsPermutation(a: seq<OrderQueryDto>, b: seq<OrderQueryDto>)
    requires multiset(a) == multiset(b) && DistinctIds(a)
    ensures DistinctIds(b)
  {
    forall i, j | 0 <= i < j < |b| ensures b[i].orderId != b[j].orderId {
      assert b[i] in multiset(a) && b[j] in multiset(a);
      var p :| 0 <= p < |a| && a[p] == b[i];
      var q :| 0 <= q < |a| && a[q] == b[j];
      DistinctIdsOccurOnce(a, p);
      TwiceCounted(b, i, j);
      assert p != q;
    }
  }

  /** The tail of a strictly ascending sequence is strictly ascending. */
  lemma {:induction false} AscendingTail(groups: seq<OrderQueryDto>)
    requires groups != [] && StrictlyAscending(groups)
    ensures StrictlyAscending(groups[1..])
  {
    forall x, y | 0 <= x < y < |groups[1..]| ensures groups[1..][x].orderId < groups[1..][y].orderId {
      assert groups[1..][x] == groups[x + 1] && groups[1..][y] == groups[y + 1];
    }
  }

  /** Strictly ascending sequences holding the same groups start with the same group, and their tails hold the same groups. */
  lemma {:induction false} AscendingHead(a: seq<OrderQueryDto>, b: seq<OrderQueryDto>)
    requires a != [] && StrictlyAscending(a) && StrictlyAscending(b) && multiset(a) == multiset(b)
    ensures b != [] && a[0] == b[0]
    ensures multiset(a[1..]) == multiset(b[1..])
  {
    assert a[0] in multiset(b);
    var j :| 0 <= j < |b| && b[j] == a[0];
    assert b[0] in multiset(a);
    var i :| 0 <= i < |a| && a[i] == b[0];
    assert a[0].orderId <= a[i].orderId;
    assert b[0].orderId <= b[j].orderId;
    assert j == 0;
    TailMultiset(a);
    TailMultiset(b);
  }

  /** The tail of a non-empty sequence holds its groups but one copy of the first. */
  lemma {:induction false} TailMultiset(groups: seq<OrderQueryDto>)
    requires groups != []
    ensures multiset(groups[1..]) == multiset(groups) - multiset{groups[0]}
  {
    assert groups == [groups[0]] + groups[1..];
  }

  /** Two strictly ascending sequences holding the same groups are equal. */
  lemma {:induction false} AscendingUnique(a: seq<OrderQueryDto>, b: seq<OrderQueryDto>)
    requires StrictlyAscending(a) && StrictlyAscending(b) && multiset(a) == multiset(b)
    ensures a == b
  {
    if a == [] {
      assert |b| == |multiset(b)| == 0;
    } else {
      AscendingHead(a, b);
      AscendingTail(a);
      AscendingTail(b);
      AscendingUnique(a[1..], b[1..]);
      assert a == [a[0]] + a[1..] && b == [b[0]] + b[1..];
    }
  }

  /** Any rearrangement of groups with distinct ids sorts to the same sequence. */
  lemma {:induction false} SortIndependentOfGroupOrder(a: seq<OrderQueryDto>, b: seq<OrderQueryDto>)
    requires multiset(a) == multiset(b) && DistinctIds(a)
    ensures SortByOrderId(a) == SortByOrderId(b)
  {
    DistinctIdsPermutation(a, b);
    SortByOrderIdAscending(a);
    SortByOrderIdAscending(b);
    AscendingUnique(SortByOrderId(a), SortByOrderId(b));
  }

  /**
   * Version 6 gives the same result whatever order the grouping map yields its groups in:
   * sorting any rearrangement of the groups gives `OrdersV6`.
   */
  lemma {:induction false} OrdersV6AnyGroupOrder(flats: seq<OrderFlatDto>, groups: seq<OrderQueryDto>)
    requires multiset(groups) == multiset(GroupByOrder(flats))
    ensures SortByOrderId(groups) == OrdersV6(flats)
  {
    SortIndependentOfGroupOrder(GroupByOrder(flats), groups);
  }

  // ---------------------------------------------------------------------------------------
  // Version 6 is correct

  /** A permutation of groups holds the same groups and the same ids. */
  lemma {:induction false} PermutationKeepsIds(a: seq<OrderQueryDto>, b: seq<OrderQueryDto>)
    requires multiset(a) == multiset(b)
    ensures forall g :: g in a <==> g in b
    ensures IdsOf(a) == IdsOf(b)
  {
    forall g ensures g in a <==> g in b {
      assert g in multiset(a) <==> g in multiset(b);
    }
    forall x | x in IdsOf(a) ensures x in IdsOf(b) {
      var i :| 0 <= i < |a| && a[i].orderId == x;
      assert a[i] in b;
    }
    forall x | x in IdsOf(b) ensures x in IdsOf(a) {
      var i :| 0 <= i < |b| && b[i].orderId == x;
      assert b[i] in a;
    }
  }

  /**
   * The version 6 result has exactly one order per distinct order id of the rows, sorted by
   * strictly ascending order id; each order's header comes from its first row and its items
   * are that order's rows, in row order; and there is one item per row.
   */
  lemma {:induction false} OrdersV6Correct(flats: seq<OrderFlatDto>)
    ensures var orders := OrdersV6(flats);
      && StrictlyAscending(orders)
      && IdsOf(orders) == OrderIds(flats)
      && |orders| == |OrderIds(flats)|
      && AsExpected(orders, flats)
      && TotalItems(orders) == |flats|
  {
    var groups := GroupByOrder(flats);
    var orders := SortByOrderId(groups);
    SortByOrderIdAscending(groups);
    PermutationKeepsIds(orders, groups);
    forall k | 0 <= k < |orders|
      ensures orders[k].orderId in OrderIds(flats) && orders[k] == ExpectedOrder(flats, orders[k].orderId)
    {
      assert orders[k] in groups;
    }
    DistinctIdsCount(orders);
  }

  /**
   * Each order of the version 6 result holds, in row order, one item per row of that order,
   * and each of those items carries the order's id.
   */
  lemma {:induction false} OrdersV6Items(flats: seq<OrderFlatDto>, k: nat)
    requires k < |OrdersV6(flats)|
    ensures var order := OrdersV6(flats)[k];
      && order.orderItems == ItemsOfOrder(flats, order.orderId)
      && order.orderItems != []
      && forall it :: it in order.orderItems ==> it.orderId == order.orderId
  {
    OrdersV6Correct(flats);
    ItemsOfOrderTagged(flats, OrdersV6(flats)[k].orderId);
  }

  // ---------------------------------------------------------------------------------------
  // Versions 2, 3 and 3.1: projecting order entities

  /** The parts of an order item entity its DTO reads; the item is represented by its name. */
  datatype OrderItem = OrderItem(itemName: string, orderPrice: int, count: int)

  /** The parts of an order entity its DTO reads: its member's name and its delivery address. */
  datatype Order = Order(
    id: int, memberName: string, orderDate: LocalDateTime, status: OrderStatus,
    deliveryAddress: Address, orderItems: seq<OrderItem>)

  datatype OrderItemDto = OrderItemDto(itemName: string, orderPrice: int, count: int)

  datatype OrderDto = OrderDto(
    orderId: int, name: string, orderDate: LocalDateTime, orderStatus: OrderStatus,
    address: Address, orderItems: seq<OrderItemDto>)

  /** The `OrderItemDto` of one order item. */
  function OrderItemDtoOf(orderItem: OrderItem): OrderItemDto
  {
    OrderItemDto(orderItem.itemName, orderItem.orderPrice, orderItem.count)
  }

  /** The item DTOs of an order, one per order item, in the same order, fields unchanged. */
  function OrderItemDtosOf(orderItems: seq<OrderItem>): (dtos: seq<OrderItemDto>)
    ensures |dtos| == |orderItems|
    ensures forall i :: 0 <= i < |orderItems| ==>
      && dtos[i].itemName == orderItems[i].itemName
      && dtos[i].orderPrice == orderItems[i].orderPrice
      && dtos[i].count == orderItems[i].count
    ensures forall i :: 0 <= i < |orderItems| ==> dtos[i] == OrderItemDtoOf(orderItems[i])
  {
    if orderItems == [] then []
    else [OrderItemDtoOf(orderItems[0])] + OrderItemDtosOf(orderItems[1..])
  }

  /** The `OrderDto` of an order: its header fields and its items, projected in order. */
  function OrderDtoOf(order: Order): (dto: OrderDto)
    ensures dto.orderId == order.id && dto.name == order.memberName
    ensures dto.orderDate == order.orderDate && dto.orderStatus == order.status
    ensures dto.address == order.deliveryAddress
    ensures |dto.orderItems| == |order.orderItems|
    ensures forall i :: 0 <= i < |order.orderItems| ==> dto.orderItems[i] == OrderItemDtoOf(order.orderItems[i])
  {
    OrderDto(order.id, order.memberName, order.orderDate, order.status, order.deliveryAddress,
             OrderItemDtosOf(order.orderItems))
  }

  // ---------------------------------------------------------------------------------------
  // Version 6 and the `OrderDto` projection agree

  /** The flat row the version 6 query returns for one item of an order. */
  function RowOf(order: Order, orderItem: OrderItem): OrderFlatDto
  {
    OrderFlatDto(order.id, order.memberName, order.orderDate, order.status, order.deliveryAddress,
                 orderItem.itemName, orderItem.orderPrice, orderItem.count)
  }

  /** The flat rows of `order` for the given items: one per item, in item order. */
  function RowsFor(order: Order, orderItems: seq<OrderItem>): (rows: seq<OrderFlatDto>)
    ensures |rows| == |orderItems|
    ensures forall k :: 0 <= k < |rows| ==> rows[k] == RowOf(order, orderItems[k])
  {
    if orderItems == [] then [] else [RowOf(order, orderItems[0])] + RowsFor(order, orderItems[1..])
  }

  /** `row` joins one of the orders with one of that order's items. */
  ghost predicate JoinedRow(row: OrderFlatDto, orders: seq<Order>)
  {
    exists i, k :: 0 <= i < |orders| && 0 <= k < |orders[i].orderItems| && row == RowOf(orders[i], orders[i].orderItems[k])
  }

  /**
   * The inner join of orders with their items, each order's rows together in item order:
   * every row joins an order with one of its items, and every such pair has a row.
   */
  function FlatRows(orders: seq<Order>): (rows: seq<OrderFlatDto>)
    ensures JoinOf(rows, orders)
  {
    if orders == [] then []
    else
      var rest := FlatRows(orders[1..]);
      JoinCons(orders, rest);
      RowsFor(orders[0], orders[0].orderItems) + rest
  }

  /** `rows` holds a row for every order and item of that order, and no other row. */
  ghost predicate JoinOf(rows: seq<OrderFlatDto>, orders: seq<Order>)
  {
    && (forall j :: 0 <= j < |rows| ==> JoinedRow(rows[j], orders))
    && (forall i, k :: 0 <= i < |orders| && 0 <= k < |orders[i].orderItems| ==>
          RowOf(orders[i], orders[i].orderItems[k]) in rows)
  }

  /** The rows of the first order followed by the join of the others are the join of all. */
  lemma {:induction false} JoinCons(orders: seq<Order>, rest: seq<OrderFlatDto>)
    requires orders != [] && JoinOf(rest, orders[1..])
    ensures JoinOf(RowsFor(orders[0], orders[0].orderItems) + rest, orders)
  {
    var own := RowsFor(orders[0], orders[0].orderItems);
    var rows := own + rest;
    forall j | 0 <= j < |rows| ensures JoinedRow(rows[j], orders) {
      if j < |own| {
        assert rows[j] == RowOf(orders[0], orders[0].orderItems[j]);
      } else {
        assert rows[j] == rest[j - |own|];
        assert JoinedRow(rest[j - |own|], orders[1..]);
        var i, k :| 0 <= i < |orders[1..]| && 0 <= k < |orders[1..][i].orderItems| &&
          rest[j - |own|] == RowOf(orders[1..][i], orders[1..][i].orderItems[k]);
        assert orders[1..][i] == orders[i + 1];
      }
    }
    forall i, k | 0 <= i < |orders| && 0 <= k < |orders[i].orderItems|
      ensures RowOf(orders[i], orders[i].orderItems[k]) in rows
    {
      if i == 0 {
        assert rows[k] == own[k];
      } else {
        assert orders[i] == orders[1..][i - 1];
        assert RowOf(orders[i], orders[i].orderItems[k]) in rest;
      }
    }
  }

  /**
   * The two ways of shaping an order item agree: the item that version 6 takes from the row
   * of an order item has the `OrderItemDto`'s name, price and count and the order's id, and
   * the header it takes from that row has the `OrderDto`'s header fields.
   */
  lemma {:induction false} RowProjectionsAgree(order: Order, orderItem: OrderItem)
    ensures var item := ItemOf(RowOf(order, orderItem)); var dto := OrderItemDtoOf(orderItem);
      && item.orderId == order.id && item.itemName == dto.itemName
      && item.orderPrice == dto.orderPrice && item.count == dto.count
    ensures var header := HeaderOf(RowOf(order, orderItem), []); var dto := OrderDtoOf(order);
      && header.orderId == dto.orderId && header.name == dto.name && header.orderDate == dto.orderDate
      && header.orderStatus == dto.orderStatus && header.address == dto.address
  {
  }

  /** No two orders share an id. */
  ghost predicate DistinctOrders(orders: seq<Order>)
  {
    forall i, j :: 0 <= i < j < |orders| ==> orders[i].id != orders[j].id
  }

  /** `row` carries the header of `order`. */
  ghost predicate RowFromOrder(row: OrderFlatDto, order: Order)
  {
    && row.orderId == order.id && row.name == order.memberName && row.orderDate == order.orderDate
    && row.orderStatus == order.status && row.address == order.deliveryAddress
  }

  /** A version 6 order and an `OrderDto` hold the same header and the same items, in order. */
  ghost predicate Agrees(q: OrderQueryDto, d: OrderDto)
  {
    && q.orderId == d.orderId && q.name == d.name && q.orderDate == d.orderDate
    && q.orderStatus == d.orderStatus && q.address == d.address
    && |q.orderItems| == |d.orderItems|
    && forall i :: 0 <= i < |q.orderItems| ==>
         && q.orderItems[i].itemName == d.orderItems[i].itemName
         && q.orderItems[i].orderPrice == d.orderItems[i].orderPrice
         && q.orderItems[i].count == d.orderItems[i].count
  }

  /** The rows of an order yield its items, in order, and nothing for any other order. */
  lemma {:induction false} ItemsOfRowsFor(order: Order, orderItems: seq<OrderItem>, id: int)
    ensures id != order.id ==> ItemsOfOrder(RowsFor(order, orderItems), id) == []
    ensures id == order.id ==>
      var items := ItemsOfOrder(RowsFor(order, orderItems), id);
      && |items| == |orderItems|
      && forall i :: 0 <= i < |items| ==>
           items[i] == OrderItemQueryDto(order.id, orderItems[i].itemName, orderItems[i].orderPrice, orderItems[i].count)
  {
    if orderItems != [] {
      ItemsOfRowsFor(order, orderItems[1..], id);
    }
  }

  /** Every joined row comes from an order with items and carries that order's header. */
  lemma {:induction false} RowsComeFromOrders(orders: seq<Order>, j: nat)
    requires j < |FlatRows(orders)|
    ensures exists i :: 0 <= i < |orders| && orders[i].orderItems != [] && RowFromOrder(FlatRows(orders)[j], orders[i])
  {
    assert JoinedRow(FlatRows(orders)[j], orders);
    var i, k :| 0 <= i < |orders| && 0 <= k < |orders[i].orderItems| &&
      FlatRows(orders)[j] == RowOf(orders[i], orders[i].orderItems[k]);
    assert RowFromOrder(FlatRows(orders)[j], orders[i]);
  }

  /** The joined rows of order `orders[i]`'s id are exactly its own rows. */
  lemma {:induction false} ItemsOfFlatRows(orders: seq<Order>, i: nat)
    requires DistinctOrders(orders) && i < |orders|
    ensures ItemsOfOrder(FlatRows(orders), orders[i].id) ==
      ItemsOfOrder(RowsFor(orders[i], orders[i].orderItems), orders[i].id)
  {
    var id := orders[i].id;
    ItemsOfOrderAppend(RowsFor(orders[0], orders[0].orderItems), FlatRows(orders[1..]), id);
    if i == 0 {
      ItemsOfOtherOrders(orders[1..], id);
    } else {
      ItemsOfRowsFor(orders[0], orders[0].orderItems, id);
      ItemsOfFlatRows(orders[1..], i - 1);
    }
  }

  /** Orders none of which has id `id` yield no item of order `id`. */
  lemma {:induction false} ItemsOfOtherOrders(orders: seq<Order>, id: int)
    requires forall i :: 0 <= i < |orders| ==> orders[i].id != id
    ensures ItemsOfOrder(FlatRows(orders), id) == []
  {
    if orders != [] {
      ItemsOfOrderAppend(RowsFor(orders[0], orders[0].orderItems), FlatRows(orders[1..]), id);
      ItemsOfRowsFor(orders[0], orders[0].orderItems, id);
      ItemsOfOtherOrders(orders[1..], id);
    }
  }

  /** The version 6 group of an order with items agrees with that order's `OrderDto`. */
  lemma {:induction false} ExpectedOrderAgrees(orders: seq<Order>, i: nat)
    requires DistinctOrders(orders) && i < |orders| && orders[i].orderItems != []
    ensures orders[i].id in OrderIds(FlatRows(orders))
    ensures Agrees(ExpectedOrder(FlatRows(orders), orders[i].id), OrderDtoOf(orders[i]))
  {
    var flats := FlatRows(orders);
    var order := orders[i];
    ItemsOfFlatRows(orders, i);
    ItemsOfRowsFor(order, order.orderItems, order.id);
    ItemsOfOrderTagged(flats, order.id);
    var first := FirstRowOf(flats, order.id);
    RowsComeFromOrders(orders, first);
    var i' :| 0 <= i' < |orders| && orders[i'].orderItems != [] && RowFromOrder(flats[first], orders[i']);
    assert i' == i;
  }

  /** `q` agrees with the `OrderDto` of some order in `orders` that has items. */
  ghost predicate FromSomeOrder(q: OrderQueryDto, orders: seq<Order>)
  {
    exists i :: 0 <= i < |orders| && orders[i].orderItems != [] && Agrees(q, OrderDtoOf(orders[i]))
  }

  /** Some order in `out` agrees with the `OrderDto` of `order`. */
  ghost predicate ListedIn(order: Order, out: seq<OrderQueryDto>)
  {
    exists k :: 0 <= k < |out| && Agrees(out[k], OrderDtoOf(order))
  }

  /** Each version 6 order over the joined rows agrees with the `OrderDto` of one order with items. */
  lemma {:induction false} OrdersV6FromOrder(orders: seq<Order>, k: nat)
    requires DistinctOrders(orders) && k < |OrdersV6(FlatRows(orders))|
    ensures FromSomeOrder(OrdersV6(FlatRows(orders))[k], orders)
  {
    var flats := FlatRows(orders);
    var out := OrdersV6(flats);
    OrdersV6Correct(flats);
    var id := out[k].orderId;
    assert id in OrderIds(flats);
    var j := FirstRowOf(flats, id);
    RowsComeFromOrders(orders, j);
    var i :| 0 <= i < |orders| && orders[i].orderItems != [] && RowFromOrder(flats[j], orders[i]);
    ExpectedOrderAgrees(orders, i);
    assert out[k] == ExpectedOrder(flats, id);
  }

  /** Every order with items has a version 6 order over the joined rows that agrees with its `OrderDto`. */
  lemma {:induction false} OrderInOrdersV6(orders: seq<Order>, i: nat)
    requires DistinctOrders(orders) && i < |orders| && orders[i].orderItems != []
    ensures ListedIn(orders[i], OrdersV6(FlatRows(orders)))
  {
    var flats := FlatRows(orders);
    var out := OrdersV6(flats);
    OrdersV6Correct(flats);
    ExpectedOrderAgrees(orders, i);
    assert orders[i].id in IdsOf(out);
    var k :| 0 <= k < |out| && out[k].orderId == orders[i].id;
    assert out[k] == ExpectedOrder(flats, orders[i].id);
  }

  /**
   * An order without items has an `OrderDto` (with no items) but no version 6 entry: the
   * join gives it no row.
   */
  lemma {:induction false} OrderWithoutItemsAbsent(orders: seq<Order>, i: nat)
    requires DistinctOrders(orders) && i < |orders| && orders[i].orderItems == []
    ensures orders[i].id !in IdsOf(OrdersV6(FlatRows(orders)))
    ensures OrderDtoOf(orders[i]).orderId == orders[i].id && OrderDtoOf(orders[i]).orderItems == []
  {
    var flats := FlatRows(orders);
    OrdersV6Correct(flats);
    OrderIdsOfFlatRows(orders);
    forall j | 0 <= j < |orders| && orders[j].orderItems != [] ensures orders[j].id != orders[i].id {
      assert j != i;
    }
    assert orders[i].id !in OrderIds(flats);
  }

  /**
   * For orders with distinct ids, version 6 over their joined rows returns, for each order
   * that has items and for no other, one order whose header and items agree with the
   * order's `OrderDto`.
   */
  lemma {:induction false} OrdersV6MatchesOrderDtos(orders: seq<Order>)
    requires DistinctOrders(orders)
    ensures forall q :: q in OrdersV6(FlatRows(orders)) ==> FromSomeOrder(q, orders)
    ensures forall i :: 0 <= i < |orders| && orders[i].orderItems != [] ==>
      ListedIn(orders[i], OrdersV6(FlatRows(orders)))
    ensures |OrdersV6(FlatRows(orders))| == |set i | 0 <= i < |orders| && orders[i].orderItems != [] :: orders[i].id|
  {
    var out := OrdersV6(FlatRows(orders));
    forall q | q in out
      ensures FromSomeOrder(q, orders)
    {
      var k :| 0 <= k < |out| && out[k] == q;
      OrdersV6FromOrder(orders, k);
    }
    forall i | 0 <= i < |orders| && orders[i].orderItems != [] {
      OrderInOrdersV6(orders, i);
    }
    OrderIdsOfFlatRows(orders);
    OrdersV6Correct(FlatRows(orders));
  }

  /** The order ids of the joined rows are the ids of the orders that have items. */
  lemma {:induction false} OrderIdsOfFlatRows(orders: seq<Order>)
    requires DistinctOrders(orders)
    ensures OrderIds(FlatRows(orders)) == set i | 0 <= i < |orders| && orders[i].orderItems != [] :: orders[i].id
  {
    var flats := FlatRows(orders);
    var withItems := set i | 0 <= i < |orders| && orders[i].orderItems != [] :: orders[i].id;
    forall id | id in OrderIds(flats)
      ensures id in withItems
    {
      var j := FirstRowOf(flats, id);
      RowsComeFromOrders(orders, j);
      var i :| 0 <= i < |orders| && orders[i].orderItems != [] && RowFromOrder(flats[j], orders[i]);
    }
    forall i | 0 <= i < |orders| && orders[i].orderItems != []
      ensures orders[i].id in OrderIds(flats)
    {
      ExpectedOrderAgrees(orders, i);
    }
  }
}

# jpashop core in Dafny

A model of the behaviour-carrying core of the jpashop Spring/JPA shop:

- **Items and categories** (`domain.dfy`, module `Domain`). An `Item` is a class whose
  `stockQuantity` counter changes in place. `AddStock` raises it. `RemoveStock` lowers it,
  or fails with `NotEnoughStock` when the rest would be negative. Both use Java's 32-bit
  `int` arithmetic (`Wrap32`). A `Category` is a class with a `parent` reference and a
  `child` list. `AddChildCategory` appends to the list and sets the child's `parent`.
- **Member registration** (`member_service.dfy`, module `MemberService`). The repository
  is a class holding a map from generated id to `Member`, plus the id sequence. The service:
  - `Join` refuses a member whose name is already stored (`IllegalState`);
  - `FindMembers` and `FindOne` look members up, and `FindOne` fails with `NoSuchElement`
    for an absent id;
  - `Update` renames a stored member in place.
- **Order endpoints** (`order_api.dfy`, module `OrderApi`). Version 6 (`OrdersV6`) regroups
  the flat rows of the order/item join into one `OrderQueryDto` per order id, sorted by
  order id. The items of each order stay in row order, and the header comes from the
  order's first row. `OrderDtoOf` and `OrderItemDtosOf` project order entities the way
  the `OrderDto`/`OrderItemDto` constructors do. `OrdersV6MatchesOrderDtos` shows that,
  over the joined rows of a set of orders, version 6 returns the same content as those
  projections for every order that has items. `OrderWithoutItemsAbsent` shows that an order
  without items has an `OrderDto` but no version 6 entry.
- `wrappers.dfy` holds `Option`, `Result` and `Outcome`. Thrown exceptions become `Failure`
  or `Fail` values.

The Java collector groups rows in a `HashMap`, whose iteration order is unspecified. The
model groups orders in order of first appearance and then sorts them stably by order id.
`OrdersV6AnyGroupOrder` shows that sorting any rearrangement of those groups gives the same
result. So the fixed order stands for every order the map may produce.

## Model

| member | source | states |
|---|---|---|
| Domain.Wrap32 | src/main/java/jpabook/jpashop/domain/item/Item.java:39 | Java `int` arithmetic: the result is in the 32-bit range, equals the exact value when that fits, and differs from it by a multiple of 2^32 |
| Domain.Item.AddStock | src/main/java/jpabook/jpashop/domain/item/Item.java:38-40 | the stock becomes the 32-bit sum of old stock and quantity, the exact sum (and non-negative) when a non-negative stock and quantity do not overflow; name, price and categories unchanged |
| Domain.Item.RemoveStock | src/main/java/jpabook/jpashop/domain/item/Item.java:45-51 | succeeds iff the 32-bit rest is non-negative, which for non-negative stock and quantity is iff quantity <= stock; on success the stock is that rest and non-negative; on failure `NotEnoughStock` and the stock unchanged; other fields unchanged |
| Domain.RemoveMinValueRefused | src/main/java/jpabook/jpashop/domain/item/Item.java:45-49 | the guard sees the wrapped rest: from every non-negative stock, removing the most negative `int` gives a negative 32-bit rest (so `RemoveStock` refuses it), though the exact rest is positive |
| Domain.AddStockOverflowNegative | src/main/java/jpabook/jpashop/domain/item/Item.java:38-40 | for a non-negative stock and quantity whose exact sum exceeds the largest `int`, the 32-bit sum `AddStock` stores is that sum minus 2^32, a negative stock |
| Domain.Wrap32Add | src/main/java/jpabook/jpashop/domain/item/Item.java:39-46 | wrapping an intermediate difference does not change a wrapped sum, so a removal followed by an addition of the same quantity restores the counter |
| Domain.RemoveThenAddStock | src/main/java/jpabook/jpashop/domain/item/Item.java:38-51 | removing a quantity and adding it back leaves the stock exactly as it was; the removal succeeds iff the 32-bit rest is non-negative |
| Domain.Category.AddChildCategory | src/main/java/jpabook/jpashop/domain/Category.java:39-42 | the child list becomes the old list plus `c` at the end; `c.parent` is this category; ids, names and items of both unchanged; a previous parent's child list is untouched |
| Domain.AddChildTwice | src/main/java/jpabook/jpashop/domain/Category.java:39-42 | adding the same child twice lists it twice (no duplicate filtering) |
| Domain.Reparent | src/main/java/jpabook/jpashop/domain/Category.java:39-42 | attaching a child to a second parent keeps it in the first parent's list, while its `parent` names only the second |
| MemberService.Renamed | src/main/java/jpabook/jpashop/service/MemberService.java:60-63 | renaming keeps the key set, changes only the name of member `id`, and leaves all other members as they were |
| MemberService.RenameCanDuplicateName | src/main/java/jpabook/jpashop/service/MemberService.java:60-63 | update does not repeat the duplicate check: in every store, renaming a member to another stored member's name leaves two members with that name, so names are no longer unique |
| MemberService.JoinKeepsNamesUnique | src/main/java/jpabook/jpashop/service/MemberService.java:25-30 | storing a member with an untaken name under a fresh id keeps names unique |
| MemberService.MemberRepository.Save | src/main/java/jpabook/jpashop/service/MemberService.java:27 | stores the member under a newly generated id not in use before, assigning that id to the member |
| MemberService.MemberRepository.FindByName | src/main/java/jpabook/jpashop/repository/MemberRepository.java:18 | the result is empty iff no stored member has that name; every result is a stored member with that name, and every stored member with that name is in the result |
| MemberService.MemberRepository.FindById | src/main/java/jpabook/jpashop/service/MemberService.java:53 | present iff the id is stored, and then it is the stored member |
| MemberService.MemberService.Join | src/main/java/jpabook/jpashop/service/MemberService.java:25-30 | fails with `IllegalState` and stores nothing iff the name is taken; otherwise stores the member under a fresh id, returns that id, and the name is then found; names stay unique |
| MemberService.MemberService.ValidateDuplicateMember | src/main/java/jpabook/jpashop/service/MemberService.java:35-40 | fails with `IllegalState` exactly when a stored member has the same name |
| MemberService.MemberService.FindMembers | src/main/java/jpabook/jpashop/service/MemberService.java:45-47 | returns every stored member and only stored members |
| MemberService.MemberService.FindOne | src/main/java/jpabook/jpashop/service/MemberService.java:52-54 | returns the member stored under the id; fails with `NoSuchElement` iff the id is not stored |
| MemberService.MemberService.Update | src/main/java/jpabook/jpashop/service/MemberService.java:59-63 | succeeds iff the id is stored, and then the store is `Renamed` (only that member's name changes); otherwise `NoSuchElement` and nothing changes |
| OrderApi.RowsFor | src/main/java/jpabook/jpashop/api/OrderApiController.java:189 | the flat rows of an order: one row per order item, in item order, each joining the order's header with that item |
| OrderApi.FlatRows | src/main/java/jpabook/jpashop/api/OrderApiController.java:189 | the flat query's rows as an inner join: every row joins an order with one of its items, and every such pair has a row |
| OrderApi.RowProjectionsAgree | src/main/java/jpabook/jpashop/api/OrderApiController.java:192-195 | the item and header that version 6 takes from the row of an order item (`ItemOf`, `HeaderOf` over `RowOf`) carry the same fields as `OrderItemDtoOf` and `OrderDtoOf` (lines 213-218, 231-235) |
| OrderApi.IndexOfOrder | src/main/java/jpabook/jpashop/api/OrderApiController.java:192 | finds the first group with the given order id, or reports that there is none |
| OrderApi.OrdersV6 | src/main/java/jpabook/jpashop/api/OrderApiController.java:188-201 | no rows give no orders |
| OrderApi.ItemsOfOrderAppend | src/main/java/jpabook/jpashop/api/OrderApiController.java:193 | the items of an order over concatenated rows are the items over the first part followed by those over the second |
| OrderApi.ItemsOfOrderTagged | src/main/java/jpabook/jpashop/api/OrderApiController.java:193 | every collected item carries its order's id; an order has no items iff no row has its id |
| OrderApi.FirstRowOf | src/main/java/jpabook/jpashop/api/OrderApiController.java:192 | the first row carrying a given order id |
| OrderApi.AddRow | src/main/java/jpabook/jpashop/api/OrderApiController.java:191-194 | one step of the grouping collector: the row's order id joins the ids; a new group is opened only for an id not seen before; distinct ids stay distinct; exactly one item is added |
| OrderApi.GroupByOrder | src/main/java/jpabook/jpashop/api/OrderApiController.java:191-196 | grouping gives one group per distinct order id; each group has the header of its order's first row and all of its rows' items in row order; one item per row |
| OrderApi.InsertByOrderId | src/main/java/jpabook/jpashop/api/OrderApiController.java:197 | inserting a group adds exactly that group and its items |
| OrderApi.SortByOrderId | src/main/java/jpabook/jpashop/api/OrderApiController.java:197 | sorting is a permutation of the groups and keeps every item |
| OrderApi.SortByOrderIdAscending | src/main/java/jpabook/jpashop/api/OrderApiController.java:197 | groups with distinct ids come out in strictly ascending order id |
| OrderApi.DistinctIdsPermutation | src/main/java/jpabook/jpashop/api/OrderApiController.java:192-194 | a rearrangement of groups with distinct ids has distinct ids |
| OrderApi.AscendingUnique | src/main/java/jpabook/jpashop/api/OrderApiController.java:197 | two strictly ascending sequences holding the same groups are equal |
| OrderApi.SortIndependentOfGroupOrder | src/main/java/jpabook/jpashop/api/OrderApiController.java:194-197 | any two rearrangements of groups with distinct ids sort to the same sequence |
| OrderApi.OrdersV6AnyGroupOrder | src/main/java/jpabook/jpashop/api/OrderApiController.java:191-198 | whatever order the grouping map yields its groups in, sorting them gives `OrdersV6` |
| OrderApi.DistinctIdsCount | src/main/java/jpabook/jpashop/api/OrderApiController.java:191-198 | groups with distinct ids are as many as their set of ids |
| OrderApi.OrdersV6Correct | src/main/java/jpabook/jpashop/api/OrderApiController.java:188-201 | the result is sorted by strictly ascending order id; its ids are exactly the rows' order ids, each once; each order is the header of its first row with all of its items; total items equal the number of rows |
| OrderApi.OrdersV6Items | src/main/java/jpabook/jpashop/api/OrderApiController.java:193-196 | each result order's items are exactly the items of that order's rows, in row order, non-empty, each tagged with the order's id |
| OrderApi.OrderItemDtosOf | src/main/java/jpabook/jpashop/api/OrderApiController.java:219-221 | one item DTO per order item, in the same order: the `OrderItemDto` of that item, with its name, price and count |
| OrderApi.OrderDtoOf | src/main/java/jpabook/jpashop/api/OrderApiController.java:213-222 | the DTO copies the order's id, member name, date, status and delivery address, and holds, index by index, the `OrderItemDto` of each of the order's items |
| OrderApi.ItemsOfRowsFor | src/main/java/jpabook/jpashop/api/OrderApiController.java:193 | an order's joined rows give its items in order, and nothing for another order id |
| OrderApi.RowsComeFromOrders | src/main/java/jpabook/jpashop/api/OrderApiController.java:189 | every joined row carries the header of an order that has items |
| OrderApi.ItemsOfFlatRows | src/main/java/jpabook/jpashop/api/OrderApiController.java:193 | with distinct order ids, the rows of one order id in the joined rows are exactly that order's own rows |
| OrderApi.ExpectedOrderAgrees | src/main/java/jpabook/jpashop/api/OrderApiController.java:192-196 | the version 6 group of an order with items agrees with the order's `OrderDto` in header and items |
| OrderApi.OrderIdsOfFlatRows | src/main/java/jpabook/jpashop/api/OrderApiController.java:189-192 | the order ids of the joined rows are the ids of the orders that have items |
| OrderApi.OrderWithoutItemsAbsent | src/main/java/jpabook/jpashop/api/OrderApiController.java:189-198 | an order without items has an `OrderDto` with no items but no version 6 entry, since the join gives it no row |
| OrderApi.OrdersV6MatchesOrderDtos | src/main/java/jpabook/jpashop/api/OrderApiController.java:188-222 | over the joined rows of orders with distinct ids, version 6 returns one order per order with items and no other; each agrees in header and items with the `OrderDto` of that order |

## Left out

- Persistence (JPA entity manager, Spring Data query derivation, lazy loading, transactions and their rollback) is not modelled. The repository is an in-memory map, and `findByName`'s query is the set of stored members with that name.
- Concurrency: two simultaneous joins with the same name can both pass the duplicate check in the Java service. The model is sequential.
- MemberService.MemberService.FindMembers: returns a set rather than a `List`, because the order of `findAll` is the database's.
- MemberService.MemberRepository.Save: ids are unbounded integers from a sequence starting at 1, and the database's id generator is not modelled. The model treats every saved member as new. In Java, Spring Data's `save` persists only a member whose id is `null`, and merges any other. A member bound from a request body (src/main/java/jpabook/jpashop/api/MemberApiController.java:74-76) can carry an id. `join` then overwrites the stored member with that id and returns the caller's id. `MemberService.MemberService.Join`'s fresh-id promise covers only members that arrive without an id.
- OrderApi.OrdersV6: the grouping key is the order id. `OrderQueryDto`'s `equals`/`hashCode` is not part of this model. Keying by order id is what lets the endpoint return one entry per order, sorted by that id.
- OrderApi.OrdersV6: the rows are a parameter, and the `Result` wrapper around the list is dropped.
- OrderApi.FlatRows: the flat query (`findAllByDtoFlat`) is not part of this model. `FlatRows` assumes an inner join that lists each order's rows together, in the order of its item list. Without an ORDER BY, SQL promises no row order. `OrdersV6MatchesOrderDtos`' agreement of items in order depends on this assumption. `OrdersV6Correct` holds for any row order.
- Null references are excluded by the types. In the Java code, `addChildCategory(null)` appends `null` and then throws a `NullPointerException`. A `null` member passed to `join` throws a `NullPointerException` in the service, at `member.getName()`. `update(id, null)` succeeds and sets the member's name to `null`, because the setter does not check. Only a `null` id fails in the repository, in `findById`. None of these paths is modelled.
- The `Order`, `OrderItem`, `Delivery` and `OrderStatus` entities are not part of this model. `Order` and `OrderItem` are the fields the DTOs read, `OrderStatus` has two values, and `LocalDateTime` is an integer timestamp that is only copied.
- Order price and count are unbounded integers; the order code copies them and never computes with them.
- Endpoints V2, V3 and V3.1 differ only in how they fetch orders. Their content is `OrderDtoOf` of each order, and the fetch joins and paging are not modelled. Endpoints V1, V4 and V5, `OrderService`, the simple order and member API controllers, and the query repositories are not part of this model.
- `Category.items` and `Item.categories` are plain fields. The many-to-many association is never updated by the core.

/**
 * The shop's entities that carry behaviour of their own: an `Item` guards its stock counter,
 * and a `Category` links itself to a child category on both sides of the parent/child
 * association. `Address` and `Member` are plain values.
 */
module Domain {
  import opened Wrappers

  /** Embedded address value (city, street, zipcode). */
  datatype Address = Address(city: string, street: string, zipcode: string)

  /** A member as stored by the member repository; `id` is assigned when it is saved. */
  datatype Member = Member(id: int, name: string, address: Address)

  /** The error `removeStock` throws when the stock would go negative. */
  datatype StockError = NotEnoughStock

  /** Java's 32-bit `int`. */
  type Int32 = x: int | -0x8000_0000 <= x < 0x8000_0000

  /** Java `int` arithmetic: the mathematical value reduced into the 32-bit range. */
  function Wrap32(x: int): (r: Int32)
    ensures -0x8000_0000 <= x < 0x8000_0000 ==> r == x
    ensures (x - r) % 0x1_0000_0000 == 0
  {
    (x + 0x8000_0000) % 0x1_0000_0000 - 0x8000_0000
  }

  /** Wrapping an intermediate result does not change a wrapped sum. */
  lemma {:induction false} Wrap32Add(x: int, y: int)
    ensures Wrap32(Wrap32(x) + y) == Wrap32(x + y)
  {
    var k := (x + 0x8000_0000) / 0x1_0000_0000;
    assert Wrap32(x) + y + 0x8000_0000 == (x + y + 0x8000_0000) - k * 0x1_0000_0000;
    ModuloShift(x + y + 0x8000_0000, k);
  }

  /** Subtracting a multiple of 2^32 does not change the remainder modulo 2^32. */
  lemma {:induction false} ModuloShift(a: int, k: int)
    ensures (a - k * 0x1_0000_0000) % 0x1_0000_0000 == a % 0x1_0000_0000
  {
    var q := a / 0x1_0000_0000;
    var r := a % 0x1_0000_0000;
    assert a - k * 0x1_0000_0000 == (q - k) * 0x1_0000_0000 + r;
  }

  /**
   * A product with a stock counter. `stockQuantity` is changed in place by `AddStock` and
   * `RemoveStock`; every other field is left alone by both.
   */
  class Item {
    var id: int
    var name: string
    var price: Int32
    var stockQuantity: Int32
    var categories: seq<Category>

    constructor (id: int, name: string, price: Int32, stockQuantity: Int32)
      ensures this.id == id && this.name == name && this.price == price
      ensures this.stockQuantity == stockQuantity && categories == []
    {
      this.id := id;
      this.name := name;
      this.price := price;
      this.stockQuantity := stockQuantity;
      categories := [];
    }

    /** Raises the stock by `quantity` in 32-bit arithmetic: exactly, unless the sum overflows. */
    method AddStock(quantity: Int32)
      modifies this`stockQuantity
      ensures stockQuantity == Wrap32(old(stockQuantity) + quantity)
      ensures old(stockQuantity) + quantity < 0x8000_0000 && 0 <= old(stockQuantity) && 0 <= quantity ==>
        stockQuantity == old(stockQuantity) + quantity && stockQuantity >= 0
      ensures name == old(name) && price == old(price) && categories == old(categories)
    {
      stockQuantity := Wrap32(stockQuantity + quantity);
    }

    /**
     * Lowers the stock by `quantity`, or fails with `NotEnoughStock` and leaves the stock
     * as it was when the 32-bit rest would be negative. For a non-negative stock and
     * quantity, that is exactly when the quantity exceeds the stock.
     */
    method RemoveStock(quantity: Int32) returns (outcome: Outcome<StockError>)
      modifies this`stockQuantity
      ensures outcome.Pass? <==> Wrap32(old(stockQuantity) - quantity) >= 0
      ensures 0 <= old(stockQuantity) && 0 <= quantity ==> (outcome.Pass? <==> quantity <= old(stockQuantity))
      ensures outcome.Pass? ==> stockQuantity == Wrap32(old(stockQuantity) - quantity) && stockQuantity >= 0
      ensures outcome.Fail? ==> outcome.error == NotEnoughStock && stockQuantity == old(stockQuantity)
      ensures name == old(name) && price == old(price) && categories == old(categories)
    {
      var restStock := Wrap32(stockQuantity - quantity);
      if restStock < 0 {
        return Fail(NotEnoughStock);
      }
      stockQuantity := restStock;
      outcome := Pass;
    }
  }

  /**
   * The guard of `RemoveStock` sees the wrapped difference: removing the most negative `int`
   * is refused from every non-negative stock, although the exact rest would be positive.
   */
  lemma {:induction false} RemoveMinValueRefused(stock: Int32)
    requires 0 <= stock
    ensures stock - (-0x8000_0000) > 0
    ensures Wrap32(stock - (-0x8000_0000)) == stock - 0x8000_0000 < 0
  {
    ModuloShift(stock, -1);
  }

  /**
   * `AddStock` makes a non-negative stock negative whenever the exact sum with a
   * non-negative quantity exceeds the largest `int`.
   */
  lemma {:induction false} AddStockOverflowNegative(stock: Int32, quantity: Int32)
    requires 0 <= stock && 0 <= quantity && stock + quantity >= 0x8000_0000
    ensures Wrap32(stock + quantity) == stock + quantity - 0x1_0000_0000 < 0
  {
    ModuloShift(stock + quantity - 0x8000_0000, -1);
  }

  /**
   * Removing a quantity and adding it back restores the stock; a failed removal changes
   * nothing, so adding is skipped then.
   */
  method RemoveThenAddStock(item: Item, quantity: Int32) returns (outcome: Outcome<StockError>)
    modifies item`stockQuantity
    ensures outcome.Pass? <==> Wrap32(old(item.stockQuantity) - quantity) >= 0
    ensures item.stockQuantity == old(item.stockQuantity)
  {
    ghost var before := item.stockQuantity;
    outcome := item.RemoveStock(quantity);
    if outcome.Pass? {
      item.AddStock(quantity);
      Wrap32Add(before - quantity, quantity);
    }
  }

  /**
   * A node of the category tree. `parent` and `child` are the two sides of one association;
   * `AddChildCategory` is the only operation that updates both of them together.
   */
  class Category {
    var id: int
    var name: string
    var items: seq<Item>
    var parent: Category?
    var child: seq<Category>

    constructor (id: int, name: string)
      ensures this.id == id && this.name == name
      ensures items == [] && parent == null && child == []
    {
      this.id := id;
      this.name := name;
      items := [];
      parent := null;
      child := [];
    }

    /**
     * Appends `c` to this category's children and makes this category `c`'s parent.
     * Nothing is removed from a previous parent's children, and no duplicate is filtered out.
     */
    method AddChildCategory(c: Category)
      modifies this`child, c`parent
      ensures child == old(child) + [c]
      ensures c.parent == this
      ensures id == old(id) && name == old(name) && items == old(items)
      ensures c.id == old(c.id) && c.name == old(c.name) && c.items == old(c.items)
      ensures var previous := old(c.parent); previous != null && previous != this ==> previous.child == old(previous.child)
    {
      child := child + [c];
      c.parent := this;
    }
  }

  /** Adding the same child twice lists it twice. */
  method AddChildTwice(parent: Category, c: Category)
    modifies parent`child, c`parent
    ensures parent.child == old(parent.child) + [c, c]
    ensures |parent.child| == |old(parent.child)| + 2
    ensures c.parent == parent
  {
    parent.AddChildCategory(c);
    parent.AddChildCategory(c);
  }

  /**
   * Moving a child to a second parent leaves it listed under the first one too, while its
   * `parent` field names only the second.
   */
  method Reparent(first: Category, second: Category, c: Category)
    requires first != second
    modifies first`child, second`child, c`parent
    ensures c.parent == second
    ensures first.child == old(first.child) + [c]
    ensures second.child == old(second.child) + [c]
  {
    first.AddChildCategory(c);
    second.AddChildCategory(c);
  }
}

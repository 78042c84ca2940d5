/**
  The cart's storage slot and the operations that read and rewrite it:
  `getCart`, `saveCart`, `addToCart`, `removeFromCart`, `clearCart` and the
  quantity field's change handler. Each operation loads the list, changes
  it in memory and writes the whole list back.
*/
module CartStorage {
  import opened Wrappers
  import opened Cart

  /**
    The one storage key the cart lives under: not set, set to text that does
    not parse as a list, or set to a serialised list.
  */
  datatype Slot = Absent | Corrupt | Stored(items: Cart)

  /** What `getCart` yields for a slot: the stored list, or an empty cart. */
  function Load(slot: Slot): Cart {
    if slot.Stored? then slot.items else []
  }

  /** `Array.prototype.find` by id, as a left-to-right scan. */
  method FindIndex(cart: Cart, id: string) returns (k: Option<nat>)
    ensures k.Some? ==> k.value < |cart| && cart[k.value].id == id
    ensures k.Some? ==> forall j :: 0 <= j < k.value ==> cart[j].id != id
    ensures k.None? ==> forall j :: 0 <= j < |cart| ==> cart[j].id != id
    ensures k == Find(cart, id)
  {
    var i := 0;
    while i < |cart|
      invariant 0 <= i <= |cart|
      invariant forall j :: 0 <= j < i ==> cart[j].id != id
    {
      if cart[i].id == id {
        return Some(i);
      }
      i := i + 1;
    }
    return None;
  }

  class CartStore {
    var slot: Slot

    constructor (initial: Slot)
      ensures slot == initial
    {
      slot := initial;
    }

    /** `getCart`: a missing or unparseable slot reads as the empty cart. */
    method GetCart() returns (cart: Cart)
      ensures slot.Stored? ==> cart == slot.items
      ensures !slot.Stored? ==> cart == []
    {
      match slot
      case Stored(items) => cart := items;
      case _ => cart := [];
    }

    /** `saveCart`: the whole list replaces whatever the slot held. */
    method SaveCart(cart: Cart)
      modifies this
      ensures slot == Stored(cart)
      ensures Load(slot) == cart
    {
      slot := Stored(cart);
    }

    /**
      `addToCart`: a missing item or a falsy id leaves the slot untouched;
      otherwise the loaded cart is bumped or extended and written back.
    */
    method AddToCart(item: Option<Product>)
      modifies this
      ensures item.None? || item.value.id == "" ==> slot == old(slot)
      ensures item.Some? && item.value.id != "" ==> slot == Stored(AddItem(old(Load(slot)), item))
      ensures IdsUnique(old(Load(slot))) ==> IdsUnique(Load(slot))
    {
      if IdsUnique(Load(slot)) {
        AddPreservesUnique(Load(slot), item);
      }
      if item.None? || item.value.id == "" {
        return;
      }
      var p := item.value;
      var cart := GetCart();
      var k := FindIndex(cart, p.id);
      if k.Some? {
        var existing := cart[k.value];
        cart := cart[k.value := existing.(qty := OrOne(existing.qty) + 1)];
      } else {
        cart := cart + [Item(p.id, p.name, p.price, 1)];
      }
      SaveCart(cart);
    }

    /** `removeFromCart`: the loaded cart, without the lines carrying `id`, is written back. */
    method RemoveFromCart(id: string)
      modifies this
      ensures slot == Stored(Without(old(Load(slot)), id))
      ensures !HasId(Load(slot), id)
      ensures !HasId(old(Load(slot)), id) ==> Load(slot) == old(Load(slot))
      ensures IdsUnique(old(Load(slot))) ==> IdsUnique(Load(slot))
    {
      var cart := GetCart();
      WithoutRemovesId(cart, id);
      if !HasId(cart, id) {
        WithoutAbsent(cart, id);
      }
      if IdsUnique(cart) {
        WithoutPreservesUnique(cart, id);
      }
      cart := Without(cart, id);
      SaveCart(cart);
    }

    /** `clearCart`: the key is deleted, so the next load is the empty cart. */
    method ClearCart()
      modifies this
      ensures slot == Absent
      ensures Load(slot) == [] && Count(Load(slot)) == 0
    {
      slot := Absent;
    }

    /**
      The change handler of a line's quantity field: the line with `id` gets
      `Number(raw) || 1`, and the cart is written back.
    */
    method ChangeQuantity(id: string, raw: string)
      modifies this
      ensures slot == Stored(SetQty(old(Load(slot)), id, QtyFromInput(raw)))
      ensures IdsUnique(old(Load(slot))) ==> IdsUnique(Load(slot))
    {
      var cart := GetCart();
      SetQtyChangesOneLine(cart, id, QtyFromInput(raw));
      var k := FindIndex(cart, id);
      if k.Some? {
        cart := cart[k.value := cart[k.value].(qty := QtyFromInput(raw))];
      }
      SaveCart(cart);
    }
  }
}

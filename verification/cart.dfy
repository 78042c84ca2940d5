/**
  The shopping cart as the script keeps it: an ordered list of line items
  `{id, name, price, qty}`. This module holds the pure meaning of each cart
  operation; `CartStorage` performs them against the storage slot.

  A line item's `qty` is an integer; 0 stands for every falsy quantity
  (0 itself, or a `qty` property that is missing), since the script treats
  them alike (`qty || 1`, `qty || 0`). An `id` is a string and the empty
  string is the falsy id. `price` is carried along and never computed with.
*/
module Cart {
  import opened Wrappers
  import opened Text
  import opened Numbers

  /** What a product button hands to `addToCart`. */
  datatype Product = Product(id: string, name: string, price: real)

  /** One line of the cart. */
  datatype Item = Item(id: string, name: string, price: real, qty: int)

  type Cart = seq<Item>

  /** The cart's invariant: no `id` occurs on two lines. */
  predicate IdsUnique(cart: Cart) {
    forall i, j :: 0 <= i < j < |cart| ==> cart[i].id != cart[j].id
  }

  predicate HasId(cart: Cart, id: string) {
    exists k :: 0 <= k < |cart| && cart[k].id == id
  }

  /** `x || 1` for a quantity: a falsy (zero) quantity reads as 1. */
  function OrOne(q: int): (r: int)
    ensures r != 0
    ensures q != 0 ==> r == q
  {
    if q == 0 then 1 else q
  }

  /**
    `Array.prototype.find` by id: the index of the first line whose id is
    `id`, or None when no line has it.
  */
  function Find(cart: Cart, id: string): (r: Option<nat>)
    ensures r.Some? ==> r.value < |cart| && cart[r.value].id == id
    ensures r.Some? ==> forall j :: 0 <= j < r.value ==> cart[j].id != id
    ensures r.None? <==> !HasId(cart, id)
  {
    if cart == [] then None
    else if cart[0].id == id then Some(0)
    else match Find(cart[1..], id)
      case None => None
      case Some(k) => Some(k + 1)
  }

  /** The line `addToCart` appends for a product not yet in the cart. */
  function NewLine(p: Product): Item {
    Item(p.id, p.name, p.price, 1)
  }

  /**
    `addToCart(item)` on the loaded cart: nothing when the item or its id is
    falsy; otherwise the first line with that id gets `(qty || 1) + 1`, and
    when there is none a new line with quantity 1 is appended.
  */
  function AddItem(cart: Cart, item: Option<Product>): (r: Cart)
    ensures |cart| <= |r| <= |cart| + 1
  {
    if item.None? || item.value.id == "" then cart
    else match Find(cart, item.value.id)
      case Some(k) => cart[k := cart[k].(qty := OrOne(cart[k].qty) + 1)]
      case None => cart + [NewLine(item.value)]
  }

  /** A repeat add bumps that one line and leaves every other line alone. */
  lemma AddExisting(cart: Cart, p: Product)
    requires p.id != "" && HasId(cart, p.id)
    ensures var r := AddItem(cart, Some(p));
      var k := Find(cart, p.id).value;
      && |r| == |cart|
      && r[k] == cart[k].(qty := OrOne(cart[k].qty) + 1)
      && (forall j :: 0 <= j < |cart| && j != k ==> r[j] == cart[j])
  {
  }

  /** A new id is appended at the end with quantity 1; the old lines keep their order. */
  lemma AddNew(cart: Cart, p: Product)
    requires p.id != "" && !HasId(cart, p.id)
    ensures AddItem(cart, Some(p)) == cart + [Item(p.id, p.name, p.price, 1)]
  {
  }

  lemma {:induction false} FindAppended(cart: Cart, x: Item)
    requires !HasId(cart, x.id)
    ensures Find(cart + [x], x.id) == Some(|cart|)
  {
    var c := cart + [x];
    assert c[|cart|].id == x.id;
    assert HasId(c, x.id);
  }

  /** Adding the same new product twice gives one line with quantity 2. */
  lemma AddTwice(cart: Cart, p: Product)
    requires p.id != "" && !HasId(cart, p.id)
    ensures AddItem(AddItem(cart, Some(p)), Some(p)) == cart + [Item(p.id, p.name, p.price, 2)]
  {
    FindAppended(cart, NewLine(p));
  }

  /** Adding keeps every id on at most one line. */
  lemma AddPreservesUnique(cart: Cart, item: Option<Product>)
    requires IdsUnique(cart)
    ensures IdsUnique(AddItem(cart, item))
  {
    if item.Some? && item.value.id != "" && !HasId(cart, item.value.id) {
      var r := AddItem(cart, item);
      forall i, j | 0 <= i < j < |r|
        ensures r[i].id != r[j].id
      {
        if j == |cart| {
          assert r[i] == cart[i];
        }
      }
    }
  }

  /** `removeFromCart(id)`: the lines whose id differs from `id`, in their order. */
  function Without(cart: Cart, id: string): (r: Cart)
    ensures |r| <= |cart|
  {
    if cart == [] then []
    else (if cart[0].id == id then [] else [cart[0]]) + Without(cart[1..], id)
  }

  /** Removing an id that no line carries leaves the cart as it was. */
  lemma {:induction false} WithoutAbsent(cart: Cart, id: string)
    requires !HasId(cart, id)
    ensures Without(cart, id) == cart
  {
    if cart != [] {
      assert cart[0].id != id;
      assert !HasId(cart[1..], id) by {
        forall k | 0 <= k < |cart| - 1
          ensures cart[1..][k].id != id
        {
          assert cart[1..][k] == cart[k + 1];
        }
      }
      WithoutAbsent(cart[1..], id);
      assert [cart[0]] + cart[1..] == cart;
    }
  }

  /** A line survives removal exactly when it was in the cart with a different id. */
  lemma {:induction false} WithoutMembers(cart: Cart, id: string, x: Item)
    ensures x in Without(cart, id) <==> x in cart && x.id != id
  {
    if cart != [] {
      WithoutMembers(cart[1..], id, x);
      assert x in cart <==> x == cart[0] || x in cart[1..];
    }
  }

  /** Filtering distributes over concatenation, so order is kept. */
  lemma {:induction false} WithoutAppend(a: Cart, b: Cart, id: string)
    ensures Without(a + b, id) == Without(a, id) + Without(b, id)
  {
    if a == [] {
      assert a + b == b;
    } else {
      var head := if a[0].id == id then [] else [a[0]];
      assert (a + b)[0] == a[0] && (a + b)[1..] == a[1..] + b;
      assert Without(a + b, id) == head + Without(a[1..] + b, id);
      WithoutAppend(a[1..], b, id);
      assert head + (Without(a[1..], id) + Without(b, id)) == (head + Without(a[1..], id)) + Without(b, id);
    }
  }

  /** After removal the id is gone. */
  lemma WithoutRemovesId(cart: Cart, id: string)
    ensures !HasId(Without(cart, id), id)
  {
    var r := Without(cart, id);
    forall k | 0 <= k < |r|
      ensures r[k].id != id
    {
      WithoutMembers(cart, id, r[k]);
    }
  }

  /** Removal keeps the ids unique. */
  lemma {:induction false} WithoutPreservesUnique(cart: Cart, id: string)
    requires IdsUnique(cart)
    ensures IdsUnique(Without(cart, id))
  {
    if cart != [] {
      var rest := Without(cart[1..], id);
      WithoutPreservesUnique(cart[1..], id);
      if cart[0].id != id {
        var r := [cart[0]] + rest;
        assert r == Without(cart, id);
        forall i, j | 0 <= i < j < |r|
          ensures r[i].id != r[j].id
        {
          if i == 0 {
            assert r[j] in rest;
            WithoutMembers(cart[1..], id, r[j]);
            var m :| 0 <= m < |cart[1..]| && cart[1..][m] == r[j];
            assert cart[m + 1] == r[j];
          }
        }
      }
    }
  }

  /** The quantity-field rule `Number(raw) || 1`. */
  function QtyFromInput(raw: string): (q: int)
    ensures q != 0
  {
    match ToNumber(raw)
    case NaN => 1
    case Num(v) => OrOne(v)
  }

  /** A field holding the decimal text of `n` gives `n`, except that 0 gives 1. */
  lemma QtyFromShown(n: int)
    ensures QtyFromInput(ShowInt(n)) == OrOne(n)
  {
    ToNumberShowInt(n);
  }

  /** An empty or blank field gives 1. */
  lemma QtyOfBlank()
    ensures QtyFromInput("") == 1
    ensures QtyFromInput("  ") == 1
  {
    assert Text.AllSpace("  ");
  }

  /** A zero entry gives 1. */
  lemma QtyOfZero()
    ensures QtyFromInput("0") == 1
  {
    QtyFromShown(0);
    assert ShowInt(0) == "0";
  }

  /** An entry that does not start with a sign or a digit is NaN and gives 1. */
  lemma QtyOfText(raw: string)
    requires var t := Text.Trim(raw); t != [] && t[0] != '-' && t[0] != '+' && !IsDigit(t[0])
    ensures QtyFromInput(raw) == 1
  {
  }

  /** A negative entry is truthy and is kept as it is. */
  lemma QtyOfNegative()
    ensures QtyFromInput("-1") == -1
  {
    QtyFromShown(-1);
    assert ShowInt(-1) == "-1";
  }

  /** The quantity edit: the line with `id` gets quantity `q`. */
  function SetQty(cart: Cart, id: string, q: int): (r: Cart)
    ensures |r| == |cart|
  {
    match Find(cart, id)
    case Some(k) => cart[k := cart[k].(qty := q)]
    case None => cart
  }

  /** A quantity edit changes only the quantity of the first line with the id; every other line, and so uniqueness, is kept. */
  lemma SetQtyChangesOneLine(cart: Cart, id: string, q: int)
    ensures var r := SetQty(cart, id, q);
      && (forall j :: 0 <= j < |r| ==> r[j].id == cart[j].id && r[j].name == cart[j].name && r[j].price == cart[j].price)
      && (forall j :: 0 <= j < |r| && cart[j].id != id ==> r[j] == cart[j])
      && (HasId(cart, id) ==> r[Find(cart, id).value].qty == q)
      && (HasId(cart, id) ==> forall j :: 0 <= j < |r| && j != Find(cart, id).value ==> r[j] == cart[j])
      && (!HasId(cart, id) ==> r == cart)
      && (IdsUnique(cart) ==> IdsUnique(r))
  {
  }

  /** The header badge: the sum of `qty || 0` over the lines, folded from the left. */
  function Count(cart: Cart): int {
    if cart == [] then 0 else Count(cart[..|cart| - 1]) + cart[|cart| - 1].qty
  }

  lemma {:induction false} CountAppend(a: Cart, b: Cart)
    ensures Count(a + b) == Count(a) + Count(b)
    decreases |b|
  {
    if b == [] {
      assert a + b == a;
    } else {
      assert (a + b)[..|a + b| - 1] == a + b[..|b| - 1];
      CountAppend(a, b[..|b| - 1]);
    }
  }

  /** Changing one line's quantity changes the count by the difference. */
  lemma CountUpdate(cart: Cart, k: nat, q: int)
    requires k < |cart|
    ensures Count(cart[k := cart[k].(qty := q)]) == Count(cart) - cart[k].qty + q
  {
    var r := cart[k := cart[k].(qty := q)];
    assert cart == cart[..k] + [cart[k]] + cart[k + 1..];
    assert r == cart[..k] + [r[k]] + cart[k + 1..];
    CountAppend(cart[..k] + [cart[k]], cart[k + 1..]);
    CountAppend(cart[..k], [cart[k]]);
    CountAppend(cart[..k] + [r[k]], cart[k + 1..]);
    CountAppend(cart[..k], [r[k]]);
  }

  /** A quantity edit changes the count by the difference between the new and the old quantity. */
  lemma CountSetQty(cart: Cart, id: string, q: int)
    ensures Count(SetQty(cart, id, q)) ==
      Count(cart) + (if HasId(cart, id) then q - cart[Find(cart, id).value].qty else 0)
  {
    if HasId(cart, id) {
      CountUpdate(cart, Find(cart, id).value, q);
    }
  }

  /**
    Adding raises the count by one, or by two when the repeated line had a
    falsy quantity (it goes from "missing" straight to 2).
  */
  lemma CountAdd(cart: Cart, p: Product)
    requires p.id != ""
    ensures Count(AddItem(cart, Some(p))) ==
      Count(cart) + (if HasId(cart, p.id) && cart[Find(cart, p.id).value].qty == 0 then 2 else 1)
  {
    match Find(cart, p.id)
    case Some(k) =>
      CountUpdate(cart, k, OrOne(cart[k].qty) + 1);
    case None =>
      CountAppend(cart, [NewLine(p)]);
      assert [NewLine(p)][..0] == [];
  }

  /** The count splits around any one line. */
  lemma CountAround(cart: Cart, k: nat)
    requires k < |cart|
    ensures Count(cart) == Count(cart[..k]) + cart[k].qty + Count(cart[k + 1..])
  {
    assert cart == cart[..k] + [cart[k]] + cart[k + 1..];
    CountAppend(cart[..k] + [cart[k]], cart[k + 1..]);
    CountAppend(cart[..k], [cart[k]]);
    assert [cart[k]][..0] == [];
  }

  /** In a cart with unique ids, line `k`'s id occurs nowhere before or after it. */
  lemma UniqueAround(cart: Cart, k: nat)
    requires IdsUnique(cart) && k < |cart|
    ensures !HasId(cart[..k], cart[k].id) && !HasId(cart[k + 1..], cart[k].id)
  {
    var pre, post := cart[..k], cart[k + 1..];
    forall j | 0 <= j < |pre|
      ensures pre[j].id != cart[k].id
    {
      assert pre[j] == cart[j];
    }
    forall j | 0 <= j < |post|
      ensures post[j].id != cart[k].id
    {
      assert post[j] == cart[k + 1 + j];
    }
  }

  /** Removing an id held only by line `k` drops line `k` and nothing else. */
  lemma WithoutAt(cart: Cart, id: string, k: nat)
    requires k < |cart| && cart[k].id == id
    requires !HasId(cart[..k], id) && !HasId(cart[k + 1..], id)
    ensures Without(cart, id) == cart[..k] + cart[k + 1..]
  {
    var pre, post := cart[..k], cart[k + 1..];
    var line := [cart[k]];
    assert Without(line, id) == [] by {
      assert line[1..] == [];
    }
    WithoutAbsent(pre, id);
    WithoutAbsent(post, id);
    WithoutAppend(pre, line, id);
    WithoutAppend(pre + line, post, id);
    assert cart == pre + line + post;
  }

  /** Removing an id whose line is unique lowers the count by that line's quantity. */
  lemma CountRemove(cart: Cart, id: string)
    requires IdsUnique(cart) && HasId(cart, id)
    ensures Count(Without(cart, id)) == Count(cart) - cart[Find(cart, id).value].qty
  {
    var k := Find(cart, id).value;
    UniqueAround(cart, k);
    WithoutAt(cart, id, k);
    CountAround(cart, k);
    CountAppend(cart[..k], cart[k + 1..]);
  }
}

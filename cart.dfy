/** The cart page: a cart list and a wishlist, moved between by button clicks and
    drag-and-drop, with totals recomputed from the cart on every render. */
module Cart {
  import opened Options
  import opened Numbers

  /** Prices are whole rupees. */
  datatype CartItem = CartItem(
    id: int, name: string, description: string, price: int,
    oldPrice: Option<int>, quantity: int, image: string, savings: Option<int>)

  datatype WishlistItem = WishlistItem(
    id: int, name: string, price: int, image: string, description: Option<string>)

  const Delivery: int := 500

  function CartId(c: CartItem): int { c.id }

  function WishlistId(w: WishlistItem): int { w.id }

  // ---------------------------------------------------------------- totals

  /** `Σ price * quantity`, folded from the left as `reduce` does. */
  function Subtotal(items: seq<CartItem>): int {
    if items == [] then 0
    else Subtotal(items[..|items| - 1]) + items[|items| - 1].price * items[|items| - 1].quantity
  }

  /** `Σ (savings || 0) * quantity`: an item without savings contributes nothing. */
  function TotalSavings(items: seq<CartItem>): int {
    if items == [] then 0
    else
      var last := items[|items| - 1];
      TotalSavings(items[..|items| - 1]) + (if last.savings.Some? then last.savings.value else 0) * last.quantity
  }

  /** What the order summary shows as the total: the subtotal plus the flat delivery charge. */
  function Total(items: seq<CartItem>): (r: int)
    ensures r - Subtotal(items) == Delivery
  {
    Subtotal(items) + Delivery
  }

  /** The subtotal of two lists one after the other is the sum of their subtotals. */
  lemma {:induction false} SubtotalAppend(a: seq<CartItem>, b: seq<CartItem>)
    ensures Subtotal(a + b) == Subtotal(a) + Subtotal(b)
    decreases |b|
  {
    if b == [] {
      assert a + b == a;
    } else {
      assert (a + b)[..|a + b| - 1] == a + b[..|b| - 1];
      SubtotalAppend(a, b[..|b| - 1]);
    }
  }

  lemma {:induction false} TotalSavingsAppend(a: seq<CartItem>, b: seq<CartItem>)
    ensures TotalSavings(a + b) == TotalSavings(a) + TotalSavings(b)
    decreases |b|
  {
    if b == [] {
      assert a + b == a;
    } else {
      assert (a + b)[..|a + b| - 1] == a + b[..|b| - 1];
      TotalSavingsAppend(a, b[..|b| - 1]);
    }
  }

  predicate NonNegativePrices(items: seq<CartItem>) {
    forall i :: 0 <= i < |items| ==> items[i].price >= 0
  }

  predicate PositiveQuantities(items: seq<CartItem>) {
    forall i :: 0 <= i < |items| ==> items[i].quantity >= 1
  }

  /** With no negative price and no quantity below 1 the subtotal is never negative. */
  lemma {:induction false} SubtotalNonNegative(items: seq<CartItem>)
    requires NonNegativePrices(items) && PositiveQuantities(items)
    ensures Subtotal(items) >= 0
    ensures Total(items) >= Delivery
    decreases |items|
  {
    if items != [] {
      SubtotalNonNegative(items[..|items| - 1]);
    }
  }

  // ---------------------------------------------------------------- item transforms

  /** `items.filter(item => key(item) !== id)`. */
  function Without<T>(s: seq<T>, key: T -> int, id: int): (r: seq<T>)
    ensures |r| <= |s|
    ensures forall i :: 0 <= i < |r| ==> key(r[i]) != id
  {
    if s == [] then []
    else if key(s[0]) != id then [s[0]] + Without(s[1..], key, id)
    else Without(s[1..], key, id)
  }

  /** Filtering adds nothing and keeps every entry with another id. */
  lemma {:induction false} WithoutKeeps<T>(s: seq<T>, key: T -> int, id: int)
    ensures forall i :: 0 <= i < |Without(s, key, id)| ==> Without(s, key, id)[i] in s
    ensures forall i :: 0 <= i < |s| && key(s[i]) != id ==> s[i] in Without(s, key, id)
    decreases |s|
  {
    if s != [] {
      WithoutKeeps(s[1..], key, id);
      assert s == [s[0]] + s[1..];
      forall i | 1 <= i < |s| ensures s[i] == s[1..][i - 1] { }
    }
  }

  /** Filtering works piece by piece, so the kept entries stay in their original order. */
  lemma {:induction false} WithoutAppend<T>(a: seq<T>, b: seq<T>, key: T -> int, id: int)
    ensures Without(a + b, key, id) == Without(a, key, id) + Without(b, key, id)
    decreases |a|
  {
    if a == [] {
      assert a + b == b;
    } else {
      assert (a + b)[1..] == a[1..] + b;
      WithoutAppend(a[1..], b, key, id);
    }
  }

  /** A list with no entry carrying `id` is left exactly as it is. */
  lemma {:induction false} WithoutNone<T>(s: seq<T>, key: T -> int, id: int)
    requires forall i :: 0 <= i < |s| ==> key(s[i]) != id
    ensures Without(s, key, id) == s
    decreases |s|
  {
    if s != [] {
      WithoutNone(s[1..], key, id);
      assert [s[0]] + s[1..] == s;
    }
  }

  /** Removing by id twice is removing it once. */
  lemma WithoutIdempotent<T>(s: seq<T>, key: T -> int, id: int)
    ensures Without(Without(s, key, id), key, id) == Without(s, key, id)
  {
    WithoutNone(Without(s, key, id), key, id);
  }

  /** Removing entries never raises the subtotal. */
  lemma {:induction false} WithoutLowersSubtotal(items: seq<CartItem>, id: int)
    requires NonNegativePrices(items) && PositiveQuantities(items)
    ensures Subtotal(Without(items, CartId, id)) <= Subtotal(items)
    decreases |items|
  {
    if items != [] {
      var rest := items[1..];
      WithoutLowersSubtotal(rest, id);
      SubtotalAppend([items[0]], rest);
      assert items == [items[0]] + rest;
      SubtotalNonNegative(rest);
      if items[0].id != id {
        SubtotalAppend([items[0]], Without(rest, CartId, id));
      }
    }
  }

  /** `updateQuantity`'s map: every item with that id gets `max(1, quantity + delta)`, the
      others are kept, and so is the length. */
  function UpdatedQuantities(items: seq<CartItem>, id: int, delta: int): (r: seq<CartItem>)
    ensures |r| == |items|
    ensures forall i :: 0 <= i < |r| && items[i].id != id ==> r[i] == items[i]
    ensures forall i :: 0 <= i < |r| && items[i].id == id ==>
      r[i] == items[i].(quantity := Max(1, items[i].quantity + delta))
  {
    seq(|items|, i requires 0 <= i < |items| =>
      if items[i].id == id then items[i].(quantity := Max(1, items[i].quantity + delta)) else items[i])
  }

  /** Every quantity the buttons touch ends at least 1, so a cart of positive quantities
      stays one. */
  lemma UpdateKeepsQuantitiesPositive(items: seq<CartItem>, id: int, delta: int)
    ensures forall i :: 0 <= i < |items| && items[i].id == id ==> UpdatedQuantities(items, id, delta)[i].quantity >= 1
    ensures PositiveQuantities(items) ==> PositiveQuantities(UpdatedQuantities(items, id, delta))
  {
  }

  /** The minus button on an item of quantity 1 leaves it at 1. */
  lemma DecrementStopsAtOne(items: seq<CartItem>, i: nat)
    requires i < |items| && items[i].quantity == 1
    ensures UpdatedQuantities(items, items[i].id, -1)[i] == items[i]
  {
    assert items[i].(quantity := 1) == items[i];
  }

  predicate ContainsName(items: seq<CartItem>, name: string) {
    exists i :: 0 <= i < |items| && items[i].name == name
  }

  /** The merge map: every item of that name gets one more unit, the others are kept. */
  function MergedByName(items: seq<CartItem>, name: string): (r: seq<CartItem>)
    ensures |r| == |items|
    ensures forall i :: 0 <= i < |r| && items[i].name != name ==> r[i] == items[i]
    ensures forall i :: 0 <= i < |r| && items[i].name == name ==>
      r[i] == items[i].(quantity := items[i].quantity + 1)
  {
    seq(|items|, i requires 0 <= i < |items| =>
      if items[i].name == name then items[i].(quantity := items[i].quantity + 1) else items[i])
  }

  /** The cart entry a wishlist item becomes when nothing of its name is in the cart: one
      unit under a fresh id, no old price or savings, and an empty description when the
      wishlist item has none. */
  function NewCartItem(w: WishlistItem, freshId: int): (c: CartItem)
    ensures c.id == freshId && c.quantity == 1 && c.oldPrice.None? && c.savings.None?
    ensures c.name == w.name && c.price == w.price && c.image == w.image
    ensures c.description == if w.description.Some? then w.description.value else ""
  {
    CartItem(freshId, w.name, if w.description.Some? then w.description.value else "",
             w.price, None, 1, w.image, None)
  }

  /** The cart after moving a wishlist item into it (button or drop). */
  function CartAfterMove(items: seq<CartItem>, w: WishlistItem, freshId: int): (r: seq<CartItem>)
    ensures ContainsName(items, w.name) ==> r == MergedByName(items, w.name)
    ensures !ContainsName(items, w.name) ==> r == items + [NewCartItem(w, freshId)]
    ensures PositiveQuantities(items) ==> PositiveQuantities(r)
  {
    if ContainsName(items, w.name) then MergedByName(items, w.name)
    else items + [NewCartItem(w, freshId)]
  }

  /** When the name is new the subtotal grows by exactly the item's price. */
  lemma MoveNewItemSubtotal(items: seq<CartItem>, w: WishlistItem, freshId: int)
    requires !ContainsName(items, w.name)
    ensures Subtotal(CartAfterMove(items, w, freshId)) == Subtotal(items) + w.price
    ensures TotalSavings(CartAfterMove(items, w, freshId)) == TotalSavings(items)
  {
    var r := items + [NewCartItem(w, freshId)];
    assert r[..|r| - 1] == items;
  }

  /** When the name is already there the cart keeps its length and only same-name quantities
      change, each by one. */
  lemma MoveExistingItem(items: seq<CartItem>, w: WishlistItem, freshId: int)
    requires ContainsName(items, w.name)
    ensures |CartAfterMove(items, w, freshId)| == |items|
    ensures forall i :: 0 <= i < |items| ==>
      CartAfterMove(items, w, freshId)[i].quantity ==
        items[i].quantity + (if items[i].name == w.name then 1 else 0)
  {
  }

  /** The wishlist entry a cart item becomes on "save for later". */
  function SavedItem(c: CartItem, freshId: int): (w: WishlistItem)
    ensures w.id == freshId && w.name == c.name && w.price == c.price
    ensures w.image == c.image && w.description == Some(c.description)
  {
    WishlistItem(freshId, c.name, c.price, c.image, Some(c.description))
  }

  // ---------------------------------------------------------------- sample data

  const Laptop: CartItem := CartItem(1, "AURA PRO LAPTOP", "Intel i9 | 32GB RAM | RTX 4090", 159900,
                                     Some(189900), 1, "/laptop.webp", Some(30000))
  const Phone: CartItem := CartItem(2, "QUANTUM SMARTPHONE", "256GB | Cosmic Purple", 99900,
                                    None, 1, "/iphone.webp", None)
  const Headphones: CartItem := CartItem(3, "SONIC HEADPHONES", "Wireless | ANC | Black", 55800,
                                         Some(69800), 2, "/headphone.webp", Some(14000))

  /** The starting cart repeats its three products, so ids are not unique in it. */
  const InitialCart: seq<CartItem> := [Laptop, Phone, Headphones, Laptop, Phone, Headphones, Laptop]

  function Gpu(id: int): WishlistItem {
    WishlistItem(id, "HYPER GPU RTX 5000", 149900, "/graphics_card.webp", None)
  }

  function Keyboard(id: int): WishlistItem {
    WishlistItem(id, "ELITE MECHANICAL KEYBOARD", 15900, "/mac.webp", None)
  }

  function Mouse(id: int): WishlistItem {
    WishlistItem(id, "QUANTUM MOUSE PRO", 7900, "/Speakers.webp", None)
  }

  /** Twelve wishlist entries with ids 1..12, the three products in turn. */
  const InitialWishlist: seq<WishlistItem> :=
    [Gpu(1), Keyboard(2), Mouse(3), Gpu(4), Keyboard(5), Mouse(6),
     Gpu(7), Keyboard(8), Mouse(9), Gpu(10), Keyboard(11), Mouse(12)]

  /** The starting totals: 902700 subtotal, 903200 total, 146000 saved. */
  lemma InitialTotals()
    ensures Subtotal(InitialCart) == 902700
    ensures Total(InitialCart) == 903200
    ensures TotalSavings(InitialCart) == 146000
  {
    var three := [Laptop, Phone, Headphones];
    assert InitialCart == three + three + [Laptop];
    SubtotalAppend([Laptop, Phone], [Headphones]);
    SubtotalAppend([Laptop], [Phone]);
    TotalSavingsAppend([Laptop, Phone], [Headphones]);
    TotalSavingsAppend([Laptop], [Phone]);
    SingleItemTotals(Laptop);
    SingleItemTotals(Phone);
    SingleItemTotals(Headphones);
    assert [Laptop, Phone] + [Headphones] == three && [Laptop] + [Phone] == [Laptop, Phone];
    SubtotalAppend(three, three);
    SubtotalAppend(three + three, [Laptop]);
    TotalSavingsAppend(three, three);
    TotalSavingsAppend(three + three, [Laptop]);
  }

  lemma SingleItemTotals(c: CartItem)
    ensures Subtotal([c]) == c.price * c.quantity
    ensures TotalSavings([c]) == (if c.savings.Some? then c.savings.value else 0) * c.quantity
  {
    assert [c][..0] == [];
  }

  /** Saving the laptop for later takes all three of its cart entries away. */
  lemma SaveLaptopRemovesAll()
    ensures Without(InitialCart, CartId, Laptop.id) == [Phone, Headphones, Phone, Headphones]
  {
    RemoveFirstOfThree(Laptop, Phone, Headphones, CartId, 1);
  }

  /** In `a b c a b c a`, removing the key of `a` alone leaves `b c b c`. */
  lemma RemoveFirstOfThree<T>(a: T, b: T, c: T, key: T -> int, id: int)
    requires key(a) == id && key(b) != id && key(c) != id
    ensures Without([a, b, c, a, b, c, a], key, id) == [b, c, b, c]
  {
    var abc := [a, b, c];
    assert abc[1..] == [b, c] && [b, c][1..] == [c] && [c][1..] == [];
    assert Without([c], key, id) == [c];
    assert Without([b, c], key, id) == [b, c];
    assert Without(abc, key, id) == [b, c];
    assert [a][1..] == [];
    assert Without([a], key, id) == [];
    assert [a, b, c, a, b, c, a] == abc + (abc + [a]);
    WithoutAppend(abc, [a], key, id);
    WithoutAppend(abc, abc + [a], key, id);
  }

  // ---------------------------------------------------------------- the page state

  class CartPage {
    var cartItems: seq<CartItem>
    var wishlistItems: seq<WishlistItem>
    /** The cart drop zone is highlighted while something is dragged over it. */
    var isDragOver: bool
    /** The wishlist entry being dragged, shown dimmed. */
    var draggedItem: Option<WishlistItem>

    /** Every quantity the page can reach is at least 1. */
    predicate Valid()
      reads this
    {
      PositiveQuantities(cartItems)
    }

    constructor()
      ensures cartItems == InitialCart && wishlistItems == InitialWishlist
      ensures !isDragOver && draggedItem.None?
      ensures Valid()
    {
      cartItems := InitialCart;
      wishlistItems := InitialWishlist;
      isDragOver := false;
      draggedItem := None;
    }

    /** The empty-cart placeholder shows only when the cart is empty and nothing hovers;
        the summary beside it then still charges the delivery fee and shows no savings. */
    function ShowsEmptyCart(): (r: bool)
      reads this
      ensures r <==> |cartItems| == 0 && !isDragOver
      ensures r ==> Subtotal(cartItems) == 0 && TotalSavings(cartItems) == 0 && Total(cartItems) == 500
    {
      |cartItems| == 0 && !isDragOver
    }

    /** "Move to cart": merge by name or append a fresh entry, then drop every wishlist entry
        with the item's id. */
    method MoveToCart(w: WishlistItem, freshId: int)
      requires Valid()
      modifies this
      ensures cartItems == CartAfterMove(old(cartItems), w, freshId)
      ensures wishlistItems == Without(old(wishlistItems), WishlistId, w.id)
      ensures isDragOver == old(isDragOver) && draggedItem == old(draggedItem)
      ensures Valid()
    {
      cartItems := CartAfterMove(cartItems, w, freshId);
      wishlistItems := Without(wishlistItems, WishlistId, w.id);
    }

    method DragStart(w: WishlistItem)
      modifies this
      ensures draggedItem == Some(w)
      ensures cartItems == old(cartItems) && wishlistItems == old(wishlistItems) && isDragOver == old(isDragOver)
    {
      draggedItem := Some(w);
    }

    method DragEnd()
      modifies this
      ensures draggedItem.None? && !isDragOver
      ensures cartItems == old(cartItems) && wishlistItems == old(wishlistItems)
    {
      draggedItem := None;
      isDragOver := false;
    }

    method DragOver()
      modifies this
      ensures isDragOver
      ensures cartItems == old(cartItems) && wishlistItems == old(wishlistItems) && draggedItem == old(draggedItem)
    {
      isDragOver := true;
    }

    method DragLeave()
      modifies this
      ensures !isDragOver
      ensures cartItems == old(cartItems) && wishlistItems == old(wishlistItems) && draggedItem == old(draggedItem)
    {
      isDragOver := false;
    }

    /** A drop on the cart: the highlight goes off; the dropped payload, once decoded, is moved
        as by the button, and a payload that does not decode changes nothing else. */
    method HandleDrop(payload: Option<WishlistItem>, freshId: int)
      requires Valid()
      modifies this
      ensures !isDragOver && draggedItem == old(draggedItem)
      ensures payload.None? ==> cartItems == old(cartItems) && wishlistItems == old(wishlistItems)
      ensures payload.Some? ==> cartItems == CartAfterMove(old(cartItems), payload.value, freshId)
      ensures payload.Some? ==> wishlistItems == Without(old(wishlistItems), WishlistId, payload.value.id)
      ensures Valid()
    {
      isDragOver := false;
      if payload.Some? {
        MoveToCart(payload.value, freshId);
      }
    }

    /** The plus and minus buttons: `max(1, quantity + delta)` on every item with that id. */
    method UpdateQuantity(itemId: int, delta: int)
      requires Valid()
      modifies this
      ensures cartItems == UpdatedQuantities(old(cartItems), itemId, delta)
      ensures wishlistItems == old(wishlistItems) && isDragOver == old(isDragOver) && draggedItem == old(draggedItem)
      ensures Valid()
    {
      UpdateKeepsQuantitiesPositive(cartItems, itemId, delta);
      cartItems := UpdatedQuantities(cartItems, itemId, delta);
    }

    /** The bin button: every cart entry with that id goes. */
    method RemoveFromCart(itemId: int)
      requires Valid()
      modifies this
      ensures cartItems == Without(old(cartItems), CartId, itemId)
      ensures wishlistItems == old(wishlistItems) && isDragOver == old(isDragOver) && draggedItem == old(draggedItem)
      ensures Valid()
    {
      WithoutKeeps(cartItems, CartId, itemId);
      cartItems := Without(cartItems, CartId, itemId);
    }

    /** "Save for later": one wishlist entry is appended for the item, then every cart entry
        sharing its id is removed. */
    method SaveForLater(item: CartItem, freshId: int)
      requires Valid()
      modifies this
      ensures wishlistItems == old(wishlistItems) + [SavedItem(item, freshId)]
      ensures cartItems == Without(old(cartItems), CartId, item.id)
      ensures isDragOver == old(isDragOver) && draggedItem == old(draggedItem)
      ensures Valid()
    {
      wishlistItems := wishlistItems + [SavedItem(item, freshId)];
      RemoveFromCart(item.id);
    }
  }
}

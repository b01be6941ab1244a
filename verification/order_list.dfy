/** The cart panel: the ordered dishes with a quantity counter each, and
    buttons that cancel or place the order. */
module OrderList {
  import opened Wrappers
  import opened MenuTypes
  import MenuItemView

  const EmptyCartMessage: string := "カートは空です"

  /** One row of the list: the dish's translated name, price and quantity. */
  datatype Row = Row(name: string, price: string, quantity: int)

  /** What the open panel shows: the empty-cart message or the rows, and
      whether the place-order button is enabled. */
  datatype Panel = Panel(emptyMessage: Option<string>, rows: seq<Row>, placeEnabled: bool)

  /** The panel for a cart; `None` when it is closed and renders nothing. */
  function Render(isOpen: bool, cart: seq<MenuItemData>): (r: Option<Panel>)
    ensures r.None? <==> !isOpen
    ensures r.Some? ==> (r.value.emptyMessage == Some(EmptyCartMessage) <==> |cart| == 0)
    ensures r.Some? ==> (r.value.placeEnabled <==> |cart| > 0)
    ensures r.Some? ==> |r.value.rows| == |cart|
    ensures r.Some? ==> forall i :: 0 <= i < |cart| ==>
              r.value.rows[i] == Row(cart[i].translatedMenuName, cart[i].price, cart[i].quantity)
  {
    if !isOpen then None
    else
      var rows := seq(|cart|, i requires 0 <= i < |cart| =>
                        Row(cart[i].translatedMenuName, cart[i].price, cart[i].quantity));
      Some(Panel(if |cart| == 0 then Some(EmptyCartMessage) else None, rows, |cart| > 0))
  }

  /** The "-" button of a row: one less, with no lower bound. */
  function Minus(item: MenuItemData): (c: MenuItemView.QuantityChange)
    ensures c.id == item.id && c.quantity + 1 == item.quantity
  {
    MenuItemView.QuantityChange(item.id, item.quantity - 1)
  }

  /** The "+" button of a row: one more, as on the dish card. */
  function Plus(item: MenuItemData): (c: MenuItemView.QuantityChange)
    ensures c == MenuItemView.Increment(item)
  {
    MenuItemView.QuantityChange(item.id, item.quantity + 1)
  }

  /** The two counters disagree only at zero and below: there the cart's "-"
      still reports a quantity, one below the current, where the dish card
      reports nothing. */
  lemma MinusAgainstCard(item: MenuItemData)
    ensures item.quantity > 0 ==> MenuItemView.Decrement(item) == Some(Minus(item))
    ensures item.quantity <= 0 ==> MenuItemView.Decrement(item).None? && Minus(item).quantity < 0
  {
  }

  /** `onPlaceOrder(cartItems)` behind a button disabled on an empty cart:
      the cart handed over unchanged, or nothing. */
  function PlaceOrder(cart: seq<MenuItemData>): (r: Option<seq<MenuItemData>>)
    ensures r.None? <==> |cart| == 0
    ensures r.Some? ==> r.value == cart
  {
    if |cart| == 0 then None else Some(cart)
  }

  /** An order can be placed exactly when the open panel enables the button. */
  lemma PlaceOrderFollowsButton(cart: seq<MenuItemData>)
    ensures PlaceOrder(cart).Some? <==> Render(true, cart).value.placeEnabled
  {
  }
}

/** One dish card: a quantity counter that reports changes to the parent, the
    dish's allergens highlighted against the user's allergies, and the
    spiciness as a row of flames. */
module MenuItemView {
  import opened Wrappers
  import opened MenuTypes

  /** A call of the parent's `onQuantityChange(id, quantity)`. */
  datatype QuantityChange = QuantityChange(id: string, quantity: int)

  /** `incrementQuantity` */
  function Increment(item: MenuItemData): (c: QuantityChange)
    ensures c.id == item.id && c.quantity == item.quantity + 1
  {
    QuantityChange(item.id, item.quantity + 1)
  }

  /** `decrementQuantity`: nothing is reported at zero or below. */
  function Decrement(item: MenuItemData): (c: Option<QuantityChange>)
    ensures c.None? <==> item.quantity <= 0
    ensures c.Some? ==> c.value.id == item.id && c.value.quantity == item.quantity - 1 && c.value.quantity >= 0
  {
    if item.quantity > 0 then Some(QuantityChange(item.id, item.quantity - 1)) else None
  }

  /** The two buttons of the counter. */
  datatype Button = Plus | Minus

  /** The quantity after one press, for a parent that stores the quantity it
      is told. */
  function Press(item: MenuItemData, b: Button): (r: MenuItemData)
    ensures r == item.(quantity := r.quantity)
    ensures b == Plus ==> r.quantity == Increment(item).quantity
    ensures b == Minus ==> r.quantity == (if Decrement(item).Some? then Decrement(item).value.quantity else item.quantity)
  {
    match b
    case Plus => item.(quantity := Increment(item).quantity)
    case Minus =>
      match Decrement(item)
      case None => item
      case Some(c) => item.(quantity := c.quantity)
  }

  /** A sequence of presses, in order. */
  function Run(item: MenuItemData, presses: seq<Button>): MenuItemData
    decreases |presses|
  {
    if |presses| == 0 then item else Run(Press(item, presses[0]), presses[1..])
  }

  /** Number of presses of one button. */
  function Count(presses: seq<Button>, b: Button): (n: nat)
    ensures n <= |presses|
  {
    if |presses| == 0 then 0 else (if presses[0] == b then 1 else 0) + Count(presses[1..], b)
  }

  /** Starting from a quantity that is not negative, no sequence of presses
      makes it negative; it never exceeds the start plus the number of "+"
      presses, and only the quantity changes. */
  lemma {:induction false} RunStaysNonNegative(item: MenuItemData, presses: seq<Button>)
    requires item.quantity >= 0
    ensures Run(item, presses).quantity >= 0
    ensures Run(item, presses).quantity <= item.quantity + Count(presses, Plus)
    ensures Run(item, presses) == item.(quantity := Run(item, presses).quantity)
    decreases |presses|
  {
    if |presses| > 0 {
      RunStaysNonNegative(Press(item, presses[0]), presses[1..]);
    }
  }

  /** Away from zero, "-" undoes "+" and "+" undoes "-". */
  lemma PressesCancel(item: MenuItemData)
    requires item.quantity >= 0
    ensures Run(item, [Plus, Minus]) == item
    ensures item.quantity > 0 ==> Run(item, [Minus, Plus]) == item
  {
    assert [Plus, Minus][1..] == [Minus];
    assert [Minus, Plus][1..] == [Plus];
  }

  /** An allergen badge of the card: its name and whether it is highlighted. */
  datatype Badge = Badge(name: string, highlighted: bool)

  /** One badge per allergen of the dish, in order, highlighted exactly when
      its id is among the user's allergies. */
  function Badges(item: MenuItemData, userAllergies: seq<string>): (r: seq<Badge>)
    ensures |r| == |item.allergyInfo|
    ensures forall i :: 0 <= i < |r| ==>
              r[i].name == item.allergyInfo[i].name
              && (r[i].highlighted <==> item.allergyInfo[i].id in userAllergies)
  {
    seq(|item.allergyInfo|, i requires 0 <= i < |item.allergyInfo| =>
      Badge(item.allergyInfo[i].name, item.allergyInfo[i].id in userAllergies))
  }

  /** The allergy section is rendered exactly when the dish has allergens. */
  predicate ShowsAllergies(item: MenuItemData): (b: bool)
    ensures forall userAllergies :: b <==> |Badges(item, userAllergies)| > 0
  {
    |item.allergyInfo| > 0
  }

  /** Adding an allergy to the user's list never turns a highlight off. */
  lemma HighlightMonotone(item: MenuItemData, userAllergies: seq<string>, extra: string)
    ensures forall i :: 0 <= i < |item.allergyInfo| ==>
              Badges(item, userAllergies)[i].highlighted ==> Badges(item, userAllergies + [extra])[i].highlighted
    ensures forall i :: 0 <= i < |item.allergyInfo| ==>
              (Badges(item, userAllergies + [extra])[i].highlighted <==>
               Badges(item, userAllergies)[i].highlighted || item.allergyInfo[i].id == extra)
  {
  }

  /** The spiciness display: a number of flames, or the label "0". */
  datatype Spiciness = Flames(count: nat) | ZeroLabel

  function SpicyDisplay(item: MenuItemData): (r: Spiciness)
    ensures r.Flames? <==> item.spicyLevel > 0
    ensures r.Flames? ==> r.count == item.spicyLevel
  {
    if item.spicyLevel > 0 then Flames(item.spicyLevel) else ZeroLabel
  }

  /** The image is shown when the link is present and not empty. */
  predicate ShowsImage(item: MenuItemData) {
    item.imageURL.Some? && item.imageURL.value != ""
  }
}

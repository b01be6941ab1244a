/** The record a dish is held in on the client. */
module MenuTypes {
  import opened Wrappers

  /** One allergen a dish may contain. */
  datatype AllergyInfo = AllergyInfo(id: string, name: string)

  /** A dish: its names, description, price text, ordered quantity, optional
      image link, spiciness and allergens. */
  datatype MenuItemData = MenuItemData(
    id: string,
    originalMenuName: string,
    translatedMenuName: string,
    description: string,
    price: string,
    quantity: int,
    imageURL: Option<string>,
    spicyLevel: int,
    allergyInfo: seq<AllergyInfo>)
}

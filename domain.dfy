/** The fixed registry of the food-ordering problem: the four people, the two
    shops and their item catalogues with the integer code of every item.
    A shop catalogue is a dictionary from item name to code; looking up an
    item that is not in the shop raises, which is modelled by `None`. */
module Domain {

  datatype Option<T> = None | Some(value: T)

  datatype Person = Adam | Bobby | Cathy | Dean

  datatype Shop = FruitShop | DishShop

  datatype Item = Papaya | Quenepa | Rambutan | Salak | Pasta | Risotto

  /** The people in the order of the `default_person` dictionary. */
  const People: seq<Person> := [Adam, Bobby, Cathy, Dean]

  /** The shops in the order of the `shops` dictionary. */
  const Shops: seq<Shop> := [FruitShop, DishShop]

  /** Index of a person in `default_person`, i.e. the index of their fruit variable. */
  function Index(p: Person): (i: nat)
    ensures i < |People| && People[i] == p
  {
    match p
    case Adam => 0
    case Bobby => 1
    case Cathy => 2
    case Dean => 3
  }

  /** The catalogue of a shop in dictionary order; an item's code is its position. */
  function Catalog(s: Shop): seq<Item>
  {
    match s
    case FruitShop => [Papaya, Quenepa, Rambutan, Salak]
    case DishShop => [Pasta, Risotto]
  }

  /** `shops[s][it]`: the code of an item in a shop, or `None` when the lookup raises. */
  function Code(s: Shop, it: Item): (c: Option<nat>)
    ensures c.Some? <==> it in Catalog(s)
    ensures c.Some? ==> c.value < |Catalog(s)| && Catalog(s)[c.value] == it
  {
    match (s, it)
    case (FruitShop, Papaya) => Some(0)
    case (FruitShop, Quenepa) => Some(1)
    case (FruitShop, Rambutan) => Some(2)
    case (FruitShop, Salak) => Some(3)
    case (DishShop, Pasta) => Some(0)
    case (DishShop, Risotto) => Some(1)
    case _ => None
  }

  /** Every item of a list can be looked up in the shop. */
  predicate AllInCatalog(s: Shop, items: seq<Item>)
  {
    forall i :: 0 <= i < |items| ==> items[i] in Catalog(s)
  }

  /** The codes of a list of items, all of which are in the shop. */
  function Codes(s: Shop, items: seq<Item>): (cs: seq<int>)
    requires AllInCatalog(s, items)
    ensures |cs| == |items|
    ensures forall i :: 0 <= i < |items| ==> Code(s, items[i]) == Some(cs[i])
  {
    if items == [] then [] else [Code(s, items[0]).value] + Codes(s, items[1..])
  }

  /** The codes of a shop's whole catalogue, in dictionary order. */
  lemma CatalogCodes(s: Shop)
    ensures AllInCatalog(s, Catalog(s))
    ensures Codes(s, Catalog(s)) == seq(|Catalog(s)|, i => i)
  {
  }

  function PersonName(p: Person): string
  {
    match p
    case Adam => "Adam"
    case Bobby => "Bobby"
    case Cathy => "Cathy"
    case Dean => "Dean"
  }

  function ShopName(s: Shop): string
  {
    match s
    case FruitShop => "Fruit Shop"
    case DishShop => "Dish Shop"
  }

  function ItemName(it: Item): string
  {
    match it
    case Papaya => "Papaya"
    case Quenepa => "Quenepa"
    case Rambutan => "Rambutan"
    case Salak => "Salak"
    case Pasta => "Pasta"
    case Risotto => "Risotto"
  }

  /** `', '.join(items)` over the item names. */
  function JoinNames(items: seq<Item>): string
  {
    if items == [] then ""
    else if |items| == 1 then ItemName(items[0])
    else ItemName(items[0]) + ", " + JoinNames(items[1..])
  }
}

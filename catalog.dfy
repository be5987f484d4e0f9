/** The product records that flow from the listing endpoint through the
    widget to the cards, and the key (`id`) the widget compares them by. */
module Catalog {

  datatype Option<T> = None | Some(value: T)

  /** A product as the widget and the card read it. `category` and `brand`
      may be missing from a record; the title is read unguarded by the widget. */
  datatype Product = Product(id: int, title: string, category: Option<string>, brand: Option<string>)

  /** `items.some(x => x.id === key)` */
  predicate HasKey(items: seq<Product>, key: int) {
    exists i :: 0 <= i < |items| && items[i].id == key
  }

  /** No two entries share a key. */
  predicate UniqueKeys(items: seq<Product>) {
    forall i, j :: 0 <= i < j < |items| ==> items[i].id != items[j].id
  }
}

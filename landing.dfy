/** The page that owns the search: the query text, the page number, the
    accumulated product list fed to the widget, and the selection shown as
    cards. Fetches are not modelled; each page that arrives from the query
    layer is an input event, and so are the loading flag and the debounced
    query. */
module Landing {
  import opened Catalog
  import opened SearchInput
  import opened ProductItem

  datatype Event =
    | QueryTyped(text: string)
    | LoadMoreRequested(isLoading: bool)
    | PageArrived(products: seq<Product>)

  datatype PageState = PageState(query: string, page: int, productList: seq<Product>)

  const InitialState := PageState("", 1, [])

  /** One event: typing sets the query and goes back to page 1; `loadMore`
      moves to the next page unless a fetch is loading; a non-empty page is
      appended to the list. */
  function Apply(s: PageState, e: Event): (t: PageState)
    ensures s.page >= 1 ==> t.page >= 1
    ensures s.productList <= t.productList
    ensures e.QueryTyped? ==> t.query == e.text && t.page == 1 && t.productList == s.productList
    ensures e.LoadMoreRequested? ==> t.page == s.page + (if e.isLoading then 0 else 1)
    ensures !e.QueryTyped? ==> t.query == s.query
    ensures !e.PageArrived? ==> t.productList == s.productList
    ensures e.PageArrived? ==> t.page == s.page && t.productList == s.productList + e.products
  {
    match e
    case QueryTyped(text) => s.(query := text, page := 1)
    case LoadMoreRequested(isLoading) => if isLoading then s else s.(page := s.page + 1)
    case PageArrived(products) =>
      if |products| > 0 then s.(productList := s.productList + products) else s
  }

  function Run(s: PageState, events: seq<Event>): PageState
    decreases |events|
  {
    if events == [] then s else Run(Apply(s, events[0]), events[1..])
  }

  /** Everything that arrived, in arrival order. */
  function Arrived(events: seq<Event>): seq<Product>
    decreases |events|
  {
    if events == [] then []
    else (if events[0].PageArrived? then events[0].products else []) + Arrived(events[1..])
  }

  /** The number of `loadMore` calls made while nothing was loading. */
  function Loads(events: seq<Event>): nat
    decreases |events|
  {
    if events == [] then 0
    else (if events[0] == LoadMoreRequested(false) then 1 else 0) + Loads(events[1..])
  }

  predicate NoQueryChange(events: seq<Event>) {
    forall i :: 0 <= i < |events| ==> !events[i].QueryTyped?
  }

  lemma {:induction false} RunAppend(s: PageState, a: seq<Event>, b: seq<Event>)
    ensures Run(s, a + b) == Run(Run(s, a), b)
    decreases |a|
  {
    if a == [] {
      assert a + b == b;
    } else {
      assert (a + b)[0] == a[0] && (a + b)[1..] == a[1..] + b;
      RunAppend(Apply(s, a[0]), a[1..], b);
    }
  }

  /** The product list is the old list followed by every page that arrived,
      in order: it is never reset (a new query keeps it) and never
      de-duplicated. */
  lemma {:induction false} RunAccumulates(s: PageState, events: seq<Event>)
    ensures Run(s, events).productList == s.productList + Arrived(events)
    decreases |events|
  {
    if events != [] {
      RunAccumulates(Apply(s, events[0]), events[1..]);
      var e := events[0];
      if e.PageArrived? {
        assert s.productList + e.products + Arrived(events[1..]) ==
          s.productList + (e.products + Arrived(events[1..]));
      }
    }
  }

  /** The page number never drops below 1. */
  lemma {:induction false} RunKeepsPagePositive(s: PageState, events: seq<Event>)
    requires s.page >= 1
    ensures Run(s, events).page >= 1
    decreases |events|
  {
    if events != [] {
      RunKeepsPagePositive(Apply(s, events[0]), events[1..]);
    }
  }

  /** Without a query change, the page advances once per `loadMore` made
      while not loading. */
  lemma {:induction false} RunCountsLoads(s: PageState, events: seq<Event>)
    requires NoQueryChange(events)
    ensures Run(s, events).page == s.page + Loads(events)
    ensures Run(s, events).query == s.query
    decreases |events|
  {
    if events != [] {
      RunCountsLoads(Apply(s, events[0]), events[1..]);
    }
  }

  /** After the last query change the page is 1 plus the loads made since. */
  lemma PageAfterQueryChange(s: PageState, before: seq<Event>, text: string, after: seq<Event>)
    requires NoQueryChange(after)
    ensures Run(s, before + [QueryTyped(text)] + after).page == 1 + Loads(after)
    ensures Run(s, before + [QueryTyped(text)] + after).query == text
  {
    RunAppend(s, before + [QueryTyped(text)], after);
    RunAppend(s, before, [QueryTyped(text)]);
    RunCountsLoads(Run(s, before + [QueryTyped(text)]), after);
  }

  /** Two items on page 1, one more after `loadMore`, then the query "red":
      the list holds all three in arrival order, the page is back to 1, and
      the widget shows the two red items. */
  lemma RedItemsScenario()
    ensures
      var shoe := Product(1, "Red Shoe", None, None);
      var hat := Product(2, "Blue Hat", None, None);
      var redHat := Product(3, "Red Hat", None, None);
      var s := Run(InitialState, [PageArrived([shoe, hat]), LoadMoreRequested(false),
                                  PageArrived([redHat]), QueryTyped("red")]);
      s.productList == [shoe, hat, redHat] && s.page == 1 &&
      Filtered(s.productList, "red") == [shoe, redHat]
  {
    var shoe := Product(1, "Red Shoe", None, None);
    var hat := Product(2, "Blue Hat", None, None);
    var redHat := Product(3, "Red Hat", None, None);
    var events := [PageArrived([shoe, hat]), LoadMoreRequested(false),
                   PageArrived([redHat]), QueryTyped("red")];
    RunAccumulates(InitialState, events);
    assert Arrived(events[3..]) == [];
    assert Arrived(events[2..]) == [redHat];
    assert Arrived(events[1..]) == [redHat];
    assert Arrived(events) == [shoe, hat] + [redHat];
    PageAfterQueryChange(InitialState, events[..3], "red", []);
    assert events[..3] + [QueryTyped("red")] + [] == events;
    RedQueryExample(shoe, hat, redHat);
  }

  // ---------------------------------------------------------------------
  // The component

  class Landing {
    var query: string
    var page: int
    var productList: seq<Product>
    var selectedProduct: seq<Product>
    const widget: SearchWidget

    function State(): PageState
      reads this
    {
      PageState(query, page, productList)
    }

    /** The page number is at least 1, and the cards show exactly what the
        widget last reported, which is its current selection. */
    ghost predicate Valid()
      reads this, widget
    {
      page >= 1 && widget.Valid() && widget.allowMultiple && selectedProduct == widget.selectedItems
    }

    constructor ()
      ensures Valid() && fresh(widget)
      ensures State() == InitialState && selectedProduct == [] && widget.State() == InitialUi
    {
      query := "";
      page := 1;
      productList := [];
      selectedProduct := [];
      widget := new SearchWidget(true);
    }

    /** The card list, in selection order. */
    function Cards(): (cards: seq<Card>)
      reads this
      ensures |cards| == |selectedProduct|
      ensures forall i :: 0 <= i < |cards| ==> cards[i] == FormatCard(selectedProduct[i])
      ensures forall i :: 0 <= i < |cards| ==> cards[i].title <= selectedProduct[i].title
    {
      var selected := selectedProduct;
      seq(|selected|, i requires 0 <= i < |selected| => FormatCard(selected[i]))
    }

    /** The widget's `setQuery`: set the query and reset the page to 1. */
    method TypeQuery(text: string)
      requires Valid()
      modifies this
      ensures Valid() && State() == Apply(old(State()), QueryTyped(text))
      ensures selectedProduct == old(selectedProduct)
    {
      query := text;
      page := 1;
    }

    method LoadMore(isLoading: bool)
      requires Valid()
      modifies this
      ensures Valid() && State() == Apply(old(State()), LoadMoreRequested(isLoading))
      ensures selectedProduct == old(selectedProduct)
    {
      if !isLoading {
        page := page + 1;
      }
    }

    /** The effect on `products`: append a non-empty page. */
    method ReceivePage(products: seq<Product>)
      requires Valid()
      modifies this
      ensures Valid() && State() == Apply(old(State()), PageArrived(products))
      ensures selectedProduct == old(selectedProduct)
    {
      if |products| > 0 {
        productList := productList + products;
      }
    }

    /** The sentinel row's visibility changed; the widget calls `loadMore`
        when it has just come into view. */
    method SentinelVisibility(visible: bool, isLoading: bool)
      requires Valid()
      modifies this, widget
      ensures Valid()
      ensures widget.State() == old(widget.State()).(inView := visible)
      ensures State() == if LoadMoreFires(old(widget.State()), visible)
                         then Apply(old(State()), LoadMoreRequested(isLoading))
                         else old(State())
    {
      var fire := widget.ObserveSentinel(visible);
      if fire {
        if !isLoading {
          page := page + 1;
        }
      }
    }

    method Focus()
      requires Valid()
      modifies widget
      ensures Valid() && widget.State() == AfterFocus(old(widget.State()))
    {
      widget.Focus();
    }

    method MouseDown(inside: bool)
      requires Valid()
      modifies widget
      ensures Valid() && widget.State() == AfterMouseDown(old(widget.State()), inside)
    {
      widget.MouseDown(inside);
    }

    /** A key press in the input, over the list filtered by the debounced query;
        a selection made with Enter is reported to `setSelectedProduct`. */
    method KeyDown(key: Key, debounced: string)
      requires Valid()
      modifies this, widget
      ensures Valid() && State() == old(State())
      ensures widget.State() ==
        AfterKey(old(widget.State()), key, Filtered(productList, debounced), true)
    {
      var before := |widget.reports|;
      widget.KeyDown(key, productList, debounced);
      if |widget.reports| != before {
        selectedProduct := widget.reports[|widget.reports| - 1];
      }
    }

    method Hover(debounced: string, row: nat)
      requires Valid()
      requires row < |Filtered(productList, debounced)|
      requires !HasKey(selectedProduct, Filtered(productList, debounced)[row].id)
      modifies widget
      ensures Valid() && widget.State() == AfterHover(old(widget.State()), row)
    {
      widget.Hover(productList, debounced, row);
    }

    method ClickRow(debounced: string, row: nat)
      requires Valid()
      requires row < |Filtered(productList, debounced)|
      modifies this, widget
      ensures Valid() && State() == old(State())
      ensures widget.State() ==
        AfterClick(old(widget.State()), Filtered(productList, debounced), row, true)
    {
      var before := |widget.reports|;
      widget.ClickRow(productList, debounced, row);
      if |widget.reports| != before {
        selectedProduct := widget.reports[|widget.reports| - 1];
      }
    }

    /** The remove button on a chip. */
    method RemoveChip(item: Product)
      requires Valid()
      modifies this, widget
      ensures Valid() && State() == old(State())
      ensures widget.State() == AfterRemove(old(widget.State()), item)
      ensures !HasKey(selectedProduct, item.id)
    {
      widget.Remove(item);
      selectedProduct := widget.reports[|widget.reports| - 1];
    }
  }
}

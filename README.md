# Product search: autocomplete widget, page accumulation and product cards

A Dafny model of the client-side logic of a small product-search page:

- the autocomplete / multi-select widget (`src/components/SearchInput.jsx`):
  the list it shows for the debounced query, the chip labels of the
  selection, and the state its handlers keep — the open flag, the
  highlighted row (`activeIndex`), the selection list (unique by `id`) and
  the lists it reports to its owner through `onSelect`;
- the page that owns it (`src/Landing.jsx`): the query text, the page
  number and the append-only product list fed to the widget, plus the
  selection shown as cards;
- the card text (`src/components/ProductItem.jsx`): the title cut to 20
  characters and per-word capitalisation of category and brand.

## Layout

| file | module | contents |
|---|---|---|
| `text.dfy` | `Text` | ASCII `toLowerCase`/`toUpperCase`, `substring(0, n)`, `includes` |
| `seqs.dfy` | `Seqs` | `Array.prototype.filter` as `Keep`, and its order and multiplicity lemmas |
| `catalog.dfy` | `Catalog` | the `Product` record, `Option`, key lookup and key uniqueness |
| `search_input.dfy` | `SearchInput` | filtering, chip label, dropdown view, selection and cursor functions, the handler transitions on a `Ui` value, and the class `SearchWidget` |
| `product_item.dfy` | `ProductItem` | `split(" ")`, `join(" ")`, word capitalisation with a character-by-character reference, the card |
| `landing.dfy` | `Landing` | page events (`Apply`, `Run`) with their lemmas, and the class `Landing` that owns a `SearchWidget` |

Each React handler is stated twice, as is usual for state that changes in
place: a pure transition (`AfterSelect`, `AfterKey`, `Apply`, ...) carries
the properties, and a method of `SearchWidget` or `Landing` updates the
fields and is proved to perform that transition. `Landing`'s invariant ties
the two components together: `selectedProduct` always equals the widget's
current selection, because every change to the selection is reported and
the report replaces `selectedProduct` wholesale.

Three behaviours of the code are kept as written:

- Escape is handled inside `handleKeyDown` after its guard
  (`SearchInput.jsx:82`). Escape therefore closes the dropdown only while
  the filtered list is non-empty. With "No results" showing it does nothing.
- The highlighted index is not clamped to the current list. It starts at -1,
  it is not reset when the data or the query changes, and ArrowUp from a
  stale index past the end still steps down by one. Enter selects only when
  the index names an existing row.
- The product list is never reset when the query changes, and pages are
  never de-duplicated (`Landing.jsx:25-29`, `43-46`). `RunAccumulates` states
  this.

## Model

The functions that compute what a source expression computes — `SearchInput.Filtered`, `SearchInput.WithoutKey`, `ProductItem.Split`, `ProductItem.Join`, `ProductItem.Capitalize`, `Text.Lower`, `Text.Contains` and `Landing.Run` — carry no contract of their own; what the program promises about them is stated by the lemmas in the rows below (`FilteredSpec`, `RemoveSpec`, `JoinSplit`, `SplitJoin`, `CapitalizeSpec`, `ContainsIffOccurs`, `LowerOfUpper`, `RunAccumulates`, ...).

| member | source | states |
|---|---|---|
| `Seqs.Keep` | src/components/SearchInput.jsx:31-33 | the kept elements are elements of the input that pass the test, and every passing element is kept; never longer than the input |
| `Seqs.KeepIsSubsequence` | src/components/SearchInput.jsx:31-33 | filtering keeps the original relative order |
| `Seqs.KeepCount` | src/components/SearchInput.jsx:61-63 | a passing value is kept as many times as it occurs, a failing one never |
| `Seqs.KeepConcat` | src/components/SearchInput.jsx:61-63 | filtering a concatenation is concatenating the filtered parts |
| `Text.Prefix` | src/components/ProductItem.jsx:8 | `substring(0, n)` is a prefix of length min(n, length) |
| `Text.ContainsIffOccurs` | src/components/SearchInput.jsx:32 | the left-to-right `includes` scan holds exactly when the needle occurs at some position |
| `Text.LowerOfUpper` | src/components/SearchInput.jsx:32 | lower-casing keeps the length and forgets the case the string was written in: lower-casing an upper-cased or a lower-cased string equals lower-casing it once |
| `SearchInput.FilteredSpec` | src/components/SearchInput.jsx:29-34 | an empty debounced query shows `data` unchanged; otherwise an item is shown iff its lower-cased title contains the lower-cased query, and shown items keep their order and multiplicity |
| `SearchInput.FilteredIgnoresQueryCase` | src/components/SearchInput.jsx:32 | typing the query in upper case shows the same list |
| `SearchInput.RedQueryExample` | src/components/SearchInput.jsx:29-34 | of "Red Shoe", "Blue Hat", "Red Hat" the query "red" shows the first and the third |
| `SearchInput.SentinelRow` | src/components/SearchInput.jsx:152 | the infinite-scroll sentinel is the fourth row from the end, and there is none with fewer than four rows (a standalone view function: the sentinel's visibility reaches `ObserveSentinel` as an input) |
| `SearchInput.DropdownView` | src/components/SearchInput.jsx:133-166 | a standalone view function: closed shows nothing; an error shows only the error notice; otherwise the filtered rows, the spinner iff loading, and "No results" exactly when the list is empty and nothing is loading |
| `SearchInput.ChipLabel` | src/components/SearchInput.jsx:172-174 | a chip label is at most 10 characters; short titles are shown whole, longer ones as their first 5 characters followed by ".." |
| `SearchInput.SelectInto` | src/components/SearchInput.jsx:48-52 | a selected key leaves the list as it was; a new item is appended (multi-select) or replaces the list (single-select); the key is present afterwards and keys stay unique |
| `SearchInput.RemoveSpec` | src/components/SearchInput.jsx:59-66 | removal leaves no entry with the key, keeps all other entries in their relative order and multiplicity, keeps keys unique, and changes nothing when the key is absent |
| `SearchInput.RemoveUndoesSelect` | src/components/SearchInput.jsx:45-66 | removing a just-added key restores the previous selection (empty in single-select mode) |
| `SearchInput.CursorDown` | src/components/SearchInput.jsx:86-88 | ArrowDown moves by one exactly when the index is below the last row; it stays within -1 .. last row |
| `SearchInput.CursorUp` | src/components/SearchInput.jsx:90-91 | ArrowUp moves back by one exactly when the index is above 0, so 0 and -1 stay put |
| `SearchInput.DownPressesClamp` | src/components/SearchInput.jsx:86-89 | k ArrowDown presses reach min(index + k, last row): no wrap-around; a stale index at or past the last row stays put |
| `SearchInput.UpPressesClamp` | src/components/SearchInput.jsx:90-92 | k ArrowUp presses reach max(index - k, 0), and -1 stays -1 |
| `SearchInput.InitialUiValid` | src/components/SearchInput.jsx:24-27 | the widget starts closed, with nothing highlighted and an empty selection, satisfying its invariant |
| `SearchInput.AfterFocus` | src/components/SearchInput.jsx:37 | focus opens the dropdown and changes nothing else |
| `SearchInput.AfterMouseDown` | src/components/SearchInput.jsx:71-74 | a press outside closes the dropdown and changes nothing else; a press inside changes nothing |
| `SearchInput.AfterSelect` | src/components/SearchInput.jsx:45-56 | selecting a present key changes nothing and reports nothing; otherwise the selection becomes `SelectInto`'s list and that list is reported; the invariant (unique keys, cursor at least -1, owner told the current selection) is kept |
| `SearchInput.AfterRemove` | src/components/SearchInput.jsx:59-67 | the selection becomes `WithoutKey`'s list (so `RemoveSpec` applies) and is always reported, even when empty or unchanged; the key is gone and the invariant is kept |
| `SearchInput.AfterKey` | src/components/SearchInput.jsx:81-108 | with the dropdown closed or the list empty every key is a no-op; otherwise ArrowDown and ArrowUp move the cursor by `CursorDown`/`CursorUp` and change nothing else, Enter on an existing row is exactly `AfterSelect` of that row's item, and only Escape closes (Enter does not); only Enter on an existing row changes the selection; the cursor stays in range; the invariant is kept |
| `SearchInput.AfterHover` | src/components/SearchInput.jsx:153 | hovering a row highlights it and changes nothing else |
| `SearchInput.AfterClick` | src/components/SearchInput.jsx:141-148 | clicking a row is exactly selecting its item: the disabled-row guard agrees with the select handler's own check |
| `SearchInput.SearchWidget.constructor` | src/components/SearchInput.jsx:24-27 | the component starts in the initial state with the given `allowMultiple` |
| `SearchInput.SearchWidget.Focus` | src/components/SearchInput.jsx:37 | performs `AfterFocus` on the fields |
| `SearchInput.SearchWidget.MouseDown` | src/components/SearchInput.jsx:70-79 | performs `AfterMouseDown` on the fields |
| `SearchInput.SearchWidget.Select` | src/components/SearchInput.jsx:45-56 | performs `AfterSelect` on the fields, appending to the `onSelect` log only when the key is new |
| `SearchInput.SearchWidget.Remove` | src/components/SearchInput.jsx:59-67 | performs `AfterRemove` on the fields |
| `SearchInput.SearchWidget.KeyDown` | src/components/SearchInput.jsx:81-108 | performs `AfterKey` over the list filtered by the debounced query |
| `SearchInput.SearchWidget.Hover` | src/components/SearchInput.jsx:153 | performs `AfterHover`; only a row not yet selected can be hovered, since selected rows have `pointer-events: none` (lines 272-275) |
| `SearchInput.SearchWidget.ClickRow` | src/components/SearchInput.jsx:148 | performs `AfterClick` on the clicked row of the filtered list |
| `SearchInput.SearchWidget.ObserveSentinel` | src/components/SearchInput.jsx:110-114 | records the sentinel's visibility and asks for `loadMore` exactly when it has just become visible, every time it re-enters view |
| `ProductItem.CapitalizeWord` | src/components/ProductItem.jsx:15 | a word keeps its length and all but its first character; its first character is upper-cased; an empty word stays empty |
| `ProductItem.JoinSplit` | src/components/ProductItem.jsx:14-17 | joining the pieces of `split(" ")` with single spaces gives the string back |
| `ProductItem.SplitJoin` | src/components/ProductItem.jsx:14-17 | splitting a join of space-free words gives the words back |
| `ProductItem.CapitalizeSpec` | src/components/ProductItem.jsx:14-17 | capitalisation keeps the length and upper-cases exactly the characters that start a word (first, or after a space) |
| `ProductItem.CapitalizeKeepsSpaces` | src/components/ProductItem.jsx:14-17 | spaces stay at the same positions and no other character becomes a space |
| `ProductItem.CapitalizeWordwise` | src/components/ProductItem.jsx:15-16 | the words of the result are the capitalised words of the input, so empty words from consecutive spaces stay empty |
| `ProductItem.CapitalizeIdempotent` | src/components/ProductItem.jsx:14-17 | capitalising twice is capitalising once |
| `ProductItem.FormatLabel` | src/components/ProductItem.jsx:14-17 | a missing category or brand renders blank; a present one is its `Capitalize`, keeps its length, and has each character upper-cased exactly when it starts a word |
| `ProductItem.FormatCard` | src/components/ProductItem.jsx:8-27 | the shown title is the prefix of the title of length min(20, length); category and brand are each their `FormatLabel` (blank when missing, otherwise capitalised word by word) |
| `ProductItem.Render` | src/components/ProductItem.jsx:3-27 | an absent product renders nothing, a present one exactly its `FormatCard`, whose title is a prefix of its title |
| `ProductItem.BrandFormattedLikeCategory` | src/components/ProductItem.jsx:24-27 | brand and category go through the same rule: exchanging them in the product exchanges them on the card |
| `Landing.Apply` | src/Landing.jsx:25-46 | a query change sets the query and page 1 and keeps the list; `loadMore` adds 1 to the page unless loading; an arriving page is appended; the page stays at least 1 and the old list is always a prefix of the new one |
| `Landing.RunAccumulates` | src/Landing.jsx:25-29 | after any events the list is the old list followed by every arrived page in order: never reset, never de-duplicated |
| `Landing.RunKeepsPagePositive` | src/Landing.jsx:11-46 | the page number is never below 1 |
| `Landing.RunCountsLoads` | src/Landing.jsx:31-35 | without a query change the page grows by the number of `loadMore` calls made while not loading |
| `Landing.PageAfterQueryChange` | src/Landing.jsx:43-46 | after the last query change the page is 1 plus the non-loading `loadMore` calls since, and the query is the typed text |
| `Landing.RedItemsScenario` | src/Landing.jsx:25-46 | two items, `loadMore`, one more item and the query "red" give the list of all three in arrival order, page 1, and the two red items shown |
| `Landing.Landing.constructor` | src/Landing.jsx:9-12 | empty query, page 1, empty list and selection, widget in its initial state |
| `Landing.Landing.Cards` | src/Landing.jsx:58-61 | one card per selected product, in selection order |
| `Landing.Landing.TypeQuery` | src/Landing.jsx:43-46 | performs `Apply` for a query change; the selection is untouched |
| `Landing.Landing.LoadMore` | src/Landing.jsx:31-35 | performs `Apply` for `loadMore` |
| `Landing.Landing.ReceivePage` | src/Landing.jsx:25-29 | performs `Apply` for an arriving page |
| `Landing.Landing.SentinelVisibility` | src/Landing.jsx:54 | the widget's sentinel change calls `loadMore` exactly when the sentinel has just become visible |
| `Landing.Landing.Focus` | src/Landing.jsx:40-55 | forwards focus to the widget |
| `Landing.Landing.MouseDown` | src/Landing.jsx:40-55 | forwards a document mousedown to the widget |
| `Landing.Landing.KeyDown` | src/Landing.jsx:50 | a key press over the product list filtered by the debounced query; a report replaces `selectedProduct` wholesale |
| `Landing.Landing.Hover` | src/Landing.jsx:40-55 | forwards a hover over a row that is not selected to the widget |
| `Landing.Landing.ClickRow` | src/Landing.jsx:50 | a row click; a report replaces `selectedProduct` wholesale |
| `Landing.Landing.RemoveChip` | src/Landing.jsx:50 | a chip's remove button; the report replaces `selectedProduct`, which then lacks the key |

## Left out

- `src/apis/productService.js` (the HTTP GET, its logging and error translation) is not part of this model: each page that arrives is an input event, and `isLoading`/`isError` are inputs.
- `src/App.jsx` only creates the query client and its provider; it holds no logic.
- react-query caching, staleness, retries and `keepPreviousData` (`Landing.jsx:15-23`) are a library that is not shown. The model does not decide when a page arrives, or whether the same page arrives twice.
- The `useDebounce` timer is timing-based; the debounced query is an input value.
- The IntersectionObserver, DOM `contains` and the event listeners (`SearchInput.jsx:19-22, 70-79`) are browser plumbing. The sentinel's visibility and whether a mousedown fell inside the widget are inputs.
- Price `toFixed(2)` (`ProductItem.jsx:35`) is floating-point formatting; the image is only passed through.
- Styled-components CSS, JSX rendering, `renderItem` and `preventDefault` on Enter are presentation, with one exception that is modelled: `.disabled { pointer-events: none }` (`SearchInput.jsx:272-275`) keeps selected rows from receiving `mouseenter`, so `SearchWidget.Hover` and `Landing.Hover` require the hovered row to be unselected. Clicks on such rows are modelled through the row's own `!isSelected` guard.
- Strings are sequences of Unicode scalar values, while JavaScript's `length`, `substring` and `charAt` count UTF-16 code units. For text with characters outside the Basic Multilingual Plane (emoji, for instance) the model therefore differs from the program in `ChipLabel`'s `> 10` test and 5-character cut (`SearchInput.jsx:172-173`), in `FormatCard`'s 20-character cut (`ProductItem.jsx:8`) and in `CapitalizeWord`'s first character (`ProductItem.jsx:16`), where the program can split a surrogate pair.
- `SentinelRow` and `DropdownView` are standalone view functions: whether the sentinel row is mounted and visible is decided by the browser, and reaches `ObserveSentinel` only as its `visible` input.
- `toLowerCase`/`toUpperCase` are modelled on ASCII letters only; Unicode case mapping (which can change a string's length) is not.
- `itemKey` is fixed to `id`, the value `Landing.jsx` passes.
- `ProductItem.Render`: the product title is always present in the model, so the `?.` guard on the title (`ProductItem.jsx:8`) is not exercised. The widget reads `item.title` without a guard (`SearchInput.jsx:32, 172`), and a card is only rendered for a selected item whose chip has already read its title.
- `onSelect` is called inside the state updater; React may run an updater twice in development mode, which would report twice. The model reports once.

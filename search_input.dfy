/** The autocomplete / multi-select widget: the list it shows for a debounced
    query, the chip labels of the selection, and the state its event
    handlers keep (open flag, highlighted row, selection, and what it has
    reported to its owner through `onSelect`).

    The handlers are stated as transitions on a `Ui` value; the class
    `SearchWidget` holds the same state in mutable fields and each of its
    methods is proved to perform the corresponding transition. */
module SearchInput {
  import opened Text
  import opened Seqs
  import opened Catalog

  // ---------------------------------------------------------------------
  // The displayed list

  /** The lower-cased title contains the lower-cased query. */
  predicate Matches(item: Product, query: string) {
    Contains(Lower(item.title), Lower(query))
  }

  function MatchesQuery(query: string): Product -> bool {
    (item: Product) => Matches(item, query)
  }

  /** `filteredData`: everything when the debounced query is empty, else the
      items whose title contains it, ignoring case. */
  function Filtered(data: seq<Product>, debounced: string): seq<Product> {
    if debounced == "" then data else Keep(data, MatchesQuery(debounced))
  }

  /** An item of `data` is shown exactly when the query is empty or matches
      it; shown items keep their order and multiplicity from `data`. */
  lemma FilteredSpec(data: seq<Product>, debounced: string)
    ensures debounced == "" ==> Filtered(data, debounced) == data
    ensures IsSubsequence(Filtered(data, debounced), data)
    ensures forall i :: 0 <= i < |data| ==>
      (data[i] in Filtered(data, debounced) <==> debounced == "" || Matches(data[i], debounced))
    ensures forall x: Product ::
      multiset(Filtered(data, debounced))[x] ==
        if debounced == "" || Matches(x, debounced) then multiset(data)[x] else 0
  {
    if debounced == "" {
      SubsequenceOfItself(data);
    } else {
      KeepIsSubsequence(data, MatchesQuery(debounced));
      forall x: Product
        ensures multiset(Filtered(data, debounced))[x] == if Matches(x, debounced) then multiset(data)[x] else 0
      {
        KeepCount(data, MatchesQuery(debounced), x);
      }
    }
  }

  /** Typing the query in upper case shows the same list. */
  lemma FilteredIgnoresQueryCase(data: seq<Product>, debounced: string)
    ensures Filtered(data, Upper(debounced)) == Filtered(data, debounced)
  {
    LowerOfUpper(debounced);
    if debounced != "" {
      KeepCongruent(data, MatchesQuery(Upper(debounced)), MatchesQuery(debounced));
    }
  }

  lemma NoRedInBlueHat()
    ensures !Contains(Lower("Blue Hat"), Lower("red"))
  {
    assert Lower("Blue Hat") == "blue hat";
    assert Lower("red") == "red";
    ContainsIffOccurs("blue hat", "red");
    forall i | 0 <= i <= 5 ensures !OccursAt("blue hat", "red", i) {
      assert "blue hat"[i..i + 3][0] == "blue hat"[i] != 'r';
    }
  }

  lemma RedPrefixMatches(item: Product)
    requires item.title == "Red Shoe" || item.title == "Red Hat"
    ensures Matches(item, "red")
  {
    var t := Lower(item.title);
    assert t[0] == 'r' && t[1] == 'e' && t[2] == 'd';
    assert t[..3] == "red";
    assert Lower("red") == "red";
  }

  /** Of "Red Shoe", "Blue Hat" and "Red Hat", the query "red" shows the
      first and the last. */
  lemma RedQueryExample(shoe: Product, hat: Product, redHat: Product)
    requires shoe.title == "Red Shoe" && hat.title == "Blue Hat" && redHat.title == "Red Hat"
    ensures Filtered([shoe, hat, redHat], "red") == [shoe, redHat]
  {
    RedPrefixMatches(shoe);
    RedPrefixMatches(redHat);
    NoRedInBlueHat();
    var f := MatchesQuery("red");
    assert f(shoe) && !f(hat) && f(redHat);
    var tail := [hat, redHat];
    assert [shoe, hat, redHat][1..] == tail;
    assert tail[1..] == [redHat];
    assert [redHat][1..] == [];
    assert Keep([redHat], f) == [redHat] + Keep([], f) == [redHat];
    assert Keep(tail, f) == Keep([redHat], f);
    assert Keep([shoe, hat, redHat], f) == [shoe] + Keep(tail, f);
  }

  /** Index of the row that carries the infinite-scroll sentinel: the fourth
      from last, and none when fewer than four rows are shown. */
  function SentinelRow(rows: nat): (r: Option<nat>)
    ensures r.Some? <==> rows >= 4
    ensures r.Some? ==> r.value < rows && rows - r.value == 4
  {
    if rows >= 4 then Some(rows - 4) else None
  }

  /** What the dropdown shows. */
  datatype Dropdown =
    | Hidden
    | ErrorNotice
    | Listing(rows: seq<Product>, noResults: bool, spinner: bool)

  function DropdownView(isOpen: bool, isError: bool, isLoading: bool, shown: seq<Product>): (v: Dropdown)
    ensures v.Hidden? <==> !isOpen
    ensures v.ErrorNotice? <==> isOpen && isError
    ensures v.Listing? ==> v.rows == shown && v.spinner == isLoading
    ensures v.Listing? && v.noResults ==> v.rows == [] && !v.spinner
    ensures v.Listing? && v.rows == [] && !v.spinner ==> v.noResults
  {
    if !isOpen then Hidden
    else if isError then ErrorNotice
    else Listing(shown, shown == [] && !isLoading, isLoading)
  }

  /** The label on a selected item's chip: titles longer than ten characters
      are cut to their first five followed by "..". */
  function ChipLabel(title: string): (chip: string)
    ensures |chip| <= 10
    ensures |title| <= 10 ==> chip == title
    ensures |title| > 10 ==> |chip| == 7 && chip[..5] == title[..5] && chip[5..] == ".."
  {
    if |title| > 10 then Prefix(title, 5) + ".." else title
  }

  // ---------------------------------------------------------------------
  // Selection

  /** `handleSelect`'s update of the selection list. */
  function SelectInto(selected: seq<Product>, item: Product, allowMultiple: bool): (r: seq<Product>)
    ensures HasKey(r, item.id)
    ensures HasKey(selected, item.id) ==> r == selected
    ensures !HasKey(selected, item.id) && allowMultiple ==>
      |r| == |selected| + 1 && r[..|selected|] == selected && r[|selected|] == item
    ensures !HasKey(selected, item.id) && !allowMultiple ==> r == [item]
    ensures UniqueKeys(selected) ==> UniqueKeys(r)
  {
    if HasKey(selected, item.id) then selected
    else if allowMultiple then
      assert (selected + [item])[|selected|] == item;
      selected + [item]
    else [item]
  }

  function KeyDiffers(key: int): Product -> bool {
    (item: Product) => item.id != key
  }

  /** `handleRemove`'s update: drop every entry with the given key. */
  function WithoutKey(selected: seq<Product>, key: int): seq<Product> {
    Keep(selected, KeyDiffers(key))
  }

  lemma UniqueKeysCons(x: Product, rest: seq<Product>)
    requires UniqueKeys(rest)
    requires forall j :: 0 <= j < |rest| ==> rest[j].id != x.id
    ensures UniqueKeys([x] + rest)
  {
    var r := [x] + rest;
    forall i, j | 0 <= i < j < |r| ensures r[i].id != r[j].id {
      assert r[j] == rest[j - 1];
      if i > 0 {
        assert r[i] == rest[i - 1];
      }
    }
  }

  lemma KeyOutsideTail(s: seq<Product>, kept: seq<Product>)
    requires s != [] && UniqueKeys(s)
    requires forall j :: 0 <= j < |kept| ==> kept[j] in s[1..]
    ensures forall j :: 0 <= j < |kept| ==> kept[j].id != s[0].id
  {
    forall j | 0 <= j < |kept| ensures kept[j].id != s[0].id {
      var m :| 0 <= m < |s[1..]| && s[1..][m] == kept[j];
      assert s[m + 1] == kept[j];
    }
  }

  lemma {:induction false} KeepKeepsUniqueKeys(s: seq<Product>, f: Product -> bool)
    requires UniqueKeys(s)
    ensures UniqueKeys(Keep(s, f))
    decreases |s|
  {
    if s != [] {
      var rest := Keep(s[1..], f);
      KeepKeepsUniqueKeys(s[1..], f);
      if f(s[0]) {
        KeyOutsideTail(s, rest);
        UniqueKeysCons(s[0], rest);
      }
    }
  }

  /** Removing a key leaves no entry with it, keeps every other entry in its
      original relative order, keeps keys unique, and changes nothing when the
      key was absent. */
  lemma RemoveSpec(selected: seq<Product>, key: int)
    ensures !HasKey(WithoutKey(selected, key), key)
    ensures IsSubsequence(WithoutKey(selected, key), selected)
    ensures forall x: Product ::
      multiset(WithoutKey(selected, key))[x] == if x.id == key then 0 else multiset(selected)[x]
    ensures UniqueKeys(selected) ==> UniqueKeys(WithoutKey(selected, key))
    ensures !HasKey(selected, key) ==> WithoutKey(selected, key) == selected
  {
    var f := KeyDiffers(key);
    KeepIsSubsequence(selected, f);
    forall x: Product
      ensures multiset(WithoutKey(selected, key))[x] == if x.id == key then 0 else multiset(selected)[x]
    {
      KeepCount(selected, f, x);
    }
    if UniqueKeys(selected) {
      KeepKeepsUniqueKeys(selected, f);
    }
    if !HasKey(selected, key) {
      KeepAll(selected, f);
    }
  }

  /** Removing an item that was just added restores the previous selection
      (in single-select mode the selection was replaced, so it ends empty). */
  lemma RemoveUndoesSelect(selected: seq<Product>, item: Product, allowMultiple: bool)
    requires !HasKey(selected, item.id)
    ensures WithoutKey(SelectInto(selected, item, allowMultiple), item.id) ==
      if allowMultiple then selected else []
  {
    var f := KeyDiffers(item.id);
    assert !f(item);
    assert Keep([item], f) == [];
    RemoveSpec(selected, item.id);
    if allowMultiple {
      KeepConcat(selected, [item], f);
    }
  }

  // ---------------------------------------------------------------------
  // The highlighted-row cursor

  /** ArrowDown: advance unless already on (or past) the last row. */
  function CursorDown(index: int, rows: nat): (r: int)
    ensures r == index || r == index + 1
    ensures r == index <==> index >= rows - 1
    ensures -1 <= index < rows ==> -1 <= r < rows
  {
    if index < rows - 1 then index + 1 else index
  }

  /** ArrowUp: step back unless on the first row or on no row. */
  function CursorUp(index: int): (r: int)
    ensures r == index || r == index - 1
    ensures r == index <==> index <= 0
    ensures index >= -1 ==> r >= -1
  {
    if index > 0 then index - 1 else index
  }

  function DownPresses(index: int, rows: nat, presses: nat): int
    decreases presses
  {
    if presses == 0 then index else DownPresses(CursorDown(index, rows), rows, presses - 1)
  }

  function UpPresses(index: int, presses: nat): int
    decreases presses
  {
    if presses == 0 then index else UpPresses(CursorUp(index), presses - 1)
  }

  /** Holding ArrowDown walks to the last row and stops there (no wrap); a
      stale index at or past the last row stays where it is. */
  lemma {:induction false} DownPressesClamp(index: int, rows: nat, presses: nat)
    ensures DownPresses(index, rows, presses) ==
      if index >= rows - 1 then index
      else if index + presses < rows - 1 then index + presses
      else rows - 1
    decreases presses
  {
    if presses > 0 {
      DownPressesClamp(CursorDown(index, rows), rows, presses - 1);
    }
  }

  /** Holding ArrowUp walks to the first row and stops there; with nothing
      highlighted it stays at -1. */
  lemma {:induction false} UpPressesClamp(index: int, presses: nat)
    requires index >= -1
    ensures UpPresses(index, presses) ==
      if index == -1 then -1 else if index - presses > 0 then index - presses else 0
    decreases presses
  {
    if presses > 0 {
      UpPressesClamp(CursorUp(index), presses - 1);
    }
  }

  // ---------------------------------------------------------------------
  // Widget state and its event handlers

  datatype Key = ArrowDown | ArrowUp | Enter | Escape | OtherKey

  /** The widget's state, with `reports` the lists handed to `onSelect`,
      oldest first, and `inView` the sentinel row's last observed visibility. */
  datatype Ui = Ui(isOpen: bool, activeIndex: int, selected: seq<Product>,
                   reports: seq<seq<Product>>, inView: bool)

  function LastReport(reports: seq<seq<Product>>): seq<Product> {
    if reports == [] then [] else reports[|reports| - 1]
  }

  /** Keys are unique, the cursor is a row or -1 (possibly stale), and the
      owner has been told the current selection. */
  predicate UiValid(u: Ui) {
    UniqueKeys(u.selected) && u.activeIndex >= -1 && u.selected == LastReport(u.reports)
  }

  const InitialUi := Ui(false, -1, [], [], false)

  lemma InitialUiValid()
    ensures UiValid(InitialUi) && !InitialUi.isOpen && InitialUi.activeIndex == -1
  {
  }

  /** `handleFocus` */
  function AfterFocus(u: Ui): (v: Ui)
    ensures v.isOpen
    ensures v.(isOpen := u.isOpen) == u
  {
    u.(isOpen := true)
  }

  /** The document-level mousedown listener: a press outside closes. */
  function AfterMouseDown(u: Ui, inside: bool): (v: Ui)
    ensures inside ==> v == u
    ensures !inside ==> !v.isOpen && v.(isOpen := u.isOpen) == u
  {
    if inside then u else u.(isOpen := false)
  }

  /** `handleSelect`: a new key is added (or replaces the selection in
      single-select mode) and the new list is reported; a key already
      selected changes nothing and reports nothing. */
  function AfterSelect(u: Ui, item: Product, allowMultiple: bool): (v: Ui)
    ensures HasKey(u.selected, item.id) ==> v == u
    ensures !HasKey(u.selected, item.id) ==>
      v.reports == u.reports + [v.selected] && v.selected != u.selected
    ensures !HasKey(u.selected, item.id) ==> v.selected == SelectInto(u.selected, item, allowMultiple)
    ensures HasKey(v.selected, item.id)
    ensures v.isOpen == u.isOpen && v.activeIndex == u.activeIndex && v.inView == u.inView
    ensures UiValid(u) ==> UiValid(v)
  {
    if HasKey(u.selected, item.id) then u
    else
      var updated := SelectInto(u.selected, item, allowMultiple);
      u.(selected := updated, reports := u.reports + [updated])
  }

  /** `handleRemove`: drop the key and always report the result. */
  function AfterRemove(u: Ui, item: Product): (v: Ui)
    ensures v.selected == WithoutKey(u.selected, item.id)
    ensures v.reports == u.reports + [v.selected]
    ensures !HasKey(v.selected, item.id)
    ensures v.isOpen == u.isOpen && v.activeIndex == u.activeIndex && v.inView == u.inView
    ensures UiValid(u) ==> UiValid(v)
  {
    RemoveSpec(u.selected, item.id);
    var updated := WithoutKey(u.selected, item.id);
    u.(selected := updated, reports := u.reports + [updated])
  }

  /** `handleKeyDown` over the currently shown rows. */
  function AfterKey(u: Ui, key: Key, shown: seq<Product>, allowMultiple: bool): (v: Ui)
    ensures !u.isOpen || shown == [] ==> v == u
    ensures u.isOpen && shown != [] && key == ArrowDown ==>
      v == u.(activeIndex := CursorDown(u.activeIndex, |shown|))
    ensures u.isOpen && shown != [] && key == ArrowUp ==>
      v == u.(activeIndex := CursorUp(u.activeIndex))
    ensures u.isOpen && shown != [] && key == Enter && 0 <= u.activeIndex < |shown| ==>
      v == AfterSelect(u, shown[u.activeIndex], allowMultiple)
    ensures key != Escape ==> v.isOpen == u.isOpen
    ensures key == Escape && u.isOpen && shown != [] ==> !v.isOpen
    ensures key != Enter || u.activeIndex < 0 || u.activeIndex >= |shown| ==>
      v.selected == u.selected && v.reports == u.reports
    ensures key != ArrowUp && key != ArrowDown ==> v.activeIndex == u.activeIndex
    ensures -1 <= u.activeIndex < |shown| ==> -1 <= v.activeIndex < |shown|
    ensures v.inView == u.inView
    ensures UiValid(u) ==> UiValid(v)
  {
    if !u.isOpen || |shown| == 0 then u
    else
      match key
      case ArrowDown => u.(activeIndex := CursorDown(u.activeIndex, |shown|))
      case ArrowUp => u.(activeIndex := CursorUp(u.activeIndex))
      case Enter =>
        if 0 <= u.activeIndex < |shown| then AfterSelect(u, shown[u.activeIndex], allowMultiple) else u
      case Escape => u.(isOpen := false)
      case OtherKey => u
  }

  /** `onMouseEnter` on a row highlights that row. */
  function AfterHover(u: Ui, row: nat): (v: Ui)
    ensures v.activeIndex == row
    ensures v.(activeIndex := u.activeIndex) == u
    ensures UiValid(u) ==> UiValid(v)
  {
    u.(activeIndex := row)
  }

  /** A click on a row: rows already selected are disabled. The guard is
      redundant with `handleSelect`'s own check, so a click is exactly a select. */
  function AfterClick(u: Ui, shown: seq<Product>, row: nat, allowMultiple: bool): (v: Ui)
    requires row < |shown|
    ensures v == AfterSelect(u, shown[row], allowMultiple)
  {
    if HasKey(u.selected, shown[row].id) then u else AfterSelect(u, shown[row], allowMultiple)
  }

  /** The `[inView]` effect calls `loadMore` each time the sentinel becomes visible. */
  predicate LoadMoreFires(u: Ui, visible: bool) {
    visible && !u.inView
  }

  // ---------------------------------------------------------------------
  // The component

  class SearchWidget {
    const allowMultiple: bool
    var isOpen: bool
    var activeIndex: int
    var selectedItems: seq<Product>
    var reports: seq<seq<Product>>
    var inView: bool

    function State(): Ui
      reads this
    {
      Ui(isOpen, activeIndex, selectedItems, reports, inView)
    }

    ghost predicate Valid()
      reads this
    {
      UiValid(State())
    }

    constructor (allowMultiple: bool)
      ensures Valid() && State() == InitialUi && this.allowMultiple == allowMultiple
    {
      this.allowMultiple := allowMultiple;
      isOpen := false;
      activeIndex := -1;
      selectedItems := [];
      reports := [];
      inView := false;
    }

    method Focus()
      requires Valid()
      modifies this
      ensures Valid() && State() == AfterFocus(old(State()))
    {
      isOpen := true;
    }

    method MouseDown(inside: bool)
      requires Valid()
      modifies this
      ensures Valid() && State() == AfterMouseDown(old(State()), inside)
    {
      if !inside {
        isOpen := false;
      }
    }

    method Select(item: Product)
      requires Valid()
      modifies this
      ensures Valid() && State() == AfterSelect(old(State()), item, allowMultiple)
    {
      if !HasKey(selectedItems, item.id) {
        var updated := if allowMultiple then selectedItems + [item] else [item];
        reports := reports + [updated];
        selectedItems := updated;
      }
    }

    method Remove(item: Product)
      requires Valid()
      modifies this
      ensures Valid() && State() == AfterRemove(old(State()), item)
    {
      RemoveSpec(selectedItems, item.id);
      var updated := Keep(selectedItems, KeyDiffers(item.id));
      reports := reports + [updated];
      selectedItems := updated;
    }

    method KeyDown(key: Key, data: seq<Product>, debounced: string)
      requires Valid()
      modifies this
      ensures Valid() && State() == AfterKey(old(State()), key, Filtered(data, debounced), allowMultiple)
    {
      var shown := Filtered(data, debounced);
      if !isOpen || |shown| == 0 {
        return;
      }
      match key
      case ArrowDown =>
        if activeIndex < |shown| - 1 {
          activeIndex := activeIndex + 1;
        }
      case ArrowUp =>
        if activeIndex > 0 {
          activeIndex := activeIndex - 1;
        }
      case Enter =>
        if 0 <= activeIndex < |shown| {
          Select(shown[activeIndex]);
        }
      case Escape =>
        isOpen := false;
      case OtherKey =>
    }

    /** A selected row is styled with `pointer-events: none`, so it never
        receives `mouseenter`: only rows not yet selected can be hovered. */
    method Hover(data: seq<Product>, debounced: string, row: nat)
      requires Valid()
      requires row < |Filtered(data, debounced)|
      requires !HasKey(selectedItems, Filtered(data, debounced)[row].id)
      modifies this
      ensures Valid() && State() == AfterHover(old(State()), row)
    {
      activeIndex := row;
    }

    method ClickRow(data: seq<Product>, debounced: string, row: nat)
      requires Valid()
      requires row < |Filtered(data, debounced)|
      modifies this
      ensures Valid() && State() == AfterClick(old(State()), Filtered(data, debounced), row, allowMultiple)
    {
      var item := Filtered(data, debounced)[row];
      if !HasKey(selectedItems, item.id) {
        Select(item);
      }
    }

    /** The sentinel row's visibility changed to `visible`; `fire` says
        whether the effect calls `loadMore`. */
    method ObserveSentinel(visible: bool) returns (fire: bool)
      requires Valid()
      modifies this
      ensures Valid() && State() == old(State()).(inView := visible)
      ensures fire == LoadMoreFires(old(State()), visible)
    {
      fire := visible && !inView;
      inView := visible;
    }
  }
}

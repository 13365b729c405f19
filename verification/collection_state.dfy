/**
  The URL state of a collection page: normalizeCollectionState of
  apps/workbench-web/src/pages.tsx.  The page number of an input may be any number; `None` stands
  for one that is not a safe integer.
*/
module CollectionState {
  import opened Basics

  datatype Tab = Active | History

  datatype Item = Item(id: string, tab: Tab, status: string)

  datatype Collection = Collection(items: seq<Item>, statuses: seq<string>)

  datatype Input = Input(filter: string, page: Option<int>, selected: Option<string>, tab: string)

  datatype Normalized = Normalized(filter: string, items: seq<Item>, page: nat, selected: Option<string>, tab: Tab)

  const PAGE_SIZE: nat := 5

  predicate UniqueIds(items: seq<Item>) { forall i, j :: 0 <= i < j < |items| ==> items[i].id != items[j].id }

  /** The place of an id, or the length of the list. */
  function FindId(items: seq<Item>, id: string): (r: nat)
    ensures r <= |items|
    ensures r < |items| ==> items[r].id == id
    ensures forall i :: 0 <= i < r ==> items[i].id != id
  {
    if items == [] || items[0].id == id then 0 else 1 + FindId(items[1..], id)
  }

  predicate Shown(item: Item, tab: Tab, filter: string) { item.tab == tab && (filter == "all" || item.status == filter) }

  function Filtered(items: seq<Item>, tab: Tab, filter: string): (r: seq<Item>)
    ensures forall i :: 0 <= i < |r| ==> r[i] in items && Shown(r[i], tab, filter)
  {
    if items == [] then []
    else
      var init := Filtered(items[..|items| - 1], tab, filter);
      if Shown(items[|items| - 1], tab, filter) then init + [items[|items| - 1]] else init
  }

  function PageCount(n: nat): nat { Max(1, (n + PAGE_SIZE - 1) / PAGE_SIZE) }

  function PathItem(c: Collection, path: Option<string>): Option<Item> {
    if path.None? then None
    else
      var i := FindId(c.items, path.value);
      if i < |c.items| then Some(c.items[i]) else None
  }

  function TabOf(c: Collection, input: Input, path: Option<string>): Tab {
    var item := PathItem(c, path);
    if item.Some? then item.value.tab else if input.tab == "history" then History else Active
  }

  function FilterOf(c: Collection, input: Input, path: Option<string>): string {
    var requested := if input.filter == "all" || input.filter in c.statuses then input.filter else "all";
    var item := PathItem(c, path);
    if item.Some? && requested != "all" && item.value.status != requested then "all" else requested
  }

  /** Which page of the filtered items is shown, and what is selected on it. */
  function Placed(filtered: seq<Item>, page: Option<int>, selection: Option<string>): (nat, Option<string>) {
    var index := if selection.None? then |filtered| else FindId(filtered, selection.value);
    var shown := if index < |filtered| then index / PAGE_SIZE + 1 else RequestedPage(|filtered|, page);
    var items := PageItems(filtered, shown);
    (shown, if index < |filtered| then Some(filtered[index].id) else if items == [] then None else Some(items[0].id))
  }

  /** One page: slice with both ends cut off at the length. */
  function PageItems(filtered: seq<Item>, page: nat): seq<Item> {
    if page == 0 then [] else
      var from, to := Min((page - 1) * PAGE_SIZE, |filtered|), Min(page * PAGE_SIZE, |filtered|);
      filtered[from..to]
  }

  function Normalize(c: Collection, input: Input, path: Option<string>): Normalized {
    var tab, filter := TabOf(c, input, path), FilterOf(c, input, path);
    var filtered := Filtered(c.items, tab, filter);
    var placed := Placed(filtered, input.page, if path.Some? then path else input.selected);
    Normalized(filter, PageItems(filtered, placed.0), placed.0, placed.1, tab)
  }

  /** A normalised state, given back as input. */
  function Again(n: Normalized): Input {
    Input(n.filter, Some(n.page), n.selected, if n.tab.History? then "history" else "active")
  }

  // ---------------------------------------------------------------- what is shown

  /** The first item with the id of the path, if there is a path and such an item. */
  ghost predicate IsPathItem(c: Collection, path: Option<string>, i: nat) {
    && path.Some? && i < |c.items| && c.items[i].id == path.value
    && forall j :: 0 <= j < i ==> c.items[j].id != path.value
  }

  /** A path's item decides the tab, and beats the requested filter if its status is another; otherwise what was asked for counts, if it exists. */
  lemma TabAndFilterExactly(c: Collection, input: Input, path: Option<string>)
    ensures var n := Normalize(c, input, path);
            var known := input.filter == "all" || input.filter in c.statuses;
            && (forall i: nat :: IsPathItem(c, path, i) ==>
                  && n.tab == c.items[i].tab
                  && n.filter == if known && (input.filter == "all" || c.items[i].status == input.filter) then input.filter else "all")
            && ((forall i: nat :: !IsPathItem(c, path, i)) ==>
                  && n.tab == (if input.tab == "history" then History else Active)
                  && n.filter == if known then input.filter else "all")
  {
    hide Placed, Filtered, PageItems;
    if path.Some? {
      var first := FindId(c.items, path.value);
      if first < |c.items| { assert IsPathItem(c, path, first); }
      forall i: nat | IsPathItem(c, path, i) ensures i == first { }
    }
  }

  /** Filtering goes item by item and keeps their order. */
  lemma {:induction false} FilteredApart(a: seq<Item>, b: seq<Item>, tab: Tab, filter: string)
    ensures Filtered(a + b, tab, filter) == Filtered(a, tab, filter) + Filtered(b, tab, filter)
    decreases |b|
  {
    if b == [] {
      assert a + b == a;
    } else {
      var init := b[..|b| - 1];
      assert (a + b)[..|a + b| - 1] == a + init;
      FilteredApart(a, init, tab, filter);
    }
  }

  lemma FilteredOne(item: Item, tab: Tab, filter: string)
    ensures Filtered([item], tab, filter) == if item.tab == tab && (filter == "all" || item.status == filter) then [item] else []
  {
    assert [item][..0] == [];
  }

  /** Pages hold five items; the page shown is that of the selection, if it is among the filtered items, else the nearest to the one asked for. */
  lemma PageExactly(c: Collection, input: Input, path: Option<string>)
    ensures var n := Normalize(c, input, path);
            var filtered := Filtered(c.items, n.tab, n.filter);
            var wanted := if path.Some? then path else input.selected;
            && |n.items| == Max(0, Min(5, |filtered| - 5 * (n.page - 1)))
            && (forall k :: 0 <= k < |n.items| ==> 5 * (n.page - 1) + k < |filtered| && n.items[k] == filtered[5 * (n.page - 1) + k])
            && (wanted.Some? && Has(filtered, wanted.value) ==>
                  n.selected == wanted && 5 * (n.page - 1) <= FindId(filtered, wanted.value) < 5 * n.page)
            && (wanted.None? || !Has(filtered, wanted.value) ==>
                  && n.selected == (if n.items == [] then None else Some(n.items[0].id))
                  && (input.page.None? || input.page.value < 1 ==> n.page == 1)
                  && (input.page.Some? && input.page.value >= 1 ==>
                        n.page == if filtered == [] then 1 else Min(input.page.value, (|filtered| - 1) / 5 + 1)))
  {
    var n := Normalize(c, input, path);
    var filtered := Filtered(c.items, n.tab, n.filter);
    var wanted := if path.Some? then path else input.selected;
    hide Filtered, TabOf, FilterOf, Placed, PageItems, Has, FindId, RequestedPage;
    PlacedOnPage(filtered, input.page, wanted);
    PageSlice(filtered, n.page);
    HasExactly(filtered, wanted);
    RequestedExactly(|filtered|, input.page);
    if wanted.Some? && Has(filtered, wanted.value) {
      PlacedFound(filtered, input.page, wanted.value);
    } else {
      PlacedElsewhere(filtered, input.page, wanted);
      if filtered != [] { FirstOnPage(filtered, n.page); }
    }
  }

  lemma HasExactly(items: seq<Item>, wanted: Option<string>)
    ensures wanted.Some? ==> (Has(items, wanted.value) <==> FindId(items, wanted.value) < |items|)
  {
  }

  lemma PageSlice(filtered: seq<Item>, page: nat)
    requires page >= 1
    ensures var items := PageItems(filtered, page);
            && |items| == Max(0, Min(5, |filtered| - 5 * (page - 1)))
            && forall k :: 0 <= k < |items| ==> 5 * (page - 1) + k < |filtered| && items[k] == filtered[5 * (page - 1) + k]
  {
  }

  lemma RequestedExactly(n: nat, page: Option<int>)
    ensures page.None? || page.value < 1 ==> RequestedPage(n, page) == 1
    ensures page.Some? && page.value >= 1 ==> RequestedPage(n, page) == if n == 0 then 1 else Min(page.value, (n - 1) / 5 + 1)
  {
  }

  predicate Has(items: seq<Item>, id: string) { exists i :: 0 <= i < |items| && items[i].id == id }

  // ---------------------------------------------------------------- where things are

  lemma {:induction false} FilteredUnique(items: seq<Item>, tab: Tab, filter: string)
    requires UniqueIds(items)
    ensures UniqueIds(Filtered(items, tab, filter))
  {
    if items != [] {
      var init := items[..|items| - 1];
      FilteredUnique(init, tab, filter);
      var r := Filtered(init, tab, filter);
      forall i | 0 <= i < |r| ensures r[i].id != items[|items| - 1].id {
        assert r[i] in init;
        var j :| 0 <= j < |init| && init[j] == r[i];
        assert items[j] == init[j];
      }
    }
  }

  lemma {:induction false} FilteredHas(
      items: seq<Item>, tab: Tab, filter: string, item: Item)
    requires item in items && Shown(item, tab, filter)
    ensures item in Filtered(items, tab, filter)
  {
    var init := items[..|items| - 1];
    if item != items[|items| - 1] {
      var i :| 0 <= i < |items| && items[i] == item;
      assert init[i] == item;
      FilteredHas(init, tab, filter, item);
    }
  }

  lemma FindUnique(items: seq<Item>, i: nat)
    requires UniqueIds(items) && i < |items|
    ensures FindId(items, items[i].id) == i
  {
  }

  function RequestedPage(n: nat, page: Option<int>): (r: nat)
    ensures 1 <= r <= PageCount(n)
  {
    if page.Some? && page.value > 0 then Min(page.value, PageCount(n)) else 1
  }

  lemma PlacedFound(filtered: seq<Item>, page: Option<int>, selection: string)
    requires FindId(filtered, selection) < |filtered|
    ensures Placed(filtered, page, Some(selection)) == (FindId(filtered, selection) / PAGE_SIZE + 1, Some(selection))
  {
    hide PageItems;
  }

  lemma PlacedElsewhere(filtered: seq<Item>, page: Option<int>, selection: Option<string>)
    requires selection.None? || FindId(filtered, selection.value) == |filtered|
    ensures var shown := RequestedPage(|filtered|, page);
            Placed(filtered, page, selection) == (shown, if filtered == [] then None else Some(filtered[FirstOn(filtered, shown)].id))
  {
    var shown := RequestedPage(|filtered|, page);
    if filtered != [] { FirstOnPage(filtered, shown); }
  }

  /** Where a page begins. */
  function FirstOn(filtered: seq<Item>, page: nat): (r: nat)
    requires filtered != [] && 1 <= page <= PageCount(|filtered|)
    ensures r < |filtered|
  {
    (page - 1) * PAGE_SIZE
  }

  lemma FirstOnPage(filtered: seq<Item>, page: nat)
    requires filtered != [] && 1 <= page <= PageCount(|filtered|)
    ensures PageItems(filtered, page) != [] && PageItems(filtered, page)[0] == filtered[FirstOn(filtered, page)]
    ensures FirstOn(filtered, page) / PAGE_SIZE + 1 == page
  {
  }

  lemma IndexOnPage(filtered: seq<Item>, index: nat)
    requires index < |filtered|
    ensures var page := index / PAGE_SIZE + 1;
            && page <= PageCount(|filtered|)
            && index % PAGE_SIZE < |PageItems(filtered, page)| && PageItems(filtered, page)[index % PAGE_SIZE] == filtered[index]
  {
  }

  ghost predicate OnPage(items: seq<Item>, id: string) { exists i :: 0 <= i < |items| && items[i].id == id }

  /** The page shown is one of the pages there are, and holds the selected item; nothing is selected only when nothing is there. */
  lemma PlacedOnPage(filtered: seq<Item>, page: Option<int>, selection: Option<string>)
    ensures var (shown, selected) := Placed(filtered, page, selection);
            && 1 <= shown <= PageCount(|filtered|)
            && (selected.None? <==> filtered == [])
            && (selected.Some? ==> OnPage(PageItems(filtered, shown), selected.value))
  {
    hide Placed, PageItems, FindId;
    if selection.Some? && FindId(filtered, selection.value) < |filtered| {
      PlacedFound(filtered, page, selection.value);
      IndexOnPage(filtered, FindId(filtered, selection.value));
    } else {
      PlacedElsewhere(filtered, page, selection);
      if filtered != [] { FirstOnPage(filtered, RequestedPage(|filtered|, page)); }
    }
  }

  /** Placing again with the same selection changes nothing; with the selection that was made, exactly if it is found on the page shown. */
  lemma PlacedAgain(filtered: seq<Item>, page: Option<int>, selection: Option<string>)
    ensures var (shown, selected) := Placed(filtered, page, selection);
            && Placed(filtered, Some(shown), selection) == (shown, selected)
            && (Placed(filtered, Some(shown), selected) == (shown, selected) <==> FoundOnPage(filtered, selected, shown))
  {
    var (shown, selected) := Placed(filtered, page, selection);
    PlacedOnPage(filtered, page, selection);
    hide Placed, PageItems, FindId, FirstOn, OnPage;
    if selection.Some? && FindId(filtered, selection.value) < |filtered| {
      PlacedFound(filtered, page, selection.value);
      PlacedFound(filtered, Some(shown), selection.value);
    } else {
      PlacedElsewhere(filtered, page, selection);
      PlacedElsewhere(filtered, Some(shown), selection);
      if filtered == [] {
        PlacedElsewhere(filtered, Some(shown), selected);
      } else {
        FindSome(filtered, FirstOn(filtered, shown));
        PlacedFound(filtered, Some(shown), selected.value);
      }
    }
  }

  /** The first item with the selected id, if anything is selected, is on this page. */
  predicate FoundOnPage(filtered: seq<Item>, selected: Option<string>, page: nat) {
    selected.None? || FindId(filtered, selected.value) / PAGE_SIZE + 1 == page
  }

  lemma FindSome(items: seq<Item>, i: nat)
    requires i < |items|
    ensures FindId(items, items[i].id) < |items|
  {
    assert FindId(items, items[i].id) <= i;
  }

  /** With unique ids the selected item is found where it is shown. */
  lemma UniqueFoundOnPage(
      filtered: seq<Item>, page: Option<int>, selection: Option<string>)
    requires UniqueIds(filtered)
    ensures var (shown, selected) := Placed(filtered, page, selection);
            FoundOnPage(filtered, selected, shown)
  {
    hide Placed, PageItems, FindId, FirstOn, UniqueIds;
    if selection.Some? && FindId(filtered, selection.value) < |filtered| {
      PlacedFound(filtered, page, selection.value);
    } else {
      PlacedElsewhere(filtered, page, selection);
      if filtered != [] {
        var shown := RequestedPage(|filtered|, page);
        FindUnique(filtered, FirstOn(filtered, shown));
        FirstOnPage(filtered, shown);
      }
    }
  }

  /** The tab and the filter a state was normalised to are what they are normalised to again, with the path or without it. */
  lemma TabAndFilterAgain(c: Collection, input: Input, path: Option<string>)
    ensures var n := Normalize(c, input, path);
            && TabOf(c, Again(n), path) == n.tab && FilterOf(c, Again(n), path) == n.filter
            && TabOf(c, Again(n), None) == n.tab && FilterOf(c, Again(n), None) == n.filter
  {
    hide Filtered, Placed, PageItems;
  }

  /** An item named by the path is shown whatever the filter was. */
  lemma PathItemShown(c: Collection, input: Input, path: Option<string>)
    requires PathItem(c, path).Some?
    ensures Shown(PathItem(c, path).value, TabOf(c, input, path), FilterOf(c, input, path))
  {
  }

  /**
    Whatever the ids are: with the same path selection normalising again changes nothing, and without one it
    changes nothing exactly when the first item that has the selected id is on the page shown.
  */
  lemma NormalizeAgainExactly(c: Collection, input: Input, path: Option<string>)
    ensures var n := Normalize(c, input, path);
            var filtered := Filtered(c.items, n.tab, n.filter);
            && (path.Some? ==> Normalize(c, Again(n), path) == n)
            && (Normalize(c, Again(n), None) == n <==> FoundOnPage(filtered, n.selected, n.page))
  {
    var n := Normalize(c, input, path);
    TabAndFilterAgain(c, input, path);
    PlacedAgain(Filtered(c.items, n.tab, n.filter), input.page, if path.Some? then path else input.selected);
    hide Filtered, Placed, PageItems, TabOf, FilterOf, FindId;
  }

  /** Normalising a normalised state changes nothing, with the same path selection or with none. */
  lemma NormalizeIsFixed(c: Collection, input: Input, path: Option<string>)
    requires UniqueIds(c.items)
    ensures var n := Normalize(c, input, path);
            Normalize(c, Again(n), path) == n && Normalize(c, Again(n), None) == n
  {
    var n := Normalize(c, input, path);
    NormalizeAgainExactly(c, input, path);
    FilteredUnique(c.items, n.tab, n.filter);
    UniqueFoundOnPage(Filtered(c.items, n.tab, n.filter), input.page, if path.Some? then path else input.selected);
    hide Filtered, Placed, PageItems, TabOf, FilterOf, FoundOnPage;
  }

  /** The page is in range, the selected item is on it, and a path selection that exists is the one selected. */
  lemma NormalizedIsConsistent(c: Collection, input: Input, path: Option<string>)
    ensures var n := Normalize(c, input, path);
            var filtered := Filtered(c.items, n.tab, n.filter);
            && 1 <= n.page <= PageCount(|filtered|)
            && n.items == PageItems(filtered, n.page)
            && (n.selected.None? <==> filtered == [])
            && (n.selected.Some? ==> OnPage(n.items, n.selected.value))
            && (PathItem(c, path).Some? ==> n.selected == path)
            && (n.filter == "all" || n.filter in c.statuses)
  {
    var n := Normalize(c, input, path);
    var filtered := Filtered(c.items, n.tab, n.filter);
    PlacedOnPage(filtered, input.page, if path.Some? then path else input.selected);
    if PathItem(c, path).Some? {
      var item := PathItem(c, path).value;
      PathItemShown(c, input, path);
      FilteredHas(c.items, n.tab, n.filter, item);
      var i :| 0 <= i < |filtered| && filtered[i] == item;
      assert FindId(filtered, path.value) <= i;
    }
    hide Filtered, PageItems;
  }

  /** An id used on two pages can break it: the first item of page two is selected there, and found on page one. */
  lemma DuplicateIdsMove()
    ensures var a, b := Item("a", Active, "open"), Item("b", Active, "open");
            var c := Collection([a, b, b, b, b, a], []);
            var n := Normalize(c, Input("all", Some(2), None, "active"), None);
            n.page == 2 && Normalize(c, Again(n), None).page == 1
  {
    var a, b := Item("a", Active, "open"), Item("b", Active, "open");
    var items := [a, b, b, b, b, a];
    AllShown(items);
    DuplicatePlaced(items);
    hide Filtered, Placed, PageItems, FindId;
    var c := Collection(items, []);
    var n := Normalize(c, Input("all", Some(2), None, "active"), None);
    assert n.filter == "all" && n.tab == Active;
  }

  lemma DuplicatePlaced(items: seq<Item>)
    requires |items| == 6 && items[0] == items[5]
    ensures Placed(items, Some(2), None) == (2, Some(items[0].id))
    ensures Placed(items, Some(2), Some(items[0].id)).0 == 1
  {
    assert FindId(items, items[0].id) == 0;
    hide Placed, PageItems, FindId;
    assert PageCount(6) == 2;
    PlacedElsewhere(items, Some(2), None);
    PlacedFound(items, Some(2), items[0].id);
  }

  lemma {:induction false} AllShown(items: seq<Item>)
    requires forall i :: 0 <= i < |items| ==> items[i].tab == Active
    ensures Filtered(items, Active, "all") == items
  {
    if items != [] {
      AllShown(items[..|items| - 1]);
      assert items == items[..|items| - 1] + [items[|items| - 1]];
    }
  }
}

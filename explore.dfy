/** frontend/profstars-frontend/src/pages/Explore.jsx: a grid of professors or universities
    with a name search, category chips (professors only), pages of ten, a Verified badge
    and a list of liked names. Fetching is outside the model: an answer arrives through
    `DataLoaded`. */
module Explore {
  import opened Common
  import opened Text

  const ItemsPerPage: nat := 10
  const LoadFailed := "Failed to load data"

  datatype View = Professors | Universities

  /** An entry of the grid: a professor (`department`) or a university (`webPages`);
      a field the answer lacks is `None`, and missing web pages are the empty list. */
  datatype Item = Item(name: Option<string>, department: Option<string>, webPages: seq<string>)

  predicate NameMatches(item: Item, query: string)
  {
    item.name.Some? && Contains(Lower(item.name.value), Lower(query))
  }

  predicate DepartmentMatches(item: Item, category: string)
  {
    item.department.Some? && Contains(Lower(item.department.value), Lower(category))
  }

  /** The category filter applies only to a non-empty category in the professors view. */
  predicate CategoryActive(view: View, category: string)
  {
    category != "" && view == Professors
  }

  /** `filtered`: the name search, then the category chip. */
  function Filtered(data: seq<Item>, query: string, category: string, view: View): (r: seq<Item>)
    ensures forall x :: x in r <==>
      (x in data && NameMatches(x, query) && (CategoryActive(view, category) ==> DepartmentMatches(x, category)))
    ensures !CategoryActive(view, category) ==> r == Filter(data, (x: Item) => NameMatches(x, query))
  {
    var byName := Filter(data, (x: Item) => NameMatches(x, query));
    if CategoryActive(view, category) then Filter(byName, (x: Item) => DepartmentMatches(x, category))
    else byName
  }

  /** Filtering keeps the order of the fetched data. */
  lemma FilteredKeepsOrder(data: seq<Item>, query: string, category: string, view: View,
                           before: (Item, Item) -> bool)
    requires Chain(data, before)
    ensures Chain(Filtered(data, query, category, view), before)
  {
    var byName := Filter(data, (x: Item) => NameMatches(x, query));
    FilterKeepsChain(data, (x: Item) => NameMatches(x, query), before);
    if CategoryActive(view, category) {
      FilterKeepsChain(byName, (x: Item) => DepartmentMatches(x, category), before);
    }
  }

  /** `Math.ceil(filtered.length / 10)`: zero pages when nothing matches. */
  function TotalPages(n: nat): (t: nat)
    ensures n == 0 ==> t == 0
    ensures n > 0 ==> (t - 1) * ItemsPerPage < n <= t * ItemsPerPage
  {
    CeilDiv(n, ItemsPerPage)
  }

  /** Pages 1 to `TotalPages` list every filtered item exactly once, in order. */
  lemma PagesCoverAll(items: seq<Item>)
    ensures PagesUpTo(items, TotalPages(|items|), ItemsPerPage) == items
  {
    PagesCover(items, TotalPages(|items|), ItemsPerPage);
  }

  /** The Verified badge of `getBadges`: the first web page mentions ".edu" or ".ac". */
  predicate Verified(item: Item)
    ensures Verified(item) <==>
      |item.webPages| > 0 && (Contains(item.webPages[0], ".edu") || Contains(item.webPages[0], ".ac"))
  {
    |item.webPages| > 0 && (Contains(item.webPages[0], ".edu") || Contains(item.webPages[0], ".ac"))
  }

  /** A university without web pages is never verified; one whose first page ends in ".edu" is. */
  lemma VerifiedCases(item: Item)
    ensures item.webPages == [] ==> !Verified(item)
    ensures |item.webPages| > 0 && EndsWith(item.webPages[0], ".edu") ==> Verified(item)
  {
    if |item.webPages| > 0 && EndsWith(item.webPages[0], ".edu") {
      EndsWithContains(item.webPages[0], ".edu");
    }
  }

  /** A marker anywhere in the first page earns the badge: ".ac" inside the host, or ".edu"
      before a trailing slash. */
  lemma VerifiedExamples()
    ensures Verified(Item(Some("Oxford"), None, ["http://www.ox.ac.uk/"]))
    ensures Verified(Item(Some("MIT"), None, ["http://www.mit.edu/"]))
  {
    assert OccursAt("http://www.ox.ac.uk/", ".ac", 13);
    assert OccursAt("http://www.mit.edu/", ".edu", 14);
  }

  /** Only the first web page decides the badge. */
  lemma VerifiedByFirstPage(item: Item, more: seq<string>)
    requires |item.webPages| > 0
    ensures Verified(item.(webPages := item.webPages + more)) == Verified(item)
  {
    assert (item.webPages + more)[0] == item.webPages[0];
  }

  /** `toggleLike`: removes every copy of a liked name, or appends a name not yet liked. */
  function ToggledLikes(liked: seq<string>, name: string): (r: seq<string>)
    ensures name in r <==> name !in liked
    ensures forall x :: x != name ==> (x in r <==> x in liked)
  {
    if name in liked then Filter(liked, (x: string) => x != name) else liked + [name]
  }

  /** Toggling a name that was not liked, twice, gives back exactly the same list. */
  lemma ToggleTwiceRestores(liked: seq<string>, name: string)
    requires name !in liked
    ensures ToggledLikes(ToggledLikes(liked, name), name) == liked
  {
    var once := liked + [name];
    assert name in once;
    FilterConcat(liked, [name], (x: string) => x != name);
    FilterAll(liked, (x: string) => x != name);
    FilterNone([name], (x: string) => x != name);
  }

  /** Toggling any name twice gives back the same set of liked names. */
  lemma ToggleTwiceSameNames(liked: seq<string>, name: string)
    ensures forall x :: x in ToggledLikes(ToggledLikes(liked, name), name) <==> x in liked
  {
  }

  /** A chip click: the active chip is cleared, any other chip becomes active. */
  function ClickedCategory(active: string, chip: string): (r: string)
    ensures active == chip ==> r == ""
    ensures active != chip ==> r == chip
    ensures chip != "" ==> (r == chip <==> active != chip)
  {
    if active == chip then "" else chip
  }

  /** The state of the page. */
  class ExploreState {
    var view: View
    var query: string
    var country: string
    var activeCategory: string
    var data: seq<Item>
    var liked: seq<string>
    var error: string
    var page: nat

    ghost predicate Valid()
      reads this
    {
      page >= 1
    }

    constructor ()
      ensures Valid()
      ensures view == Universities && query == "" && country == "" && activeCategory == ""
      ensures data == [] && liked == [] && error == "" && page == 1
    {
      view := Universities;
      query := "";
      country := "";
      activeCategory := "";
      data := [];
      liked := [];
      error := "";
      page := 1;
    }

    function Shown(): seq<Item>
      reads this
    {
      Filtered(data, query, activeCategory, view)
    }

    /** The items of the current page. */
    function Paginated(): (r: seq<Item>)
      requires Valid()
      reads this
      ensures |r| <= ItemsPerPage
    {
      PageOf(Shown(), page, ItemsPerPage)
    }

    /** The pagination bar appears only when more than one page of items matches. */
    predicate ShowPagination()
      reads this
      ensures ShowPagination() <==> TotalPages(|Shown()|) > 1
    {
      |Shown()| > ItemsPerPage
    }

    /** The end of `loadData`: the answer replaces the data, a failure keeps the old data and
        sets the error; either way the page returns to 1. */
    method DataLoaded(answer: Option<seq<Item>>)
      requires Valid()
      modifies this
      ensures Valid()
      ensures page == 1
      ensures data == if answer.Some? then answer.value else old(data)
      ensures error == if answer.Some? then "" else LoadFailed
      ensures view == old(view) && query == old(query) && country == old(country)
      ensures activeCategory == old(activeCategory) && liked == old(liked)
    {
      error := "";
      if answer.Some? {
        data := answer.value;
      } else {
        error := LoadFailed;
      }
      page := 1;
    }

    /** Typing a search term; the page is left where it was. */
    method SetQuery(q: string)
      requires Valid()
      modifies this
      ensures Valid()
      ensures query == q && page == old(page)
      ensures view == old(view) && country == old(country) && activeCategory == old(activeCategory)
      ensures data == old(data) && liked == old(liked) && error == old(error)
    {
      query := q;
    }

    method ToggleLike(name: string)
      requires Valid()
      modifies this
      ensures Valid()
      ensures liked == ToggledLikes(old(liked), name)
      ensures name in liked <==> name !in old(liked)
      ensures view == old(view) && query == old(query) && country == old(country)
      ensures activeCategory == old(activeCategory) && data == old(data)
      ensures error == old(error) && page == old(page)
    {
      liked := ToggledLikes(liked, name);
    }

    method ClickCategory(chip: string)
      requires Valid()
      modifies this
      ensures Valid()
      ensures activeCategory == ClickedCategory(old(activeCategory), chip)
      ensures view == old(view) && query == old(query) && country == old(country)
      ensures data == old(data) && liked == old(liked) && error == old(error) && page == old(page)
    {
      activeCategory := ClickedCategory(activeCategory, chip);
    }

    /** "Prev", disabled on page 1. */
    method PreviousPage()
      requires Valid()
      modifies this
      ensures Valid()
      ensures page == if old(page) == 1 then 1 else old(page) - 1
      ensures view == old(view) && query == old(query) && country == old(country)
      ensures activeCategory == old(activeCategory) && data == old(data)
      ensures liked == old(liked) && error == old(error)
    {
      if page != 1 {
        page := page - 1;
      }
    }

    /** "Next", disabled on the last page; from a page before the last it stays within range. */
    method NextPage()
      requires Valid()
      modifies this
      ensures Valid()
      ensures page == if old(page) == TotalPages(|Shown()|) then old(page) else old(page) + 1
      ensures old(page) < TotalPages(|Shown()|) ==> page <= TotalPages(|Shown()|)
      ensures view == old(view) && query == old(query) && country == old(country)
      ensures activeCategory == old(activeCategory) && data == old(data)
      ensures liked == old(liked) && error == old(error)
    {
      if page != TotalPages(|Filtered(data, query, activeCategory, view)|) {
        page := page + 1;
      }
    }
  }
}

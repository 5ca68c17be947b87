/** frontend/profstars-frontend/src/pages/Home.jsx: the landing page's university browser
    (a country, a search box and pages of twelve) and its list of recently added
    professors. The page's state is a class; the list arithmetic is functions on it.
    Fetching is outside the model: a fetched list arrives through `UniversitiesFetched`. */
module Home {
  import opened Common
  import opened Text

  const UniversitiesPerPage: nat := 12
  const ShownProfessors: nat := 6

  /** A university as the page receives it; `name` may be missing. */
  datatype UniversityItem = UniversityItem(name: Option<string>, country: string)

  /** A recent professor as the page receives it; `name` may be missing. */
  datatype ProfessorItem = ProfessorItem(id: nat, name: Option<string>)

  /** `uni.name?.toLowerCase().includes(query.toLowerCase())`: a missing name never matches. */
  predicate NameMatches(name: Option<string>, query: string)
  {
    name.Some? && Contains(Lower(name.value), Lower(query))
  }

  /** `filteredUniversities`. */
  function FilterUniversities(unis: seq<UniversityItem>, query: string): (r: seq<UniversityItem>)
    ensures forall u :: u in r <==> u in unis && NameMatches(u.name, query)
  {
    Filter(unis, (u: UniversityItem) => NameMatches(u.name, query))
  }

  /** An empty query keeps every university that has a name, in order. */
  lemma EmptyQueryKeepsNamed(unis: seq<UniversityItem>)
    ensures FilterUniversities(unis, "") == Filter(unis, (u: UniversityItem) => u.name.Some?)
  {
    forall i | 0 <= i < |unis| && unis[i].name.Some?
      ensures NameMatches(unis[i].name, "")
    {
      assert Lower("") == "";
      ContainsEmpty(Lower(unis[i].name.value));
    }
    FilterSame(unis, (u: UniversityItem) => NameMatches(u.name, ""), (u: UniversityItem) => u.name.Some?);
  }

  /** `Math.max(1, Math.ceil(n / 12))`: there is always at least one page. */
  function TotalPages(n: nat): (t: nat)
    ensures t >= 1
    ensures n == 0 ==> t == 1
    ensures n > 0 ==> (t - 1) * UniversitiesPerPage < n <= t * UniversitiesPerPage
  {
    Max(1, CeilDiv(n, UniversitiesPerPage))
  }

  /** `filtered.slice((currentPage - 1) * 12, currentPage * 12)`. */
  function Page<T>(items: seq<T>, page: nat): (r: seq<T>)
    requires page >= 1
    ensures |r| <= UniversitiesPerPage
    ensures |r| == Max(0, Min(page * UniversitiesPerPage, |items|) - Min((page - 1) * UniversitiesPerPage, |items|))
    ensures forall i :: 0 <= i < |r| ==>
      (page - 1) * UniversitiesPerPage + i < |items| && r[i] == items[(page - 1) * UniversitiesPerPage + i]
  {
    PageOf(items, page, UniversitiesPerPage)
  }

  /** Pages 1 to `TotalPages` list every item exactly once, in order. */
  lemma PagesCoverAll<T>(items: seq<T>)
    ensures PagesUpTo(items, TotalPages(|items|), UniversitiesPerPage) == items
  {
    PagesCover(items, TotalPages(|items|), UniversitiesPerPage);
  }

  /** A recent professor is shown when the name contains the professor search, ignoring case. */
  function ProfessorsShown(recent: seq<ProfessorItem>, search: string): (r: seq<ProfessorItem>)
    ensures |r| == Min(ShownProfessors, |Filter(recent, (p: ProfessorItem) => NameMatches(p.name, search))|)
    ensures forall i :: 0 <= i < |r| ==>
      r[i] == Filter(recent, (p: ProfessorItem) => NameMatches(p.name, search))[i]
    ensures forall i :: 0 <= i < |r| ==> r[i] in recent && NameMatches(r[i].name, search)
  {
    var matching := Filter(recent, (p: ProfessorItem) => NameMatches(p.name, search));
    var r := Take(matching, ShownProfessors);
    assert forall i :: 0 <= i < |r| ==> r[i] == matching[i] && matching[i] in matching;
    r
  }

  /** The state of the page. */
  class HomeState {
    var universities: seq<UniversityItem>
    var selectedCountry: string
    var searchQuery: string
    var currentPage: nat
    var recentProfessors: seq<ProfessorItem>
    var professorSearch: string

    ghost predicate Valid()
      reads this
    {
      currentPage >= 1
    }

    constructor ()
      ensures Valid()
      ensures universities == [] && selectedCountry == "" && searchQuery == "" && currentPage == 1
      ensures recentProfessors == [] && professorSearch == ""
    {
      universities := [];
      selectedCountry := "";
      searchQuery := "";
      currentPage := 1;
      recentProfessors := [];
      professorSearch := "";
    }

    function Filtered(): seq<UniversityItem>
      reads this
    {
      FilterUniversities(universities, searchQuery)
    }

    /** The universities on the current page. */
    function Paginated(): (r: seq<UniversityItem>)
      requires Valid()
      reads this
      ensures |r| <= UniversitiesPerPage
    {
      Page(Filtered(), currentPage)
    }

    /** `handlePageChange`: moves only to a page that exists. */
    method HandlePageChange(page: int)
      requires Valid()
      modifies this
      ensures Valid()
      ensures currentPage == if 1 <= page <= TotalPages(|Filtered()|) then page else old(currentPage)
      ensures currentPage <= TotalPages(|Filtered()|) || currentPage == old(currentPage)
      ensures universities == old(universities) && searchQuery == old(searchQuery)
      ensures selectedCountry == old(selectedCountry)
      ensures recentProfessors == old(recentProfessors) && professorSearch == old(professorSearch)
    {
      if 1 <= page <= TotalPages(|FilterUniversities(universities, searchQuery)|) {
        currentPage := page;
      }
    }

    /** Choosing a country: the search and the page are reset, and with no country the list
        is emptied (otherwise a fetch starts and its answer arrives later). */
    method SelectCountry(country: string)
      requires Valid()
      modifies this
      ensures Valid()
      ensures selectedCountry == country && searchQuery == "" && currentPage == 1
      ensures universities == if country == "" then [] else old(universities)
      ensures recentProfessors == old(recentProfessors) && professorSearch == old(professorSearch)
    {
      selectedCountry := country;
      searchQuery := "";
      currentPage := 1;
      if country == "" {
        universities := [];
      }
    }

    /** Typing in the university search returns to the first page. */
    method SetSearchQuery(query: string)
      requires Valid()
      modifies this
      ensures Valid()
      ensures searchQuery == query && currentPage == 1
      ensures universities == old(universities) && selectedCountry == old(selectedCountry)
      ensures recentProfessors == old(recentProfessors) && professorSearch == old(professorSearch)
    {
      searchQuery := query;
      currentPage := 1;
    }

    /** The answer of the university fetch: the list, or an empty list when the fetch failed. */
    method UniversitiesFetched(answer: Option<seq<UniversityItem>>)
      requires Valid()
      modifies this
      ensures Valid()
      ensures universities == if answer.Some? then answer.value else []
      ensures selectedCountry == old(selectedCountry) && searchQuery == old(searchQuery)
      ensures currentPage == old(currentPage)
      ensures recentProfessors == old(recentProfessors) && professorSearch == old(professorSearch)
    {
      universities := if answer.Some? then answer.value else [];
    }
  }
}

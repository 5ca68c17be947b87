/** frontend/profstars-frontend/src/pages/StudentDashboard.jsx: the student's professor list
    under three filters (name search, country, university) and the transitions of those
    filters. Fetching is outside the model: a fetched university list arrives through
    `UniversitiesFetched`. */
module StudentDashboard {
  import opened Common
  import opened Text

  /** A professor as the page receives it; `country` and `university` may be missing. */
  datatype ProfessorItem = ProfessorItem(id: nat, name: string, country: Option<string>, university: Option<string>)

  /** `a && a.toLowerCase().includes(b.toLowerCase())`: a missing or empty field fails. */
  predicate FieldContains(field: Option<string>, filter: string)
  {
    field.Some? && field.value != "" && Contains(Lower(field.value), Lower(filter))
  }

  /** The test of `filteredProfessors`; an empty country or university filter is off. */
  predicate Shown(p: ProfessorItem, search: string, country: string, university: string)
  {
    && Contains(Lower(p.name), Lower(search))
    && (country == "" || FieldContains(p.country, country))
    && (university == "" || FieldContains(p.university, university))
  }

  function FilterProfessors(professors: seq<ProfessorItem>, search: string, country: string, university: string)
    : (r: seq<ProfessorItem>)
    ensures forall p :: p in r <==> p in professors && Shown(p, search, country, university)
  {
    Filter(professors, (p: ProfessorItem) => Shown(p, search, country, university))
  }

  /** With all three filters empty every professor is shown, in the original order. */
  lemma NoFiltersShowsAll(professors: seq<ProfessorItem>)
    ensures FilterProfessors(professors, "", "", "") == professors
  {
    assert Lower("") == "";
    forall i | 0 <= i < |professors|
      ensures Shown(professors[i], "", "", "")
    {
      ContainsEmpty(Lower(professors[i].name));
    }
    FilterAll(professors, (p: ProfessorItem) => Shown(p, "", "", ""));
  }

  /** With a country filter set, a professor without a country is never shown. */
  lemma CountryFilterExcludesMissing(professors: seq<ProfessorItem>, search: string, country: string, university: string)
    requires country != ""
    ensures forall p :: p in FilterProfessors(professors, search, country, university) ==> p.country.Some?
  {
  }

  /** Adding a filter never shows more professors. */
  lemma {:induction false} UniversityFilterNarrows(professors: seq<ProfessorItem>, search: string, country: string, university: string)
    ensures |FilterProfessors(professors, search, country, university)| <= |FilterProfessors(professors, search, country, "")|
  {
    if professors != [] {
      UniversityFilterNarrows(professors[1..], search, country, university);
    }
  }

  /** The filter state of the page. */
  class FilterState {
    var professors: seq<ProfessorItem>
    var universities: seq<string>
    var search: string
    var filterCountry: string
    var filterUniversity: string

    constructor ()
      ensures professors == [] && universities == [] && search == "" && filterCountry == "" && filterUniversity == ""
    {
      professors := [];
      universities := [];
      search := "";
      filterCountry := "";
      filterUniversity := "";
    }

    function Filtered(): seq<ProfessorItem>
      reads this
    {
      FilterProfessors(professors, search, filterCountry, filterUniversity)
    }

    /** Choosing a different country, or clearing it, empties the university list and the
        university filter. */
    method SetFilterCountry(country: string)
      modifies this
      ensures filterCountry == country
      ensures country != old(filterCountry) ==> universities == [] && filterUniversity == ""
      ensures country == old(filterCountry) ==>
        universities == old(universities) && filterUniversity == old(filterUniversity)
      ensures professors == old(professors) && search == old(search)
    {
      if country != filterCountry {
        filterCountry := country;
        universities := [];
        filterUniversity := "";
      }
    }

    method SetSearch(s: string)
      modifies this
      ensures search == s
      ensures professors == old(professors) && universities == old(universities)
      ensures filterCountry == old(filterCountry) && filterUniversity == old(filterUniversity)
    {
      search := s;
    }

    /** The university select is disabled until a country is chosen. */
    method SetFilterUniversity(university: string)
      requires filterCountry != ""
      modifies this
      ensures filterUniversity == university
      ensures professors == old(professors) && universities == old(universities)
      ensures filterCountry == old(filterCountry) && search == old(search)
    {
      filterUniversity := university;
    }

    /** The university fetch for the chosen country: a non-empty answer, or nothing. */
    method UniversitiesFetched(answer: Option<seq<string>>)
      modifies this
      ensures universities == if answer.Some? && |answer.value| > 0 then answer.value else []
      ensures professors == old(professors) && search == old(search)
      ensures filterCountry == old(filterCountry) && filterUniversity == old(filterUniversity)
    {
      universities := if answer.Some? && |answer.value| > 0 then answer.value else [];
    }

    /** "Clear Filters": all three filters empty, so every professor is shown again. */
    method ClearFilters()
      modifies this
      ensures search == "" && filterCountry == "" && filterUniversity == ""
      ensures universities == if old(filterCountry) != "" then [] else old(universities)
      ensures professors == old(professors)
      ensures Filtered() == professors
    {
      search := "";
      SetFilterCountry("");
      filterUniversity := "";
      NoFiltersShowsAll(professors);
    }
  }
}

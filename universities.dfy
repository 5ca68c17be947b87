/** backend/routes/universities.js: the university list of a country, merged from the
    public university API and the universities users have added, and the route that
    adds a university. The `University` schema of backend/models/University.js is
    folded in here. The API call and the geocoding of each entry are network I/O: the
    API's answer is a parameter (None when the call failed) and coordinates are not
    modelled. */
module Universities {
  import opened Common
  import opened Text

  /** An entry as the university API returns it (the fields the merge uses). */
  datatype ApiUniversity = ApiUniversity(
    name: string, country: string, domains: seq<string>, webPages: seq<string>, alphaTwoCode: string)

  /** A stored university added by a user. */
  datatype DbUniversity = DbUniversity(id: nat, name: string, country: string, addedBy: string)

  /** `apiUniversities.some(apiUni => apiUni.name.toLowerCase() === name.toLowerCase())`. */
  predicate KnownToApi(api: seq<ApiUniversity>, name: string)
  {
    exists i :: 0 <= i < |api| && Lower(api[i].name) == Lower(name)
  }

  function KnownToApiCheck(api: seq<ApiUniversity>, name: string): (b: bool)
    ensures b <==> KnownToApi(api, name)
  {
    FirstIndex(api, (a: ApiUniversity) => Lower(a.name) == Lower(name)).Some?
  }

  /** The entry pushed for a stored university: no domains or web pages, and the first two
      characters of the country, upper-cased, as its code. */
  function FromDb(d: DbUniversity): (a: ApiUniversity)
    ensures a.name == d.name && a.country == d.country && a.domains == [] && a.webPages == []
    ensures |a.alphaTwoCode| == Min(2, |d.country|)
    ensures forall k :: 0 <= k < |a.alphaTwoCode| ==> a.alphaTwoCode[k] == UpperChar(d.country[k])
  {
    ApiUniversity(d.name, d.country, [], [], Upper(Take(d.country, 2)))
  }

  /** The stored universities the merge appends, in their order. */
  function Appended(api: seq<ApiUniversity>, db: seq<DbUniversity>): seq<ApiUniversity>
  {
    if db == [] then []
    else (if KnownToApi(api, db[0].name) then [] else [FromDb(db[0])]) + Appended(api, db[1..])
  }

  /** The merged list: every API entry in its order, then the stored universities the API
      does not name. */
  function Merged(api: seq<ApiUniversity>, db: seq<DbUniversity>): seq<ApiUniversity>
  {
    api + Appended(api, db)
  }

  lemma {:induction false} AppendedSnoc(api: seq<ApiUniversity>, db: seq<DbUniversity>, d: DbUniversity)
    ensures Appended(api, db + [d]) ==
      Appended(api, db) + (if KnownToApi(api, d.name) then [] else [FromDb(d)])
  {
    if db == [] {
      assert [d][1..] == [];
    } else {
      assert (db + [d])[1..] == db[1..] + [d];
      AppendedSnoc(api, db[1..], d);
    }
  }

  /** A stored university is appended exactly when no API entry has its name, ignoring case,
      and everything appended comes from such a university. */
  lemma {:induction false} AppendedMembers(api: seq<ApiUniversity>, db: seq<DbUniversity>)
    ensures forall d :: d in db && !KnownToApi(api, d.name) ==> FromDb(d) in Appended(api, db)
    ensures forall a :: a in Appended(api, db) ==>
      exists d :: d in db && !KnownToApi(api, d.name) && a == FromDb(d)
  {
    if db != [] {
      AppendedMembers(api, db[1..]);
      forall a | a in Appended(api, db)
        ensures exists d :: d in db && !KnownToApi(api, d.name) && a == FromDb(d)
      {
        if a !in Appended(api, db[1..]) {
          assert a == FromDb(db[0]);
        } else {
          var d :| d in db[1..] && !KnownToApi(api, d.name) && a == FromDb(d);
          assert d in db;
        }
      }
    }
  }

  /** A stored university whose name an API entry carries, in any case, is not appended. */
  lemma KnownNotAppended(api: seq<ApiUniversity>, db: seq<DbUniversity>, d: DbUniversity, i: nat)
    requires i < |api| && Lower(api[i].name) == Lower(d.name)
    ensures FromDb(d) !in Appended(api, db)
  {
    AppendedMembers(api, db);
    assert forall e :: FromDb(e) == FromDb(d) ==> KnownToApi(api, e.name);
  }

  /** Stored universities are compared with the API entries only, never with each other:
      two stored universities of the same name are both appended. */
  lemma StoredTwinsBothAppended(api: seq<ApiUniversity>, d1: DbUniversity, d2: DbUniversity)
    requires d1.name == d2.name && !KnownToApi(api, d1.name)
    ensures Appended(api, [d1, d2]) == [FromDb(d1), FromDb(d2)]
  {
    assert [d1, d2][1..] == [d2];
    assert [d2][1..] == [];
    assert Appended(api, [d2]) == [FromDb(d2)];
  }

  /** With no API entries the merged list is every stored university, in order. */
  lemma {:induction false} ApiDownGivesDb(db: seq<DbUniversity>)
    ensures Merged([], db) == seq(|db|, i requires 0 <= i < |db| => FromDb(db[i]))
  {
    if db != [] {
      ApiDownGivesDb(db[1..]);
      assert !KnownToApi([], db[0].name);
      assert Merged([], db) == [FromDb(db[0])] + Merged([], db[1..]);
    }
  }

  /** The merge loop of GET `/:country`: start from the API entries and push each stored
      university the API does not name. */
  method MergeUniversities(api: seq<ApiUniversity>, db: seq<DbUniversity>) returns (all: seq<ApiUniversity>)
    ensures all == Merged(api, db)
    ensures |all| >= |api| && all[..|api|] == api
  {
    all := api;
    var i := 0;
    while i < |db|
      invariant 0 <= i <= |db|
      invariant all == api + Appended(api, db[..i])
    {
      var dbUni := db[i];
      var known := KnownToApiCheck(api, dbUni.name);
      AppendedSnoc(api, db[..i], dbUni);
      assert db[..i + 1] == db[..i] + [dbUni];
      if !known {
        all := all + [FromDb(dbUni)];
      }
      i := i + 1;
    }
    assert db[..i] == db;
  }

  /** `University.find({ country })`; the query value goes through the `trim` setter. */
  function StoredIn(db: seq<DbUniversity>, country: string): (r: seq<DbUniversity>)
    ensures forall d :: d in r <==> d in db && d.country == Trim(country)
  {
    Filter(db, (d: DbUniversity) => d.country == Trim(country))
  }

  datatype UniversityResponse =
    | UniversityList(universities: seq<ApiUniversity>)
    | Status(code: nat, message: string)
    | Existing(message: string, university: DbUniversity)
    | Added(message: string, university: DbUniversity)

  /** GET `/:country`: a failed API call counts as an empty answer. */
  method CountryUniversities(api: Option<seq<ApiUniversity>>, db: seq<DbUniversity>, country: string)
    returns (r: UniversityResponse)
    ensures r == UniversityList(Merged(if api.Some? then api.value else [], StoredIn(db, country)))
    ensures api.None? ==> (r.universities == seq(|StoredIn(db, country)|,
      i requires 0 <= i < |StoredIn(db, country)| => FromDb(StoredIn(db, country)[i])))
  {
    var fetched := if api.Some? then api.value else [];
    var all := MergeUniversities(fetched, StoredIn(db, country));
    if api.None? {
      ApiDownGivesDb(StoredIn(db, country));
    }
    r := UniversityList(all);
  }

  /** The `findOne` of POST `/add`: the name compared whole and ignoring case (with the
      request's value as sent), the country after the `trim` setter. */
  predicate SameUniversity(d: DbUniversity, name: string, country: string)
  {
    Lower(d.name) == Lower(name) && d.country == Trim(country)
  }

  /** The collection invariant: increasing ids below the clock, and the unique index on
      `name` (names are compared exactly, as stored). */
  ghost predicate UniversitiesStamped(db: seq<DbUniversity>, clock: nat)
  {
    && (forall i, j :: 0 <= i < j < |db| ==> db[i].id < db[j].id)
    && (forall i, j :: 0 <= i < j < |db| ==> db[i].name != db[j].name)
    && (forall i :: 0 <= i < |db| ==> db[i].id < clock)
  }

  /** No stored university carries exactly this name. */
  predicate NameFree(db: seq<DbUniversity>, name: string)
  {
    forall i :: 0 <= i < |db| ==> db[i].name != name
  }

  /** Once a university with a trimmed name is added, looking it up again with the same
      request finds it. */
  lemma AddedIsFound(db: seq<DbUniversity>, id: nat, name: string, country: string)
    requires Trimmed(name)
    ensures exists i :: (0 <= i < |db + [DbUniversity(id, Trim(name), Trim(country), "user")]| &&
      SameUniversity((db + [DbUniversity(id, Trim(name), Trim(country), "user")])[i], name, country))
  {
    var s := db + [DbUniversity(id, Trim(name), Trim(country), "user")];
    assert SameUniversity(s[|db|], name, country);
  }

  lemma UniversitiesStampedAppend(db: seq<DbUniversity>, clock: nat, u: DbUniversity)
    requires UniversitiesStamped(db, clock)
    requires u.id == clock && NameFree(db, u.name)
    ensures UniversitiesStamped(db + [u], clock + 1)
  {
    var s := db + [u];
    forall i, j | 0 <= i < j < |s|
      ensures s[i].id < s[j].id && s[i].name != s[j].name
    {
      if j == |db| {
        assert s[i] == db[i];
      }
    }
  }

  datatype AddResult = AddResult(response: UniversityResponse, universities: seq<DbUniversity>)

  /** POST `/add` as a function of the table: insert-if-absent. An entry matching name
      (ignoring case) and country is returned and nothing is stored; otherwise the trimmed
      university is stored, unless the schema refuses it or another country already holds
      that exact name (the unique index), which ends in a server error. */
  function AddOutcome(db: seq<DbUniversity>, clock: nat, name: string, country: string): (r: AddResult)
    ensures (name == "" || country == "") ==>
      r == AddResult(Status(400, "Name and country are required."), db)
    ensures r.response.Existing? <==> (name != "" && country != "" &&
      exists i :: 0 <= i < |db| && SameUniversity(db[i], name, country))
    ensures r.response.Existing? ==> (r.response.university in db && SameUniversity(r.response.university, name, country)
      && r.response.message == "University already exists." && r.universities == db)
    ensures r.response.Added? <==>
      && name != "" && country != ""
      && (forall i :: 0 <= i < |db| ==> !SameUniversity(db[i], name, country))
      && Trim(name) != "" && Trim(country) != ""
      && NameFree(db, Trim(name))
    ensures r.response.Added? ==>
      && r.response.university == DbUniversity(clock, Trim(name), Trim(country), "user")
      && r.universities == db + [r.response.university]
      && r.response.message == "University added successfully."
    ensures !r.response.Added? ==> r.universities == db
    ensures (!r.response.Added? && !r.response.Existing? && name != "" && country != "") ==>
      r.response == Status(500, "Failed to add university")
  {
    if name == "" || country == "" then AddResult(Status(400, "Name and country are required."), db)
    else match FirstIndex(db, (d: DbUniversity) => SameUniversity(d, name, country))
      case Some(k) => AddResult(Existing("University already exists.", db[k]), db)
      case None =>
        if Trim(name) == "" || Trim(country) == "" then AddResult(Status(500, "Failed to add university"), db)
        else if FirstIndex(db, (d: DbUniversity) => d.name == Trim(name)).Some? then
          AddResult(Status(500, "Failed to add university"), db)
        else
          var u := DbUniversity(clock, Trim(name), Trim(country), "user");
          AddResult(Added("University added successfully.", u), db + [u])
  }

  class UniversityCollection {
    var universities: seq<DbUniversity>
    var clock: nat

    ghost predicate Valid()
      reads this
    {
      UniversitiesStamped(universities, clock)
    }

    constructor ()
      ensures Valid() && universities == []
    {
      universities := [];
      clock := 0;
    }

    /** POST `/add` against the stored collection. */
    method AddUniversity(name: string, country: string) returns (r: UniversityResponse)
      requires Valid()
      modifies this
      ensures Valid()
      ensures AddResult(r, universities) == AddOutcome(old(universities), old(clock), name, country)
    {
      if name == "" || country == "" {
        return Status(400, "Name and country are required.");
      }
      var found := FirstIndex(universities, (d: DbUniversity) => SameUniversity(d, name, country));
      if found.Some? {
        return Existing("University already exists.", universities[found.value]);
      }
      if Trim(name) == "" || Trim(country) == "" {
        return Status(500, "Failed to add university");
      }
      var taken := FirstIndex(universities, (d: DbUniversity) => d.name == Trim(name));
      if taken.Some? {
        return Status(500, "Failed to add university");
      }
      var u := DbUniversity(clock, Trim(name), Trim(country), "user");
      UniversitiesStampedAppend(universities, clock, u);
      universities := universities + [u];
      clock := clock + 1;
      r := Added("University added successfully.", u);
    }
  }
}

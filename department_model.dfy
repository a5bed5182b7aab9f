/** campus-connect-backend-main/models/Department.js: the department record,
    the casts and constraints its schema applies, and `incrementSearch`. The
    collection is a sequence of records in insertion order, each with a
    distinct id. */
module DepartmentModel {
  import opened Strings

  const WEEKDAYS: seq<string> := ["Sunday", "Monday", "Tuesday", "Wednesday", "Thursday", "Friday", "Saturday"]

  datatype Contact = Contact(phone: Option<string>, email: Option<string>, office: Option<string>)
  datatype Hod = Hod(name: Option<string>, email: Option<string>, cabin: Option<string>)
  datatype Hours = Hours(open: Option<string>, close: Option<string>)
  datatype VisitingHours = VisitingHours(weekdays: Hours, saturday: Hours, closedDays: seq<string>)
  datatype Photo = Photo(url: Option<string>, caption: Option<string>)

  /** A stored department; `None` is a field that is not set. */
  datatype Department = Department(
    id: nat,
    name: Option<string>,
    code: Option<string>,
    building: Option<string>,
    floor: Option<real>,
    roomNumbers: seq<string>,
    latitude: Option<real>,
    longitude: Option<real>,
    mapLink: Option<string>,
    photo360Link: Option<string>,
    contact: Contact,
    hod: Hod,
    visitingHours: VisitingHours,
    photos: seq<Photo>,
    searchCount: int,
    description: Option<string>)

  // ---------------------------------------------------------------------------
  // Casts: `trim`, `uppercase`, `lowercase`
  // ---------------------------------------------------------------------------

  function TrimmedOpt(s: Option<string>): Option<string> {
    if s.Some? then Some(Trim(s.value)) else None
  }

  function UpperTrimmedOpt(s: Option<string>): Option<string> {
    if s.Some? then Some(Trim(ToUpper(s.value))) else None
  }

  function LowerTrimmedOpt(s: Option<string>): Option<string> {
    if s.Some? then Some(Trim(ToLower(s.value))) else None
  }

  // ---------------------------------------------------------------------------
  // Constraints, one check per path; each yields the path when it fails
  // ---------------------------------------------------------------------------

  /** `^[\d\+\-\s\(\)]+$` */
  predicate IsPhoneText(s: string) {
    |s| > 0 && forall i :: 0 <= i < |s| ==> IsDigit(s[i]) || s[i] in "+-()" || IsSpace(s[i])
  }

  /** A required text field: set and not empty. */
  predicate Present(s: Option<string>) { s.Some? && s.value != "" }

  predicate NameOk(name: Option<string>) { Present(name) && |name.value| >= 3 }

  predicate CodeOk(code: Option<string>) {
    Present(code) && 2 <= |code.value| <= 10 && IsCodeText(code.value)
  }

  predicate FloorOk(floor: Option<real>) { floor.Some? ==> 0.0 <= floor.value <= 10.0 }

  predicate LatitudeOk(lat: Option<real>) { lat.Some? && -90.0 <= lat.value <= 90.0 }

  predicate LongitudeOk(lon: Option<real>) { lon.Some? && -180.0 <= lon.value <= 180.0 }

  /** A `match` rule is not applied to an unset or empty value. */
  predicate PhoneOk(phone: Option<string>) { Present(phone) ==> IsPhoneText(phone.value) }

  predicate EmailOk(email: Option<string>) { Present(email) ==> LooksLikeEmail(email.value) }

  predicate ClosedDaysOk(days: seq<string>) { forall i :: 0 <= i < |days| ==> days[i] in WEEKDAYS }

  predicate PhotosOk(photos: seq<Photo>) { forall i :: 0 <= i < |photos| ==> Present(photos[i].url) }

  function Check(ok: bool, path: string): seq<string> { if ok then [] else [path] }

  /** The paths that break the schema, in schema order. */
  function SchemaErrors(d: Department): (paths: seq<string>)
    ensures paths == [] <==> SchemaValid(d)
  {
    Check(NameOk(d.name), "name")
    + Check(CodeOk(d.code), "code")
    + Check(FloorOk(d.floor), "floor")
    + Check(LatitudeOk(d.latitude), "latitude")
    + Check(LongitudeOk(d.longitude), "longitude")
    + Check(PhoneOk(d.contact.phone), "contact.phone")
    + Check(EmailOk(d.contact.email), "contact.email")
    + Check(EmailOk(d.hod.email), "hod.email")
    + Check(ClosedDaysOk(d.visitingHours.closedDays), "visitingHours.closedDays")
    + Check(PhotosOk(d.photos), "photos")
    + Check(d.searchCount >= 0, "searchCount")
  }

  /** The schema's constraints on a record. */
  predicate SchemaValid(d: Department) {
    NameOk(d.name) && CodeOk(d.code) && FloorOk(d.floor)
    && LatitudeOk(d.latitude) && LongitudeOk(d.longitude)
    && PhoneOk(d.contact.phone) && EmailOk(d.contact.email) && EmailOk(d.hod.email)
    && ClosedDaysOk(d.visitingHours.closedDays) && PhotosOk(d.photos)
    && d.searchCount >= 0
  }

  /** A department that passes the schema has a name of at least three
      characters, a code of 2 to 10 upper-case letters and digits, coordinates
      in range, a floor between 0 and 10 if any, weekday names as closed days
      and a search count that is not negative. */
  lemma ValidDepartmentBounds(d: Department)
    requires SchemaErrors(d) == []
    ensures |d.name.value| >= 3 && 2 <= |d.code.value| <= 10
    ensures forall i :: 0 <= i < |d.code.value| ==> IsAsciiUpper(d.code.value[i]) || IsDigit(d.code.value[i])
    ensures -90.0 <= d.latitude.value <= 90.0 && -180.0 <= d.longitude.value <= 180.0
    ensures d.floor.Some? ==> 0.0 <= d.floor.value <= 10.0
    ensures forall i :: 0 <= i < |d.visitingHours.closedDays| ==> d.visitingHours.closedDays[i] in WEEKDAYS
    ensures d.searchCount >= 0
  {
  }

  // ---------------------------------------------------------------------------
  // incrementSearch
  // ---------------------------------------------------------------------------

  /** The record after `this.searchCount += 1`. */
  function Bumped(d: Department): (e: Department)
    ensures e.searchCount == d.searchCount + 1
    ensures e.(searchCount := d.searchCount) == d
  {
    d.(searchCount := d.searchCount + 1)
  }

  /** Raising the count never breaks the schema, so the save that follows succeeds. */
  lemma BumpedStaysValid(d: Department)
    requires SchemaValid(d)
    ensures SchemaValid(Bumped(d))
  {
  }

  // ---------------------------------------------------------------------------
  // The collection
  // ---------------------------------------------------------------------------

  predicate IdsIncreasing(rows: seq<Department>) {
    forall i, j :: 0 <= i < j < |rows| ==> rows[i].id < rows[j].id
  }

  /** The unique index on `code`. */
  predicate CodesDistinct(rows: seq<Department>) {
    forall i, j :: 0 <= i < j < |rows| ==> rows[i].code != rows[j].code
  }

  predicate AllValid(rows: seq<Department>) {
    forall i :: 0 <= i < |rows| ==> SchemaValid(rows[i])
  }

  /** The position of the record with `id`. */
  function Find(rows: seq<Department>, id: nat): (r: Option<nat>)
    ensures r.Some? ==> r.value < |rows| && rows[r.value].id == id
    ensures r.None? ==> forall i :: 0 <= i < |rows| ==> rows[i].id != id
  {
    if rows == [] then None
    else if rows[|rows| - 1].id == id then Some(|rows| - 1)
    else Find(rows[..|rows| - 1], id)
  }

  /** Some stored record carries `code`. */
  predicate CodeTaken(rows: seq<Department>, code: string) {
    exists i :: 0 <= i < |rows| && rows[i].code == Some(code)
  }

  /** The sequence without position `i`. */
  function RemoveAt(rows: seq<Department>, i: nat): (r: seq<Department>)
    requires i < |rows|
    ensures |r| == |rows| - 1
    ensures forall k :: 0 <= k < i ==> r[k] == rows[k]
    ensures forall k :: i <= k < |r| ==> r[k] == rows[k + 1]
  {
    rows[..i] + rows[i + 1..]
  }

  function IdList(s: seq<Department>): (ids: seq<nat>)
    ensures |ids| == |s| && forall i :: 0 <= i < |s| ==> ids[i] == s[i].id
  {
    seq(|s|, i requires 0 <= i < |s| => s[i].id)
  }

  /** Each record's search count raised by the number of times its id occurs in `ids`. */
  function BumpCounts(rows: seq<Department>, ids: multiset<nat>): (r: seq<Department>)
    ensures |r| == |rows|
    ensures forall i :: 0 <= i < |rows| ==> r[i] == rows[i].(searchCount := rows[i].searchCount + ids[rows[i].id])
  {
    seq(|rows|, i requires 0 <= i < |rows| => rows[i].(searchCount := rows[i].searchCount + ids[rows[i].id]))
  }

  lemma BumpNothing(rows: seq<Department>)
    ensures BumpCounts(rows, multiset{}) == rows
  {
  }

  /** One more bump of the record at `i`, whose id no other record has. */
  lemma BumpStep(start: seq<Department>, m: multiset<nat>, i: nat)
    requires IdsIncreasing(start) && i < |start|
    ensures var b := BumpCounts(start, m);
            b[i := Bumped(b[i])] == BumpCounts(start, m + multiset{start[i].id})
  {
    var b := BumpCounts(start, m);
    var c := BumpCounts(start, m + multiset{start[i].id});
    forall j | 0 <= j < |start| ensures b[i := Bumped(b[i])][j] == c[j] {
      if j != i {
        assert start[j].id != start[i].id by {
          if j < i { assert start[j].id < start[i].id; } else { assert start[i].id < start[j].id; }
        }
      }
    }
  }

  class DepartmentStore {
    var rows: seq<Department>
    var nextId: nat

    ghost predicate Valid()
      reads this
    {
      (forall i :: 0 <= i < |rows| ==> rows[i].id < nextId)
      && IdsIncreasing(rows) && CodesDistinct(rows) && AllValid(rows)
    }

    constructor()
      ensures rows == [] && nextId == 0 && Valid()
    {
      rows := [];
      nextId := 0;
    }

    /** `department.incrementSearch()` on the record at position `i`. */
    method IncrementSearch(i: nat)
      requires Valid() && i < |rows|
      modifies this
      ensures rows == old(rows)[i := Bumped(old(rows)[i])] && nextId == old(nextId)
      ensures Valid()
    {
      BumpedStaysValid(rows[i]);
      rows := rows[i := Bumped(rows[i])];
    }

    /** `records.forEach(dept => dept.incrementSearch())` for the records with these ids. */
    method IncrementSearchAll(ids: seq<nat>)
      requires Valid()
      modifies this
      ensures rows == BumpCounts(old(rows), multiset(ids)) && nextId == old(nextId)
      ensures Valid()
    {
      ghost var start := rows;
      BumpNothing(rows);
      for k := 0 to |ids|
        invariant Valid() && nextId == old(nextId)
        invariant rows == BumpCounts(start, multiset(ids[..k]))
      {
        assert ids[..k + 1] == ids[..k] + [ids[k]];
        var found := Find(rows, ids[k]);
        if found.Some? {
          BumpStep(start, multiset(ids[..k]), found.value);
          IncrementSearch(found.value);
        } else {
          assert BumpCounts(start, multiset(ids[..k + 1])) == BumpCounts(start, multiset(ids[..k])) by {
            assert forall j :: 0 <= j < |start| ==> start[j].id == rows[j].id;
          }
        }
      }
      assert ids[..|ids|] == ids;
    }

    /** `Department.create(value)` once the record passes the schema and its
        code is free: it is stored last, under a fresh id. */
    method Insert(d: Department) returns (stored: Department)
      requires Valid() && SchemaValid(d) && d.code.Some? && !CodeTaken(rows, d.code.value)
      modifies this
      ensures stored == d.(id := old(nextId))
      ensures rows == old(rows) + [stored] && nextId == old(nextId) + 1
      ensures Valid()
    {
      stored := d.(id := nextId);
      rows := rows + [stored];
      nextId := nextId + 1;
    }

    /** Overwrites the record at position `i` with `d`, which keeps its id. */
    method Replace(i: nat, d: Department)
      requires Valid() && i < |rows| && d.id == rows[i].id && SchemaValid(d)
      requires forall k :: 0 <= k < |rows| && k != i ==> rows[k].code != d.code
      modifies this
      ensures rows == old(rows)[i := d] && nextId == old(nextId)
      ensures Valid()
    {
      rows := rows[i := d];
    }

    /** Removes the record at position `i`. */
    method Delete(i: nat)
      requires Valid() && i < |rows|
      modifies this
      ensures rows == RemoveAt(old(rows), i) && nextId == old(nextId)
      ensures Valid()
    {
      rows := RemoveAt(rows, i);
    }
  }
}

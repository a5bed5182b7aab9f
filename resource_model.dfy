/** campus-connect-backend-main/models/Resource.js: the study-resource record,
    the casts and constraints of its schema, and the three counter methods
    `incrementViews`, `incrementDownloads` and `addRating`. The collection is
    a sequence of records in insertion order; ids grow with insertion, so the
    id order is the `createdAt` order. */
module ResourceModel {
  import opened Strings

  const FILE_TYPES: seq<string> := ["pdf", "doc", "ppt", "image", "video", "other"]
  const CATEGORIES: seq<string> := ["notes", "assignments", "previous-papers", "lab-manual", "syllabus", "other"]
  const STATUSES: seq<string> := ["pending", "approved", "rejected"]

  const RATING_MESSAGE := "Rating must be an integer between 1 and 5"

  /** A stored resource; `None` is a field that is not set. */
  datatype Resource = Resource(
    id: nat,
    title: Option<string>,
    description: Option<string>,
    department: Option<string>,
    fileUrl: Option<string>,
    tags: seq<string>,
    fileType: Option<string>,
    category: Option<string>,
    semester: Option<int>,
    subject: Option<string>,
    uploadedBy: Option<nat>,
    status: string,
    isVerified: bool,
    downloads: int,
    views: int,
    rating: int,
    ratingCount: int)

  /** `${resource.title}` in a template string. */
  function TitleText(r: Resource): string {
    if r.title.Some? then r.title.value else "undefined"
  }

  // ---------------------------------------------------------------------------
  // Casts: `trim` and `lowercase` setters, applied before validation
  // ---------------------------------------------------------------------------

  function TrimmedOpt(s: Option<string>): Option<string> {
    if s.Some? then Some(Trim(s.value)) else None
  }

  function LowerOpt(s: Option<string>): Option<string> {
    if s.Some? then Some(ToLower(s.value)) else None
  }

  /** Each tag trimmed and lower-cased. */
  function CastTags(tags: seq<string>): (r: seq<string>)
    ensures |r| == |tags| && forall i :: 0 <= i < |tags| ==> r[i] == Trim(ToLower(tags[i]))
  {
    seq(|tags|, i requires 0 <= i < |tags| => Trim(ToLower(tags[i])))
  }

  /** The record as the setters leave it. */
  function Cast(r: Resource): Resource {
    r.(title := TrimmedOpt(r.title), description := TrimmedOpt(r.description),
       department := TrimmedOpt(r.department), fileUrl := TrimmedOpt(r.fileUrl),
       tags := CastTags(r.tags), fileType := LowerOpt(r.fileType),
       category := LowerOpt(r.category), subject := TrimmedOpt(r.subject),
       status := ToLower(r.status))
  }

  // ---------------------------------------------------------------------------
  // Constraints, one check per path; each yields the path when it fails
  // ---------------------------------------------------------------------------

  /** A required text field: set and not empty. */
  predicate Present(s: Option<string>) { s.Some? && s.value != "" }

  predicate TitleOk(t: Option<string>) { Present(t) && 3 <= |t.value| <= 200 }

  predicate DescriptionOk(d: Option<string>) { d.Some? ==> |d.value| <= 1000 }

  predicate InList(s: Option<string>, values: seq<string>) { s.Some? && s.value in values }

  /** `semester` as the schema declares it: required, 1 to 8. */
  predicate SemesterRequiredOk(s: Option<int>) { s.Some? && 1 <= s.value <= 8 }

  /** `semester` made optional, as the upload validator treats it. */
  predicate SemesterOk(s: Option<int>) { s.Some? ==> 1 <= s.value <= 8 }

  /** `subject` as the schema declares it: required, at least 2 characters. */
  predicate SubjectRequiredOk(s: Option<string>) { Present(s) && |s.value| >= 2 }

  /** `subject` made optional: unset, empty or at least 2 characters. */
  predicate SubjectOk(s: Option<string>) { s.Some? && s.value != "" ==> |s.value| >= 2 }

  /** `rating` as the schema declares it: an integer from 0 to 5. */
  predicate RatingCappedOk(rating: int) { 0 <= rating <= 5 }

  /** `rating` read as the sum it is: between 0 and 5 per rating given. */
  predicate RatingSumOk(rating: int, ratingCount: int) { 0 <= rating <= 5 * ratingCount }

  function Check(ok: bool, path: string): seq<string> { if ok then [] else [path] }

  function LeadingErrors(r: Resource): seq<string> {
    Check(TitleOk(r.title), "title")
    + Check(DescriptionOk(r.description), "description")
    + Check(Present(r.department), "department")
    + Check(Present(r.fileUrl), "fileUrl")
    + Check(InList(r.fileType, FILE_TYPES), "fileType")
    + Check(InList(r.category, CATEGORIES), "category")
  }

  function MiddleErrors(r: Resource): seq<string> {
    Check(r.uploadedBy.Some?, "uploadedBy")
    + Check(r.status in STATUSES, "status")
    + Check(r.downloads >= 0, "downloads")
    + Check(r.views >= 0, "views")
  }

  /** The paths that break the schema exactly as declared, in schema order. */
  function DeclaredSchemaErrors(r: Resource): (paths: seq<string>)
    ensures paths == [] <==> DeclaredSchemaValid(r)
  {
    LeadingErrors(r)
    + Check(SemesterRequiredOk(r.semester), "semester")
    + Check(SubjectRequiredOk(r.subject), "subject")
    + MiddleErrors(r)
    + Check(RatingCappedOk(r.rating), "rating")
    + Check(r.ratingCount >= 0, "ratingCount")
  }

  predicate DeclaredSchemaValid(r: Resource) {
    LeadingErrors(r) == [] && SemesterRequiredOk(r.semester) && SubjectRequiredOk(r.subject)
    && MiddleErrors(r) == [] && RatingCappedOk(r.rating) && r.ratingCount >= 0
  }

  /** The paths that break the schema with `semester` and `subject` optional
      and `rating` bounded as a sum; the rest of the model stores records
      under this schema. */
  function SchemaErrors(r: Resource): (paths: seq<string>)
    ensures paths == [] <==> SchemaValid(r)
  {
    LeadingErrors(r)
    + Check(SemesterOk(r.semester), "semester")
    + Check(SubjectOk(r.subject), "subject")
    + MiddleErrors(r)
    + Check(RatingSumOk(r.rating, r.ratingCount), "rating")
    + Check(r.ratingCount >= 0, "ratingCount")
  }

  predicate SchemaValid(r: Resource) {
    LeadingErrors(r) == [] && SemesterOk(r.semester) && SubjectOk(r.subject)
    && MiddleErrors(r) == [] && RatingSumOk(r.rating, r.ratingCount) && r.ratingCount >= 0
  }

  /** A stored resource has a title of 3 to 200 characters, a file type and a
      category from their lists, a semester from 1 to 8 when set, a status
      from the three moderation states, counters that are not negative, and an
      average rating between 0 and 5. */
  lemma ValidResourceBounds(r: Resource)
    requires SchemaErrors(r) == []
    ensures 3 <= |r.title.value| <= 200
    ensures r.fileType.value in FILE_TYPES && r.category.value in CATEGORIES
    ensures r.semester.Some? ==> 1 <= r.semester.value <= 8
    ensures r.status == "pending" || r.status == "approved" || r.status == "rejected"
    ensures r.downloads >= 0 && r.views >= 0 && r.ratingCount >= 0
    ensures 0 <= r.rating <= 5 * r.ratingCount
  {
  }

  /** Every record the declared schema accepts is accepted once the two
      fields are optional and the rating cap scales with the count, except one
      whose rating exceeds its count's share. */
  lemma DeclaredImpliesValid(r: Resource)
    requires DeclaredSchemaValid(r) && r.rating <= 5 * r.ratingCount
    ensures SchemaValid(r)
  {
  }

  /** The fields an upload leaves unset get the schema defaults. */
  function WithDefaults(r: Resource): (d: Resource)
    ensures d.status == "pending" && !d.isVerified
    ensures d.downloads == 0 && d.views == 0 && d.rating == 0 && d.ratingCount == 0
    ensures d.(status := r.status, isVerified := r.isVerified, downloads := r.downloads,
               views := r.views, rating := r.rating, ratingCount := r.ratingCount) == r
  {
    r.(status := "pending", isVerified := false, downloads := 0, views := 0, rating := 0, ratingCount := 0)
  }

  // ---------------------------------------------------------------------------
  // incrementViews, incrementDownloads, addRating
  // ---------------------------------------------------------------------------

  function Viewed(r: Resource): (e: Resource)
    ensures e.views == r.views + 1 && e.(views := r.views) == r
  {
    r.(views := r.views + 1)
  }

  function Downloaded(r: Resource): (e: Resource)
    ensures e.downloads == r.downloads + 1 && e.(downloads := r.downloads) == r
  {
    r.(downloads := r.downloads + 1)
  }

  /** The argument of `addRating`: an integer, or anything else (a fraction,
      `NaN`, a string). */
  datatype RatingInput = Whole(n: int) | NotWhole

  /** The guard of `addRating`: an integer from 1 to 5. */
  function AcceptRating(v: RatingInput): (r: Result<int, string>)
    ensures r.Ok? <==> v.Whole? && 1 <= v.n <= 5
    ensures r.Ok? ==> r.value == v.n
    ensures r.Err? ==> r.error == RATING_MESSAGE
  {
    match v
    case Whole(n) => if n < 1 || n > 5 then Err(RATING_MESSAGE) else Ok(n)
    case NotWhole => Err(RATING_MESSAGE)
  }

  /** The record after `rating += value; ratingCount += 1`. */
  function Rated(r: Resource, value: int): (e: Resource)
    ensures e.rating == r.rating + value && e.ratingCount == r.ratingCount + 1
    ensures e.(rating := r.rating, ratingCount := r.ratingCount) == r
  {
    r.(rating := r.rating + value, ratingCount := r.ratingCount + 1)
  }

  lemma CountersStayValid(r: Resource)
    requires SchemaValid(r)
    ensures SchemaValid(Viewed(r)) && SchemaValid(Downloaded(r))
  {
  }

  /** Under the declared schema the save after `addRating` succeeds exactly
      while the running sum stays at most 5. */
  lemma DeclaredRatingBound(r: Resource, value: int)
    requires DeclaredSchemaValid(r) && 1 <= value <= 5
    ensures DeclaredSchemaValid(Rated(r, value)) <==> r.rating + value <= 5
  {
  }

  /** A second rating of 3 is one the declared schema refuses to save. */
  lemma DeclaredRefusesSecondRating(r: Resource)
    requires DeclaredSchemaValid(r) && r.rating == 3 && r.ratingCount == 1
    ensures DeclaredSchemaErrors(Rated(r, 3)) == ["rating"]
  {
    var e := Rated(r, 3);
    assert LeadingErrors(e) == LeadingErrors(r);
    assert MiddleErrors(e) == MiddleErrors(r);
  }

  /** With the sum bound, every accepted rating keeps the record savable. */
  lemma RatedStaysValid(r: Resource, value: int)
    requires SchemaValid(r) && 1 <= value <= 5
    ensures SchemaValid(Rated(r, value))
  {
    var e := Rated(r, value);
    assert LeadingErrors(e) == LeadingErrors(r);
    assert MiddleErrors(e) == MiddleErrors(r);
  }

  /** The ratings applied one after another. */
  function RateAll(r: Resource, values: seq<int>): Resource
    decreases |values|
  {
    if values == [] then r else RateAll(Rated(r, values[0]), values[1..])
  }

  /** Ratings from 1 to 5 keep the sum between one and five per rating: the
      average `rating / ratingCount` stays within 1 to 5. */
  lemma {:induction false} RateAllAverage(r: Resource, values: seq<int>)
    requires r.ratingCount <= r.rating <= 5 * r.ratingCount
    requires forall i :: 0 <= i < |values| ==> 1 <= values[i] <= 5
    ensures RateAll(r, values).ratingCount == r.ratingCount + |values|
    ensures var e := RateAll(r, values); e.ratingCount <= e.rating <= 5 * e.ratingCount
    decreases |values|
  {
    if values != [] {
      RateAllAverage(Rated(r, values[0]), values[1..]);
    }
  }

  // ---------------------------------------------------------------------------
  // The collection
  // ---------------------------------------------------------------------------

  predicate IdsIncreasing(rows: seq<Resource>) {
    forall i, j :: 0 <= i < j < |rows| ==> rows[i].id < rows[j].id
  }

  predicate AllValid(rows: seq<Resource>) {
    forall i :: 0 <= i < |rows| ==> SchemaValid(rows[i])
  }

  /** The position of the record with `id`. */
  function Find(rows: seq<Resource>, id: nat): (r: Option<nat>)
    ensures r.Some? ==> r.value < |rows| && rows[r.value].id == id
    ensures r.None? ==> forall i :: 0 <= i < |rows| ==> rows[i].id != id
  {
    if rows == [] then None
    else if rows[|rows| - 1].id == id then Some(|rows| - 1)
    else Find(rows[..|rows| - 1], id)
  }

  /** The sequence without position `i`. */
  function RemoveAt(rows: seq<Resource>, i: nat): (r: seq<Resource>)
    requires i < |rows|
    ensures |r| == |rows| - 1
    ensures forall k :: 0 <= k < i ==> r[k] == rows[k]
    ensures forall k :: i <= k < |r| ==> r[k] == rows[k + 1]
  {
    rows[..i] + rows[i + 1..]
  }

  lemma SchemaIgnoresId(d: Resource, id: nat)
    ensures SchemaValid(d.(id := id)) == SchemaValid(d)
  {
    assert LeadingErrors(d.(id := id)) == LeadingErrors(d);
    assert MiddleErrors(d.(id := id)) == MiddleErrors(d);
  }

  lemma AppendValid(rows: seq<Resource>, d: Resource)
    requires AllValid(rows) && SchemaValid(d)
    ensures AllValid(rows + [d])
  {
    var s := rows + [d];
    forall k | 0 <= k < |s| ensures SchemaValid(s[k]) {
      if k < |rows| { assert s[k] == rows[k]; }
    }
  }

  lemma AppendIncreasing(rows: seq<Resource>, d: Resource)
    requires IdsIncreasing(rows) && forall i :: 0 <= i < |rows| ==> rows[i].id < d.id
    ensures IdsIncreasing(rows + [d])
  {
  }

  /** Ids below the next one to hand out, increasing, and every record savable. */
  predicate TableValid(rows: seq<Resource>, nextId: nat) {
    (forall i :: 0 <= i < |rows| ==> rows[i].id < nextId)
    && IdsIncreasing(rows) && AllValid(rows)
  }

  lemma AppendKeepsValid(rows: seq<Resource>, nextId: nat, d: Resource)
    requires TableValid(rows, nextId) && SchemaValid(d)
    ensures TableValid(rows + [d.(id := nextId)], nextId + 1)
  {
    SchemaIgnoresId(d, nextId);
    AppendValid(rows, d.(id := nextId));
    AppendIncreasing(rows, d.(id := nextId));
  }

  // ---------------------------------------------------------------------------
  // Queries: `find(filter).sort({ createdAt: -1 }).limit(n)`
  // ---------------------------------------------------------------------------

  /** How a filter constrains `department`: not at all, equal ignoring case
      (an anchored case-insensitive pattern), or containing the text
      ignoring case (an unanchored one). */
  datatype DepartmentMatch = AnyDepartment | DepartmentIs(name: string) | DepartmentHas(part: string)

  /** A query filter: `status: 'approved'` or nothing, a department
      condition, and the keyword alternatives over title, tags and subject. */
  datatype Filter = Filter(approvedOnly: bool, department: DepartmentMatch, keyword: Option<string>)

  /** The keyword occurs, ignoring case, in the title, in some tag or in the subject. */
  predicate KeywordMatches(r: Resource, term: string) {
    (r.title.Some? && ContainsIgnoreCase(r.title.value, term))
    || (exists i :: 0 <= i < |r.tags| && ContainsIgnoreCase(r.tags[i], term))
    || (r.subject.Some? && ContainsIgnoreCase(r.subject.value, term))
  }

  predicate DepartmentMatches(r: Resource, m: DepartmentMatch) {
    match m
    case AnyDepartment => true
    case DepartmentIs(name) => r.department.Some? && EqualsIgnoreCase(r.department.value, name)
    case DepartmentHas(part) => r.department.Some? && ContainsIgnoreCase(r.department.value, part)
  }

  predicate Selects(f: Filter, r: Resource) {
    (f.approvedOnly ==> r.status == "approved")
    && DepartmentMatches(r, f.department)
    && (f.keyword.Some? ==> KeywordMatches(r, f.keyword.value))
  }

  predicate IdsDecreasing(rows: seq<Resource>) {
    forall i, j :: 0 <= i < j < |rows| ==> rows[i].id > rows[j].id
  }

  /** The records the filter selects, in storage order. */
  function Select(rows: seq<Resource>, f: Filter): (r: seq<Resource>)
    ensures |r| <= |rows|
    ensures forall i :: 0 <= i < |r| ==> r[i] in rows && Selects(f, r[i])
    ensures forall i :: 0 <= i < |rows| && Selects(f, rows[i]) ==> rows[i] in r
  {
    if rows == [] then []
    else
      var init := rows[..|rows| - 1];
      var last := rows[|rows| - 1];
      assert forall i :: 0 <= i < |init| ==> init[i] == rows[i];
      if Selects(f, last) then Select(init, f) + [last] else Select(init, f)
  }

  /** A single record is selected or not. */
  lemma SelectOne(x: Resource, f: Filter)
    ensures Select([x], f) == if Selects(f, x) then [x] else []
  {
    assert [x][..0] == [];
  }

  /** Selecting keeps the id order. */
  lemma {:induction false} SelectIncreasing(rows: seq<Resource>, f: Filter)
    ensures IdsIncreasing(rows) ==> IdsIncreasing(Select(rows, f))
  {
    if rows != [] && IdsIncreasing(rows) {
      var init := rows[..|rows| - 1];
      var last := rows[|rows| - 1];
      InitBelowLast(rows);
      SelectIncreasing(init, f);
      var picked := Select(init, f);
      if Selects(f, last) {
        IncreasingAppend(picked, last);
      }
    }
  }

  /** In increasing order, every record before the last is older than it. */
  lemma InitBelowLast(rows: seq<Resource>)
    requires IdsIncreasing(rows) && rows != []
    ensures IdsIncreasing(rows[..|rows| - 1])
    ensures forall x :: x in rows[..|rows| - 1] ==> x.id < rows[|rows| - 1].id
  {
    var init := rows[..|rows| - 1];
    forall x | x in init ensures x.id < rows[|rows| - 1].id {
      var k :| 0 <= k < |init| && init[k] == x;
      assert init[k] == rows[k];
    }
  }

  lemma IncreasingAppend(picked: seq<Resource>, last: Resource)
    requires IdsIncreasing(picked) && forall x :: x in picked ==> x.id < last.id
    ensures IdsIncreasing(picked + [last])
  {
    var r := picked + [last];
    forall i, j | 0 <= i < j < |r| ensures r[i].id < r[j].id {
      assert r[i] == picked[i];
      if j < |picked| {
        assert r[j] == picked[j];
      }
    }
  }

  /** The records newest first: the reverse of insertion order. */
  function NewestFirst(rows: seq<Resource>): (r: seq<Resource>)
    ensures |r| == |rows| && forall i :: 0 <= i < |rows| ==> r[i] == rows[|rows| - 1 - i]
    ensures IdsIncreasing(rows) ==> IdsDecreasing(r)
  {
    seq(|rows|, i requires 0 <= i < |rows| => rows[|rows| - 1 - i])
  }

  /** `find(f).sort({ createdAt: -1 }).limit(n)` */
  function Latest(rows: seq<Resource>, f: Filter, n: nat): (r: seq<Resource>)
    ensures |r| == Min(n, |Select(rows, f)|)
    ensures forall i :: 0 <= i < |r| ==> r[i] in rows && Selects(f, r[i])
    ensures IdsIncreasing(rows) ==> IdsDecreasing(r)
  {
    var newest := NewestFirst(Select(rows, f));
    SelectIncreasing(rows, f);
    var r := Take(newest, n);
    assert forall i :: 0 <= i < |r| ==> r[i] == newest[i];
    r
  }

  /** What the query leaves out is older than everything it returns, and it
      leaves something out only when the limit is reached. */
  lemma LatestAreNewest(rows: seq<Resource>, f: Filter, n: nat, x: Resource)
    requires IdsIncreasing(rows) && x in rows && Selects(f, x) && x !in Latest(rows, f, n)
    ensures |Latest(rows, f, n)| == n
    ensures forall i :: 0 <= i < n ==> x.id < Latest(rows, f, n)[i].id
  {
    var s := Select(rows, f);
    SelectIncreasing(rows, f);
    var k :| 0 <= k < |rows| && rows[k] == x;
    assert x in s;
    var m :| 0 <= m < |s| && s[m] == x;
    assert Latest(rows, f, n) == Take(NewestFirst(s), n);
    TakeLeavesOlder(s, n, m);
  }

  /** The newest n of an increasing sequence leave out only records older than
      all of them, and only when there are n of them. */
  lemma TakeLeavesOlder(s: seq<Resource>, n: nat, m: nat)
    requires IdsIncreasing(s) && m < |s| && s[m] !in Take(NewestFirst(s), n)
    ensures |Take(NewestFirst(s), n)| == n
    ensures forall i :: 0 <= i < n ==> s[m].id < Take(NewestFirst(s), n)[i].id
  {
    var newest := NewestFirst(s);
    var j := |s| - 1 - m;
    assert newest[j] == s[m];
    var r := Take(newest, n);
    assert forall i :: 0 <= i < |r| ==> r[i] == newest[i];
    assert j >= |r|;
  }

  class ResourceStore {
    var rows: seq<Resource>
    var nextId: nat

    ghost predicate Valid()
      reads this
    {
      TableValid(rows, nextId)
    }

    constructor()
      ensures rows == [] && nextId == 0 && Valid()
    {
      rows := [];
      nextId := 0;
    }

    /** `resource.incrementViews()` on the record at position `i`. */
    method IncrementViews(i: nat)
      requires Valid() && i < |rows|
      modifies this
      ensures rows == old(rows)[i := Viewed(old(rows)[i])] && nextId == old(nextId)
      ensures Valid()
    {
      CountersStayValid(rows[i]);
      rows := rows[i := Viewed(rows[i])];
    }

    /** `resource.incrementDownloads()` on the record at position `i`. */
    method IncrementDownloads(i: nat)
      requires Valid() && i < |rows|
      modifies this
      ensures rows == old(rows)[i := Downloaded(old(rows)[i])] && nextId == old(nextId)
      ensures Valid()
    {
      CountersStayValid(rows[i]);
      rows := rows[i := Downloaded(rows[i])];
    }

    /** `resource.addRating(value)` on the record at position `i`: a value
        that is not an integer from 1 to 5 is refused before anything changes;
        otherwise it is added to the sum and the count goes up by one. */
    method AddRating(i: nat, value: RatingInput) returns (r: Result<Resource, string>)
      requires Valid() && i < |rows|
      modifies this
      ensures nextId == old(nextId) && Valid()
      ensures AcceptRating(value).Err? ==> r == Err(RATING_MESSAGE) && rows == old(rows)
      ensures AcceptRating(value).Ok? ==>
                r == Ok(Rated(old(rows)[i], value.n)) && rows == old(rows)[i := r.value]
    {
      var accepted := AcceptRating(value);
      if accepted.Err? {
        return Err(accepted.error);
      }
      RatedStaysValid(rows[i], accepted.value);
      var e := Rated(rows[i], accepted.value);
      rows := rows[i := e];
      r := Ok(e);
    }

    /** `Resource.create(value)` once the record passes the schema: it is
        stored last, under a fresh id. */
    method Insert(d: Resource) returns (stored: Resource)
      requires Valid() && SchemaValid(d)
      modifies this
      ensures stored == d.(id := old(nextId))
      ensures rows == old(rows) + [stored] && nextId == old(nextId) + 1
      ensures Valid()
    {
      stored := d.(id := nextId);
      AppendKeepsValid(rows, nextId, d);
      rows := rows + [stored];
      nextId := nextId + 1;
    }

    /** `findByIdAndUpdate`: overwrites the record at position `i` with `d`,
        which keeps its id. */
    method Replace(i: nat, d: Resource)
      requires Valid() && i < |rows| && d.id == rows[i].id && SchemaValid(d)
      modifies this
      ensures rows == old(rows)[i := d] && nextId == old(nextId)
      ensures Valid()
    {
      rows := rows[i := d];
    }

    /** `findByIdAndDelete`: removes the record at position `i`. */
    method Delete(i: nat)
      requires Valid() && i < |rows|
      modifies this
      ensures rows == RemoveAt(old(rows), i) && nextId == old(nextId)
      ensures Valid()
    {
      rows := RemoveAt(rows, i);
    }
  }
}

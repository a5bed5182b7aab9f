/** campus-connect-backend-main/controllers/studyHubController.js: the public
    StudyHub listings and search, which only ever show approved resources,
    and the upload handler, which stores a new resource as pending. Route
    parameters and query strings are taken as Express decodes them; the
    handlers' second `decodeURIComponent` is not modelled. */
module StudyHubController {
  import opened Strings
  import opened Joi
  import opened AppErrors
  import RV = ResourceValidator
  import opened ResourceModel

  /** A JSON reply with its status, or the error handed to `next`. */
  datatype Reply = Reply(status: int, answer: string, data: seq<Resource>) | Failed(error: AppError)

  /** `next(new Error(message))` */
  function Fail(message: string): Reply { Failed(PlainError("Error", message)) }

  const LIST_LIMIT: nat := 50
  const DEPARTMENT_LIMIT: nat := 20
  const SEARCH_LIMIT: nat := 20

  const EMPTY_HUB := "No study materials uploaded yet. Be the first to add notes in **StudyHub**!"
  const DEPARTMENT_NAME_REQUIRED := "Department name is required"
  const LOGIN_REQUIRED := "You must be logged in to upload resources"
  const SEARCH_NEEDS_INPUT := "Provide \"keyword\" or \"department\" to search"
  const DEPARTMENT_TOO_SHORT := "Department name too short"
  const KEYWORD_TOO_SHORT := "Search keyword must be at least 2 characters"

  /** The base filter of every public read. */
  const APPROVED := Filter(true, AnyDepartment, None)

  // ---------------------------------------------------------------------------
  // getAllResources, getResourcesByDepartment
  // ---------------------------------------------------------------------------

  /** `getAllResources`: the 50 newest approved resources. */
  function GetAllResources(rows: seq<Resource>): (r: Reply)
    ensures r.Reply? && r.status == 200
    ensures |r.data| == Min(LIST_LIMIT, |Select(rows, APPROVED)|)
    ensures forall i :: 0 <= i < |r.data| ==> r.data[i] in rows && r.data[i].status == "approved"
    ensures IdsIncreasing(rows) ==> IdsDecreasing(r.data)
    ensures r.data == [] <==> forall i :: 0 <= i < |rows| ==> rows[i].status != "approved"
    ensures r.data == [] ==> r.answer == EMPTY_HUB
  {
    var data := Latest(rows, APPROVED, LIST_LIMIT);
    assert forall i :: 0 <= i < |rows| && rows[i].status == "approved" ==> rows[i] in Select(rows, APPROVED);
    if data == [] then Reply(200, EMPTY_HUB, [])
    else Reply(200, "Here are the latest " + NatToString(|data|) + " study materials:", data)
  }

  function DepartmentNotFoundAnswer(name: string): string {
    "No study materials found for **" + ToUpper(name)
    + "**.\n\nTry:\n• Uploading your notes\n• Checking \"CSE\" or \"Civil\"\n• Searching by keyword"
  }

  /** `getResourcesByDepartment`: the 20 newest approved resources whose
      department equals the trimmed name, ignoring case. */
  function GetResourcesByDepartment(rows: seq<Resource>, department: string): (r: Reply)
    ensures Trim(department) == "" <==> r == Fail(DEPARTMENT_NAME_REQUIRED)
    ensures r.Reply? ==>
              r.status == 200
              && |r.data| == Min(DEPARTMENT_LIMIT, |Select(rows, Filter(true, DepartmentIs(Trim(department)), None))|)
              && (IdsIncreasing(rows) ==> IdsDecreasing(r.data))
              && forall i :: 0 <= i < |r.data| ==>
                   r.data[i] in rows && r.data[i].status == "approved" && r.data[i].department.Some?
                   && EqualsIgnoreCase(r.data[i].department.value, Trim(department))
  {
    var name := Trim(department);
    if name == "" then Fail(DEPARTMENT_NAME_REQUIRED)
    else
      var data := DepartmentPicks(rows, name);
      Reply(200, DepartmentAnswer(name, |data|), data)
  }

  /** The 20 newest approved resources of the department. */
  function DepartmentPicks(rows: seq<Resource>, name: string): (data: seq<Resource>)
    ensures |data| == Min(DEPARTMENT_LIMIT, |Select(rows, Filter(true, DepartmentIs(name), None))|)
    ensures IdsIncreasing(rows) ==> IdsDecreasing(data)
    ensures forall i :: 0 <= i < |data| ==>
              data[i] in rows && data[i].status == "approved" && data[i].department.Some?
              && EqualsIgnoreCase(data[i].department.value, name)
  {
    Latest(rows, Filter(true, DepartmentIs(name), None), DEPARTMENT_LIMIT)
  }

  /** An approved resource the listing leaves out is older than all 50 it shows. */
  lemma AllReturnsNewest(rows: seq<Resource>, x: Resource)
    requires IdsIncreasing(rows) && x in rows && x.status == "approved"
    requires x !in GetAllResources(rows).data
    ensures var d := GetAllResources(rows).data;
            |d| == LIST_LIMIT && forall i :: 0 <= i < |d| ==> x.id < d[i].id
  {
    LatestAreNewest(rows, APPROVED, LIST_LIMIT, x);
  }

  /** An approved resource of the department that the listing leaves out is
      older than all 20 it shows. */
  lemma DepartmentReturnsNewest(rows: seq<Resource>, department: string, x: Resource)
    requires IdsIncreasing(rows) && Trim(department) != ""
    requires x in rows && x.status == "approved" && x.department.Some?
    requires EqualsIgnoreCase(x.department.value, Trim(department))
    requires x !in GetResourcesByDepartment(rows, department).data
    ensures var d := GetResourcesByDepartment(rows, department).data;
            |d| == DEPARTMENT_LIMIT && forall i :: 0 <= i < |d| ==> x.id < d[i].id
  {
    LatestAreNewest(rows, Filter(true, DepartmentIs(Trim(department)), None), DEPARTMENT_LIMIT, x);
  }

  function DepartmentAnswer(name: string, count: nat): string {
    if count == 0 then DepartmentNotFoundAnswer(name)
    else "Found " + NatToString(count) + " resource(s) for **" + ToUpper(name) + "**:"
  }

  // ---------------------------------------------------------------------------
  // addResource
  // ---------------------------------------------------------------------------

  /** The validated fields with the uploader and the handler's defaults: file
      type and category 'other', no semester, no tags. */
  function UploadRecord(f: RV.ResourceFields, user: nat): (d: Resource)
    ensures d.uploadedBy == Some(user)
    ensures f.fileType.None? ==> d.fileType == Some("other")
    ensures f.category.None? ==> d.category == Some("other")
    ensures f.semester.None? ==> d.semester.None?
    ensures f.tags.None? ==> d.tags == []
    ensures d.title == f.title && d.department == f.department && d.fileUrl == f.fileUrl
  {
    Resource(0, f.title, f.description, f.department, f.fileUrl,
             if f.tags.Some? then f.tags.value else [],
             Some(OrElse(f.fileType, "other")), Some(OrElse(f.category, "other")),
             if f.semester.Some? && f.semester.value != 0 then f.semester else None,
             f.subject, Some(user),
             "", false, 0, 0, 0, 0)
  }

  /** The document `Resource.create` builds: schema defaults, then the setters. */
  function Created(f: RV.ResourceFields, user: nat): (d: Resource)
    ensures d.title == TrimmedOpt(f.title) && d.description == TrimmedOpt(f.description)
    ensures d.department == TrimmedOpt(f.department) && d.fileUrl == TrimmedOpt(f.fileUrl)
    ensures d.fileType == Some(ToLower(OrElse(f.fileType, "other")))
    ensures d.category == Some(ToLower(OrElse(f.category, "other")))
    ensures d.subject == TrimmedOpt(f.subject) && d.uploadedBy == Some(user)
  {
    Cast(WithDefaults(UploadRecord(f, user)))
  }

  /** A new resource is pending, unverified and unrated. */
  lemma CreatedIsPending(f: RV.ResourceFields, user: nat)
    ensures var d := Created(f, user);
            d.status == "pending" && !d.isVerified && d.uploadedBy == Some(user)
            && d.views == 0 && d.downloads == 0 && d.rating == 0 && d.ratingCount == 0
  {
    assert ToLower("pending") == "pending";
  }

  function SchemaFailure(paths: seq<string>): AppError {
    AppError("ValidationError", "Resource validation failed", None, None, paths, [], None)
  }

  function UploadAnswer(d: Resource): string {
    "Your resource **" + TitleText(d) + "** has been uploaded and is **pending admin approval**."
  }

  /** Why an upload is refused, checked in the handler's order: the body, the
      login, then the schema. */
  function UploadRefusal(body: Body, user: Option<nat>): (r: Option<Reply>)
    ensures r.None? <==>
              RV.Validate(body).Ok? && user.Some? && SchemaErrors(Created(RV.Validate(body).value, user.value)) == []
  {
    var v := RV.Validate(body);
    if v.Err? then Some(Fail(v.error))
    else if user.None? then Some(Fail(LOGIN_REQUIRED))
    else
      var paths := SchemaErrors(Created(v.value, user.value));
      if paths != [] then Some(Failed(SchemaFailure(paths))) else None
  }

  /** `addResource` */
  method AddResource(store: ResourceStore, body: Body, user: Option<nat>) returns (r: Reply)
    requires store.Valid()
    modifies store
    ensures store.Valid()
    ensures UploadRefusal(body, user).Some? ==>
              r == UploadRefusal(body, user).value
              && store.rows == old(store.rows) && store.nextId == old(store.nextId)
    ensures UploadRefusal(body, user).None? ==>
              var stored := Created(RV.Validate(body).value, user.value).(id := old(store.nextId));
              store.rows == old(store.rows) + [stored] && store.nextId == old(store.nextId) + 1
              && r == Reply(201, UploadAnswer(stored), [stored])
  {
    var refusal := UploadRefusal(body, user);
    if refusal.Some? {
      return refusal.value;
    }
    var doc := Created(RV.Validate(body).value, user.value);
    var stored := store.Insert(doc);
    r := Reply(201, UploadAnswer(stored), [stored]);
  }

  /** Invalid input is reported before a missing login. */
  lemma InvalidBodyBeforeLogin(body: Body)
    requires RV.Validate(body).Err?
    ensures UploadRefusal(body, None) == Some(Fail(RV.Validate(body).error))
  {
  }

  /** What an accepted body guarantees about its converted text fields. */
  predicate TextsAccepted(f: RV.ResourceFields) {
    f.title.Some? && 3 <= |f.title.value| <= 200
    && (f.description.Some? ==> |f.description.value| <= 1000)
    && f.department.Some? && |f.department.value| >= 2
    && f.fileUrl.Some? && IsHttpUri(f.fileUrl.value)
  }

  /** What an accepted body guarantees about its converted listed fields. */
  predicate ListsAccepted(f: RV.ResourceFields) {
    (f.fileType.Some? ==> f.fileType.value in FILE_TYPES && ToLower(f.fileType.value) == f.fileType.value)
    && (f.category.Some? ==> f.category.value in CATEGORIES && ToLower(f.category.value) == f.category.value)
    && (f.semester.Some? ==> 1 <= f.semester.value <= 8)
  }

  /** The handler's defaults and the setters leave such fields within the
      schema, as long as the trimmed title keeps three characters, the
      trimmed department is not empty and the trimmed subject, if one is
      named, is empty or keeps two characters. */
  lemma CreatedValid(f: RV.ResourceFields, user: nat)
    requires TextsAccepted(f) && ListsAccepted(f) && SubjectOk(TrimmedOpt(f.subject))
    requires |Trim(f.title.value)| >= 3 && Trim(f.department.value) != ""
    ensures SchemaValid(Created(f, user))
  {
    CreatedLeadingClean(f, user);
    CreatedMiddleClean(f, user);
    CreatedCounters(f, user);
  }

  lemma CreatedLeadingClean(f: RV.ResourceFields, user: nat)
    requires TextsAccepted(f) && ListsAccepted(f)
    requires |Trim(f.title.value)| >= 3 && Trim(f.department.value) != ""
    ensures LeadingErrors(Created(f, user)) == []
  {
    CreatedLists(f, user);
    CreatedTexts(f, user);
  }

  lemma CreatedMiddleClean(f: RV.ResourceFields, user: nat)
    ensures MiddleErrors(Created(f, user)) == []
  {
    CreatedIsPending(f, user);
    NoMiddleErrors(Created(f, user));
  }

  lemma NoMiddleErrors(d: Resource)
    requires d.uploadedBy.Some? && d.status == "pending" && d.downloads == 0 && d.views == 0
    ensures MiddleErrors(d) == []
  {
    assert d.status in STATUSES;
  }

  lemma CreatedCounters(f: RV.ResourceFields, user: nat)
    requires ListsAccepted(f) && SubjectOk(TrimmedOpt(f.subject))
    ensures var d := Created(f, user);
            SemesterOk(d.semester) && SubjectOk(d.subject) && RatingSumOk(d.rating, d.ratingCount) && d.ratingCount >= 0
  {
  }

  lemma CreatedTexts(f: RV.ResourceFields, user: nat)
    requires TextsAccepted(f)
    requires |Trim(f.title.value)| >= 3 && Trim(f.department.value) != ""
    ensures var d := Created(f, user);
            TitleOk(d.title) && DescriptionOk(d.description) && Present(d.department) && Present(d.fileUrl)
  {
    var url := f.fileUrl.value;
    TrimOfSpaceFree(url);
    assert |Trim(url)| > 0 by { assert |url| >= 7; }
    if f.description.Some? {
      assert |Trim(f.description.value)| <= |f.description.value|;
    }
  }

  lemma CreatedLists(f: RV.ResourceFields, user: nat)
    requires ListsAccepted(f)
    ensures var d := Created(f, user); InList(d.fileType, FILE_TYPES) && InList(d.category, CATEGORIES)
  {
    assert ToLower("other") == "other";
  }

  /** An accepted body from a logged-in user is stored whenever trimming
      leaves the title three characters, the department non-empty and a
      named subject empty or at least two characters long. */
  lemma UploadSucceeds(body: Body, user: nat)
    requires RV.Validate(body).Ok?
    requires var f := RV.Validate(body).value;
             |Trim(f.title.value)| >= 3 && Trim(f.department.value) != ""
             && SubjectOk(TrimmedOpt(f.subject))
    ensures UploadRefusal(body, Some(user)).None?
  {
    var v := RV.Validate(body);
    AcceptedTexts(body);
    AcceptedLists(body);
    CreatedValid(v.value, user);
  }

  lemma AcceptedTexts(body: Body)
    requires RV.Validate(body).Ok?
    ensures TextsAccepted(RV.Validate(body).value)
  {
    RV.AcceptedBounds(body);
  }

  lemma AcceptedLists(body: Body)
    requires RV.Validate(body).Ok?
    ensures ListsAccepted(RV.Validate(body).value)
  {
    RV.AcceptedBounds(body);
  }

  /** The schema as declared refuses every upload that names no semester. */
  lemma DeclaredSchemaRefusesUpload(body: Body, user: nat)
    requires RV.Validate(body).Ok? && RV.Validate(body).value.semester.None?
    ensures "semester" in DeclaredSchemaErrors(Created(RV.Validate(body).value, user))
  {
  }

  // ---------------------------------------------------------------------------
  // searchResources
  // ---------------------------------------------------------------------------

  /** The filter `searchResources` builds once its input checks pass. */
  function SearchFilter(keyword: Option<string>, department: Option<string>): Filter {
    Filter(true,
           if Given(department) then DepartmentHas(Trim(department.value)) else AnyDepartment,
           if Given(keyword) then Some(Trim(keyword.value)) else None)
  }

  /** Why a search is refused, checked in the handler's order. */
  function SearchRefusal(keyword: Option<string>, department: Option<string>): Option<string> {
    if !Given(keyword) && !Given(department) then Some(SEARCH_NEEDS_INPUT)
    else if Given(department) && |Trim(department.value)| < 2 then Some(DEPARTMENT_TOO_SHORT)
    else if Given(keyword) && |Trim(keyword.value)| < 2 then Some(KEYWORD_TOO_SHORT)
    else None
  }

  function NoResultsAnswer(keyword: Option<string>, department: Option<string>): string {
    var hint := if Given(keyword) then "\"" + keyword.value + "\""
                else if Given(department) then "**" + ToUpper(department.value) + "**"
                else "";
    "No results found for " + hint
    + ".\n\nTry:\n• \"DSA notes\"\n• \"Thermodynamics\"\n• \"CSE department\"\n• Broader keywords"
  }

  /** What a search that passes its checks asks of a resource: approved,
      its department containing the trimmed department text, and the trimmed
      keyword in its title, a tag or its subject. */
  predicate MatchesSearch(x: Resource, keyword: Option<string>, department: Option<string>) {
    x.status == "approved"
    && (Given(department) ==>
          x.department.Some? && ContainsIgnoreCase(x.department.value, Trim(department.value)))
    && (Given(keyword) ==> KeywordMatches(x, Trim(keyword.value)))
  }

  lemma SearchFilterMeaning(x: Resource, keyword: Option<string>, department: Option<string>)
    ensures Selects(SearchFilter(keyword, department), x) <==> MatchesSearch(x, keyword, department)
  {
  }

  /** The 20 newest resources that match. */
  function SearchResults(rows: seq<Resource>, keyword: Option<string>, department: Option<string>): (data: seq<Resource>)
    ensures |data| <= SEARCH_LIMIT
    ensures IdsIncreasing(rows) ==> IdsDecreasing(data)
    ensures forall i :: 0 <= i < |data| ==> data[i] in rows && MatchesSearch(data[i], keyword, department)
  {
    var data := Latest(rows, SearchFilter(keyword, department), SEARCH_LIMIT);
    forall i | 0 <= i < |data| ensures MatchesSearch(data[i], keyword, department) {
      SearchFilterMeaning(data[i], keyword, department);
    }
    data
  }

  function FoundAnswer(count: nat, department: Option<string>): string {
    var hint := if Given(department) then " in **" + ToUpper(department.value) + "**" else "";
    "Found " + NatToString(count) + " result(s)" + hint + ":"
  }

  /** `searchResources` */
  function SearchResources(rows: seq<Resource>, keyword: Option<string>, department: Option<string>): (r: Reply)
    ensures SearchRefusal(keyword, department).Some? <==> r.Failed?
    ensures r.Failed? ==> r == Fail(SearchRefusal(keyword, department).value)
    ensures r.Reply? ==>
              r.status == 200 && |r.data| <= SEARCH_LIMIT
              && (IdsIncreasing(rows) ==> IdsDecreasing(r.data))
              && forall i :: 0 <= i < |r.data| ==> r.data[i] in rows && MatchesSearch(r.data[i], keyword, department)
  {
    var refusal := SearchRefusal(keyword, department);
    if refusal.Some? then Fail(refusal.value)
    else
      var data := SearchResults(rows, keyword, department);
      if data == [] then Reply(200, NoResultsAnswer(keyword, department), [])
      else Reply(200, FoundAnswer(|data|, department), data)
  }

  /** A search that passes its checks returns the newest matches: any match
      left out is older than all 20 returned. */
  lemma SearchReturnsNewest(rows: seq<Resource>, keyword: Option<string>, department: Option<string>, x: Resource)
    requires IdsIncreasing(rows) && SearchRefusal(keyword, department).None?
    requires x in rows && MatchesSearch(x, keyword, department)
    requires x !in SearchResources(rows, keyword, department).data
    ensures var d := SearchResources(rows, keyword, department).data;
            |d| == SEARCH_LIMIT && forall i :: 0 <= i < |d| ==> x.id < d[i].id
  {
    SearchFilterMeaning(x, keyword, department);
    LatestAreNewest(rows, SearchFilter(keyword, department), SEARCH_LIMIT, x);
  }

  /** The checks run in the handler's order: a short department is reported
      even when the keyword is short too. */
  lemma DepartmentCheckedBeforeKeyword(keyword: string, department: string)
    requires keyword != "" && department != "" && |Trim(department)| < 2
    ensures SearchRefusal(Some(keyword), Some(department)) == Some(DEPARTMENT_TOO_SHORT)
  {
  }
}

/** campus-connect-backend-main/validators/resourceValidator.js: the Joi
    schema for uploading a study resource. It runs with every rule reported
    (`abortEarly: false`): each key yields all of its messages, in schema
    order, and keys the schema does not name are dropped. */
module ResourceValidator {
  import opened Strings
  import opened Joi
  import RM = ResourceModel

  /** The keys the schema knows, in schema order. */
  const KEYS: seq<string> := ["title", "description", "department", "fileUrl", "fileType",
                              "category", "semester", "subject", "tags"]

  const TITLE_MIN := "Title must be at least 3 characters"
  const TITLE_MAX := "Title cannot exceed 200 characters"
  const TITLE_REQUIRED := "Title is required"
  const DESCRIPTION_MAX := "Description cannot exceed 1000 characters"
  const DEPARTMENT_MIN := "Department must be at least 2 characters"
  const DEPARTMENT_REQUIRED := "Department is required"
  const FILE_URL_INVALID := "File URL must be a valid link starting with http:// or https://"
  const FILE_URL_REQUIRED := "File URL is required"
  const FILE_TYPE_ONLY := "File type must be one of: pdf, doc, ppt, image, video, other"
  const CATEGORY_ONLY := "Category must be one of: notes, assignments, previous-papers, lab-manual, syllabus, other"
  const SEMESTER_RANGE := "Semester must be between 1 and 8"
  const SEMESTER_WHOLE := "Semester must be a whole number"
  const SUBJECT_MAX := "Subject name cannot exceed 150 characters"
  const TAG_MAX := "Each tag cannot exceed 50 characters"
  const TAGS_MAX := "Maximum 10 tags allowed"

  /** The validated value: the known keys only, converted. */
  datatype ResourceFields = ResourceFields(
    title: Option<string>,
    description: Option<string>,
    department: Option<string>,
    fileUrl: Option<string>,
    fileType: Option<string>,
    category: Option<string>,
    semester: Option<int>,
    subject: Option<string>,
    tags: Option<seq<string>>)

  // ---------------------------------------------------------------------------
  // Messages per key
  // ---------------------------------------------------------------------------

  function TitleErrors(v: Option<Value>): seq<string> {
    match v
    case None => [TITLE_REQUIRED]
    case Some(Str(s)) =>
      if s == "" then [EmptyMessage("title")]
      else if |s| < 3 then [TITLE_MIN]
      else if |s| > 200 then [TITLE_MAX]
      else []
    case Some(_) => [StringBaseMessage("title")]
  }

  /** An optional string key with `.max(limit).allow('')` and its own message. */
  function TextErrors(key: string, v: Option<Value>, limit: nat, message: string): seq<string> {
    match v
    case None => []
    case Some(Str(s)) => if |s| > limit then [message] else []
    case Some(_) => [StringBaseMessage(key)]
  }

  function DepartmentErrors(v: Option<Value>): seq<string> {
    match v
    case None => [DEPARTMENT_REQUIRED]
    case Some(Str(s)) =>
      if s == "" then [EmptyMessage("department")]
      else if |s| < 2 then [DEPARTMENT_MIN]
      else []
    case Some(_) => [StringBaseMessage("department")]
  }

  /** Only the bare schemes draw the custom `string.uri` message; any other
      refused link draws Joi's `string.uriCustomScheme` text. */
  function FileUrlErrors(v: Option<Value>): seq<string> {
    match v
    case None => [FILE_URL_REQUIRED]
    case Some(Str(s)) =>
      if s == "" then [EmptyMessage("fileUrl")]
      else if IsHttpUri(s) then []
      else if IsBareScheme(s) then [FILE_URL_INVALID]
      else [UriMessage("fileUrl")]
    case Some(_) => [StringBaseMessage("fileUrl")]
  }

  /** `.valid(...values).lowercase()`: the lower-cased string must be listed;
      the string type's own checks still run after a miss. */
  function OnlyErrors(key: string, v: Option<Value>, values: seq<string>, message: string): seq<string> {
    match v
    case None => []
    case Some(Str(s)) =>
      if ToLower(s) in values then []
      else [message] + (if s == "" then [EmptyMessage(key)] else [])
    case Some(_) => [message, StringBaseMessage(key)]
  }

  /** `.integer().min(1).max(8)`, each rule reported. */
  function SemesterErrors(v: Option<Value>): seq<string> {
    match v
    case None => []
    case Some(Num(n)) =>
      (if IsInteger(n) then [] else [SEMESTER_WHOLE])
      + (if n < 1.0 then [SEMESTER_RANGE] else [])
      + (if n > 8.0 then [SEMESTER_RANGE] else [])
    case Some(_) => [NumberBaseMessage("semester")]
  }

  /** The label Joi gives the item at `i`. */
  function ItemKey(i: nat): string { "tags[" + NatToString(i) + "]" }

  /** A tag as `.trim().lowercase()` converts it. */
  function TagText(s: string): string { Trim(ToLower(s)) }

  function ItemErrors(item: Value, i: nat): seq<string> {
    match item
    case Str(s) =>
      if TagText(s) == "" then [EmptyMessage(ItemKey(i))]
      else if |TagText(s)| > 50 then [TAG_MAX]
      else []
    case _ => [StringBaseMessage(ItemKey(i))]
  }

  /** The messages of the items from position `from` on, in order. */
  function ItemsErrors(items: seq<Value>, from: nat): seq<string>
    decreases |items| - from
  {
    if from >= |items| then [] else ItemErrors(items[from], from) + ItemsErrors(items, from + 1)
  }

  function TagsErrors(v: Option<Value>): seq<string> {
    match v
    case None => []
    case Some(List(items)) => ItemsErrors(items, 0) + (if |items| > 10 then [TAGS_MAX] else [])
    case Some(_) => [ArrayBaseMessage("tags")]
  }

  /** Every message, in schema order. */
  function Errors(body: Body): seq<string> {
    TitleErrors(Field(body, "title"))
    + TextErrors("description", Field(body, "description"), 1000, DESCRIPTION_MAX)
    + DepartmentErrors(Field(body, "department"))
    + FileUrlErrors(Field(body, "fileUrl"))
    + OnlyErrors("fileType", Field(body, "fileType"), RM.FILE_TYPES, FILE_TYPE_ONLY)
    + OnlyErrors("category", Field(body, "category"), RM.CATEGORIES, CATEGORY_ONLY)
    + SemesterErrors(Field(body, "semester"))
    + TextErrors("subject", Field(body, "subject"), 150, SUBJECT_MAX)
    + TagsErrors(Field(body, "tags"))
  }

  // ---------------------------------------------------------------------------
  // The converted value
  // ---------------------------------------------------------------------------

  function StringValue(v: Option<Value>): Option<string> {
    if v.Some? && v.value.Str? then Some(v.value.s) else None
  }

  function LowerValue(v: Option<Value>): Option<string> {
    if v.Some? && v.value.Str? then Some(ToLower(v.value.s)) else None
  }

  function WholeValue(v: Option<Value>): Option<int> {
    if v.Some? && v.value.Num? then Some(v.value.n.Floor) else None
  }

  /** The items of an accepted tag list, converted. */
  function TagTexts(items: seq<Value>): (r: seq<string>)
    ensures |r| == |items|
    ensures forall i :: 0 <= i < |items| ==> r[i] == if items[i].Str? then TagText(items[i].s) else ""
  {
    seq(|items|, i requires 0 <= i < |items| => if items[i].Str? then TagText(items[i].s) else "")
  }

  function Fields(body: Body): ResourceFields {
    var tags := Field(body, "tags");
    ResourceFields(
      StringValue(Field(body, "title")),
      StringValue(Field(body, "description")),
      StringValue(Field(body, "department")),
      StringValue(Field(body, "fileUrl")),
      LowerValue(Field(body, "fileType")),
      LowerValue(Field(body, "category")),
      WholeValue(Field(body, "semester")),
      StringValue(Field(body, "subject")),
      if tags.Some? && tags.value.List? then Some(TagTexts(tags.value.items)) else None)
  }

  /** `createResourceSchema.validate(body, { abortEarly: false })`: the
      converted value, or every message joined by ", ". */
  function Validate(body: Body): (r: Result<ResourceFields, string>)
    ensures r.Ok? <==> Acceptable(body)
    ensures r.Ok? ==> r.value == Fields(body)
    ensures r.Err? ==> r.error == Join(Errors(body), ", ")
  {
    AcceptableIffNoErrors(body);
    var errs := Errors(body);
    if errs == [] then Ok(Fields(body)) else Err(Join(errs, ", "))
  }

  // ---------------------------------------------------------------------------
  // The rules read as acceptance conditions
  // ---------------------------------------------------------------------------

  predicate TitleAccepted(v: Option<Value>) { v.Some? && v.value.Str? && 3 <= |v.value.s| <= 200 }

  predicate TextAccepted(v: Option<Value>, limit: nat) {
    v.Some? ==> v.value.Str? && |v.value.s| <= limit
  }

  predicate DepartmentAccepted(v: Option<Value>) { v.Some? && v.value.Str? && |v.value.s| >= 2 }

  predicate FileUrlAccepted(v: Option<Value>) { v.Some? && v.value.Str? && IsHttpUri(v.value.s) }

  predicate OnlyAccepted(v: Option<Value>, values: seq<string>) {
    v.Some? ==> v.value.Str? && ToLower(v.value.s) in values
  }

  predicate SemesterAccepted(v: Option<Value>) {
    v.Some? ==> v.value.Num? && IsInteger(v.value.n) && 1.0 <= v.value.n <= 8.0
  }

  predicate TagAccepted(item: Value) { item.Str? && 1 <= |TagText(item.s)| <= 50 }

  predicate TagsAccepted(v: Option<Value>) {
    v.Some? ==>
      v.value.List? && |v.value.items| <= 10
      && forall i :: 0 <= i < |v.value.items| ==> TagAccepted(v.value.items[i])
  }

  /** What the schema accepts, key by key. */
  predicate Acceptable(body: Body) {
    TitleAccepted(Field(body, "title"))
    && TextAccepted(Field(body, "description"), 1000)
    && DepartmentAccepted(Field(body, "department"))
    && FileUrlAccepted(Field(body, "fileUrl"))
    && OnlyAccepted(Field(body, "fileType"), RM.FILE_TYPES)
    && OnlyAccepted(Field(body, "category"), RM.CATEGORIES)
    && SemesterAccepted(Field(body, "semester"))
    && TextAccepted(Field(body, "subject"), 150)
    && TagsAccepted(Field(body, "tags"))
  }

  lemma ItemErrorsNone(item: Value, i: nat)
    ensures ItemErrors(item, i) == [] <==> TagAccepted(item)
  {
  }

  lemma {:induction false} ItemsErrorsNone(items: seq<Value>, from: nat)
    ensures ItemsErrors(items, from) == [] <==> forall i :: from <= i < |items| ==> TagAccepted(items[i])
    decreases |items| - from
  {
    if from < |items| {
      ItemErrorsNone(items[from], from);
      ItemsErrorsNone(items, from + 1);
      ItemsStep(items, from);
      AcceptedFromSplit(items, from);
    }
  }

  lemma ItemsStep(items: seq<Value>, from: nat)
    requires from < |items|
    ensures ItemsErrors(items, from) == [] <==>
              ItemErrors(items[from], from) == [] && ItemsErrors(items, from + 1) == []
  {
    assert ItemsErrors(items, from) == ItemErrors(items[from], from) + ItemsErrors(items, from + 1);
  }

  lemma AcceptedFromSplit(items: seq<Value>, from: nat)
    requires from < |items|
    ensures (forall i :: from <= i < |items| ==> TagAccepted(items[i])) <==>
              TagAccepted(items[from]) && forall i :: from + 1 <= i < |items| ==> TagAccepted(items[i])
  {
  }

  lemma {:induction false} AcceptableIffNoErrors(body: Body)
    ensures Errors(body) == [] <==> Acceptable(body)
  {
    TagsErrorsNone(Field(body, "tags"));
    LeadingErrorsNone(body);
    ChoiceErrorsNone(body);
  }

  lemma TagsErrorsNone(v: Option<Value>)
    ensures TagsErrors(v) == [] <==> TagsAccepted(v)
  {
    if v.Some? && v.value.List? {
      ItemsErrorsNone(v.value.items, 0);
    }
  }

  /** Title, description, department and link draw no message exactly when
      they are accepted. */
  lemma LeadingErrorsNone(body: Body)
    ensures (TitleErrors(Field(body, "title")) == []
             && TextErrors("description", Field(body, "description"), 1000, DESCRIPTION_MAX) == []
             && DepartmentErrors(Field(body, "department")) == []
             && FileUrlErrors(Field(body, "fileUrl")) == [])
            <==>
            (TitleAccepted(Field(body, "title"))
             && TextAccepted(Field(body, "description"), 1000)
             && DepartmentAccepted(Field(body, "department"))
             && FileUrlAccepted(Field(body, "fileUrl")))
  {
  }

  /** File type, category, semester and subject draw no message exactly when
      they are accepted. */
  lemma ChoiceErrorsNone(body: Body)
    ensures (OnlyErrors("fileType", Field(body, "fileType"), RM.FILE_TYPES, FILE_TYPE_ONLY) == []
             && OnlyErrors("category", Field(body, "category"), RM.CATEGORIES, CATEGORY_ONLY) == []
             && SemesterErrors(Field(body, "semester")) == []
             && TextErrors("subject", Field(body, "subject"), 150, SUBJECT_MAX) == [])
            <==>
            (OnlyAccepted(Field(body, "fileType"), RM.FILE_TYPES)
             && OnlyAccepted(Field(body, "category"), RM.CATEGORIES)
             && SemesterAccepted(Field(body, "semester"))
             && TextAccepted(Field(body, "subject"), 150))
  {
  }

  // ---------------------------------------------------------------------------
  // Properties
  // ---------------------------------------------------------------------------

  /** An accepted upload carries a title of 3 to 200 characters, a department
      of at least 2, an http or https link, a listed file type and category
      when given, a semester from 1 to 8 when given, and at most 10 tags, each
      trimmed, lower-cased and 1 to 50 characters long. */
  lemma AcceptedBounds(body: Body)
    requires Validate(body).Ok?
    ensures var f := Validate(body).value;
            f.title.Some? && 3 <= |f.title.value| <= 200
            && f.department.Some? && |f.department.value| >= 2
            && f.fileUrl.Some? && IsHttpUri(f.fileUrl.value)
            && (f.fileType.Some? ==> f.fileType.value in RM.FILE_TYPES && ToLower(f.fileType.value) == f.fileType.value)
            && (f.category.Some? ==> f.category.value in RM.CATEGORIES && ToLower(f.category.value) == f.category.value)
            && (f.semester.Some? ==> 1 <= f.semester.value <= 8)
            && (f.description.Some? ==> |f.description.value| <= 1000)
            && (f.subject.Some? ==> |f.subject.value| <= 150)
            && (f.tags.Some? ==>
                  |f.tags.value| <= 10
                  && forall i :: 0 <= i < |f.tags.value| ==>
                       1 <= |f.tags.value[i]| <= 50 && f.tags.value[i] == TagText(body["tags"].items[i].s))
  {
    assert Acceptable(body) && Validate(body).value == Fields(body);
    AcceptedChoices(body);
    AcceptedTags(body);
  }

  /** An accepted file type or category is listed and already lower case. */
  lemma AcceptedChoices(body: Body)
    requires Acceptable(body)
    ensures var f := Fields(body);
            (f.fileType.Some? ==> f.fileType.value in RM.FILE_TYPES && ToLower(f.fileType.value) == f.fileType.value)
            && (f.category.Some? ==> f.category.value in RM.CATEGORIES && ToLower(f.category.value) == f.category.value)
  {
    if "fileType" in body && body["fileType"].Str? { ToLowerIdempotent(body["fileType"].s); }
    if "category" in body && body["category"].Str? { ToLowerIdempotent(body["category"].s); }
  }

  /** Accepted tags are at most 10, each converted and 1 to 50 characters. */
  lemma AcceptedTags(body: Body)
    requires Acceptable(body)
    ensures var f := Fields(body);
            f.tags.Some? ==>
              |f.tags.value| <= 10
              && forall i :: 0 <= i < |f.tags.value| ==>
                   1 <= |f.tags.value[i]| <= 50 && f.tags.value[i] == TagText(body["tags"].items[i].s)
  {
  }

  /** Every rule that fails is reported: each message appears in the text. */
  lemma EveryMessageReported(body: Body, i: nat)
    requires i < |Errors(body)|
    ensures Validate(body).Err? && Contains(Validate(body).error, Errors(body)[i])
  {
    JoinContainsPart(Errors(body), ", ", i);
  }

  /** A fraction below the range draws both the whole-number and the range
      message, in that order. */
  lemma FractionBelowRange(body: Body)
    requires Field(body, "semester") == Some(Num(0.5))
    ensures SemesterErrors(Field(body, "semester")) == [SEMESTER_WHOLE, SEMESTER_RANGE]
  {
    assert (0.5).Floor == 0;
  }

  /** An eleventh tag is refused even when every tag is fine. */
  lemma TooManyTags(items: seq<Value>)
    requires |items| > 10 && forall i :: 0 <= i < |items| ==> TagAccepted(items[i])
    ensures TagsErrors(Some(List(items))) == [TAGS_MAX]
  {
    ItemsErrorsNone(items, 0);
  }

  /** Keys the schema does not name are dropped, never refused. */
  lemma UnknownKeysStripped(body: Body, key: string, v: Value)
    requires key !in KEYS
    ensures Validate(body[key := v]) == Validate(body)
  {
    var b := body[key := v];
    assert forall k :: k in KEYS ==> Field(b, k) == Field(body, k);
    assert Fields(b) == Fields(body);
    assert Errors(b) == Errors(body);
  }
}

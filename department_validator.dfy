/** campus-connect-backend-main/validators/departmentValidator.js: the Joi
    schemas for creating and for updating a department. Each key yields the
    messages Joi reports for it, in schema order; validation stops at the first
    one, and keys the schemas do not name are dropped. */
module DepartmentValidator {
  import opened Strings
  import opened Joi

  /** The keys both schemas know, in schema order. */
  const KEYS: seq<string> := ["name", "code", "description", "latitude", "longitude",
                              "building", "floor", "mapLink", "photo360Link"]

  const NAME_MIN := "Department name must be at least 3 characters"
  const NAME_MAX := "Department name cannot exceed 100 characters"
  const NAME_REQUIRED := "Department name is required"
  const CODE_MIN := "Department code must be at least 2 characters"
  const CODE_PATTERN := "Department code must contain only uppercase letters and numbers"
  const CODE_REQUIRED := "Department code is required"
  const LATITUDE_REQUIRED := "Latitude is required"
  const LONGITUDE_REQUIRED := "Longitude is required"
  const UPDATE_EMPTY := "At least one field must be provided for update"

  /** `createDepartmentSchema` requires name, code and coordinates and words
      its own messages; `updateDepartmentSchema` makes every key optional. */
  datatype Mode = Create | Update

  /** The validated value: the known keys only, `code` upper-cased. */
  datatype DepartmentFields = DepartmentFields(
    name: Option<string>,
    code: Option<string>,
    description: Option<string>,
    latitude: Option<real>,
    longitude: Option<real>,
    building: Option<string>,
    floor: Option<real>,
    mapLink: Option<string>,
    photo360Link: Option<string>)

  // ---------------------------------------------------------------------------
  // Messages per key
  // ---------------------------------------------------------------------------

  function NameErrors(v: Option<Value>, mode: Mode): seq<string> {
    match v
    case None => if mode.Create? then [NAME_REQUIRED] else []
    case Some(Str(s)) =>
      if s == "" then [EmptyMessage("name")]
      else if |s| < 3 then [if mode.Create? then NAME_MIN else MinLengthMessage("name", 3)]
      else if |s| > 100 then [if mode.Create? then NAME_MAX else MaxLengthMessage("name", 100)]
      else []
    case Some(_) => [StringBaseMessage("name")]
  }

  /** `.uppercase()` converts before the length and pattern rules run. */
  function CodeErrors(v: Option<Value>, mode: Mode): seq<string> {
    match v
    case None => if mode.Create? then [CODE_REQUIRED] else []
    case Some(Str(s)) =>
      var u := ToUpper(s);
      if u == "" then [EmptyMessage("code")]
      else
        (if |u| < 2 then [if mode.Create? then CODE_MIN else MinLengthMessage("code", 2)]
         else if |u| > 10 then [MaxLengthMessage("code", 10)]
         else [])
        + (if IsCodeText(u) then []
           else [if mode.Create? then CODE_PATTERN else PatternMessage("code", u, "/^[A-Z0-9]+$/")])
    case Some(_) => [StringBaseMessage("code")]
  }

  /** A string key with `.max(limit).allow('')`. */
  function TextErrors(key: string, v: Option<Value>, limit: nat): seq<string> {
    match v
    case None => []
    case Some(Str(s)) => if |s| > limit then [MaxLengthMessage(key, limit)] else []
    case Some(_) => [StringBaseMessage(key)]
  }

  /** A number key with `.min(lo).max(hi)`; `requiredMessage` when it is required. */
  function NumberErrors(key: string, v: Option<Value>, lo: int, hi: int, requiredMessage: Option<string>): seq<string> {
    match v
    case None => if requiredMessage.Some? then [requiredMessage.value] else []
    case Some(Num(n)) =>
      (if n < lo as real then [NumberMinMessage(key, lo)] else [])
      + (if n > hi as real then [NumberMaxMessage(key, hi)] else [])
    case Some(_) => [NumberBaseMessage(key)]
  }

  /** A string key with `.uri({ scheme: ['http', 'https'] }).allow('')`. */
  function LinkErrors(key: string, v: Option<Value>): seq<string> {
    match v
    case None => []
    case Some(Str(s)) =>
      if s == "" || IsHttpUri(s) then []
      else [if IsBareScheme(s) then UriBaseMessage(key) else UriMessage(key)]
    case Some(_) => [StringBaseMessage(key)]
  }

  /** Every message for the known keys, in schema order. */
  function KeyErrors(body: Body, mode: Mode): seq<string> {
    NameErrors(Field(body, "name"), mode)
    + CodeErrors(Field(body, "code"), mode)
    + TextErrors("description", Field(body, "description"), 500)
    + NumberErrors("latitude", Field(body, "latitude"), -90, 90,
                   if mode.Create? then Some(LATITUDE_REQUIRED) else None)
    + NumberErrors("longitude", Field(body, "longitude"), -180, 180,
                   if mode.Create? then Some(LONGITUDE_REQUIRED) else None)
    + TextErrors("building", Field(body, "building"), 100)
    + NumberErrors("floor", Field(body, "floor"), 0, 10, None)
    + LinkErrors("mapLink", Field(body, "mapLink"))
    + LinkErrors("photo360Link", Field(body, "photo360Link"))
  }

  predicate HasKnownKey(body: Body) {
    exists i :: 0 <= i < |KEYS| && KEYS[i] in body
  }

  /** The schema's messages; the update schema adds `.min(1)` over the keys left
      once unknown ones are stripped. */
  function Errors(body: Body, mode: Mode): seq<string> {
    KeyErrors(body, mode) + (if mode.Update? && !HasKnownKey(body) then [UPDATE_EMPTY] else [])
  }

  function StringValue(v: Option<Value>): Option<string> {
    if v.Some? && v.value.Str? then Some(v.value.s) else None
  }

  function NumberValue(v: Option<Value>): Option<real> {
    if v.Some? && v.value.Num? then Some(v.value.n) else None
  }

  /** The converted value Joi hands back. */
  function Fields(body: Body): DepartmentFields {
    var code := StringValue(Field(body, "code"));
    DepartmentFields(
      StringValue(Field(body, "name")),
      if code.Some? then Some(ToUpper(code.value)) else None,
      StringValue(Field(body, "description")),
      NumberValue(Field(body, "latitude")),
      NumberValue(Field(body, "longitude")),
      StringValue(Field(body, "building")),
      NumberValue(Field(body, "floor")),
      StringValue(Field(body, "mapLink")),
      StringValue(Field(body, "photo360Link")))
  }

  /** `schema.validate(body)`: the converted value, or `error.details[0].message`. */
  function Validate(body: Body, mode: Mode): (r: Result<DepartmentFields, string>)
    ensures r.Ok? <==> Acceptable(body, mode)
    ensures r.Ok? ==> r.value == Fields(body)
  {
    AcceptableIffNoErrors(body, mode);
    var errs := Errors(body, mode);
    if errs == [] then Ok(Fields(body)) else Err(errs[0])
  }

  // ---------------------------------------------------------------------------
  // The rules read as acceptance conditions
  // ---------------------------------------------------------------------------

  predicate NameAccepted(v: Option<Value>, mode: Mode) {
    match v
    case None => mode.Update?
    case Some(x) => x.Str? && 3 <= |x.s| <= 100
  }

  predicate CodeAccepted(v: Option<Value>, mode: Mode) {
    match v
    case None => mode.Update?
    case Some(x) => x.Str? && 2 <= |ToUpper(x.s)| <= 10 && IsCodeText(ToUpper(x.s))
  }

  predicate TextAccepted(v: Option<Value>, limit: nat) {
    v.Some? ==> v.value.Str? && |v.value.s| <= limit
  }

  predicate NumberAccepted(v: Option<Value>, lo: int, hi: int, required: bool) {
    match v
    case None => !required
    case Some(x) => x.Num? && lo as real <= x.n <= hi as real
  }

  predicate LinkAccepted(v: Option<Value>) {
    v.Some? ==> v.value.Str? && (v.value.s == "" || IsHttpUri(v.value.s))
  }

  /** What each schema accepts, key by key. */
  predicate Acceptable(body: Body, mode: Mode) {
    NameAccepted(Field(body, "name"), mode)
    && CodeAccepted(Field(body, "code"), mode)
    && TextAccepted(Field(body, "description"), 500)
    && NumberAccepted(Field(body, "latitude"), -90, 90, mode.Create?)
    && NumberAccepted(Field(body, "longitude"), -180, 180, mode.Create?)
    && TextAccepted(Field(body, "building"), 100)
    && NumberAccepted(Field(body, "floor"), 0, 10, false)
    && LinkAccepted(Field(body, "mapLink"))
    && LinkAccepted(Field(body, "photo360Link"))
    && (mode.Update? ==> HasKnownKey(body))
  }

  lemma CodeErrorsNone(v: Option<Value>, mode: Mode)
    ensures CodeErrors(v, mode) == [] <==> CodeAccepted(v, mode)
  {
    if v.Some? && v.value.Str? {
      ToUpperLength(v.value.s);
    }
  }

  lemma ToUpperLength(s: string)
    ensures |ToUpper(s)| == |s|
  {
  }

  lemma {:induction false} AcceptableIffNoErrors(body: Body, mode: Mode)
    ensures Errors(body, mode) == [] <==> Acceptable(body, mode)
  {
    CodeErrorsNone(Field(body, "code"), mode);
  }

  // ---------------------------------------------------------------------------
  // Properties
  // ---------------------------------------------------------------------------

  /** An accepted create carries a name of 3 to 100 characters, an upper-case
      code of 2 to 10 letters and digits, and coordinates in range. */
  lemma CreateAccepted(body: Body)
    requires Validate(body, Create).Ok?
    ensures var f := Validate(body, Create).value;
            f.name.Some? && 3 <= |f.name.value| <= 100
            && f.code.Some? && 2 <= |f.code.value| <= 10 && IsCodeText(f.code.value)
            && f.latitude.Some? && -90.0 <= f.latitude.value <= 90.0
            && f.longitude.Some? && -180.0 <= f.longitude.value <= 180.0
  {
  }

  /** Both schemas agree key by key: a body accepted for create, or any body
      with a known key that the create rules accept, is accepted for update. */
  lemma CreateImpliesUpdate(body: Body)
    requires Acceptable(body, Create)
    ensures Acceptable(body, Update)
  {
    assert KEYS[0] in body;
  }

  /** An update that names no known key is refused with the `.min(1)` message. */
  lemma EmptyUpdateRefused(body: Body)
    requires !HasKnownKey(body)
    ensures Validate(body, Update) == Err(UPDATE_EMPTY)
  {
    assert KEYS[0] !in body && KEYS[1] !in body && KEYS[2] !in body;
    assert KEYS[3] !in body && KEYS[4] !in body && KEYS[5] !in body;
    assert KEYS[6] !in body && KEYS[7] !in body && KEYS[8] !in body;
  }

  /** A missing name is reported before anything else on create. */
  lemma MissingNameFirst(body: Body)
    requires "name" !in body
    ensures Validate(body, Create) == Err(NAME_REQUIRED)
  {
  }

  /** Keys the schemas do not name are dropped, never refused. */
  lemma UnknownKeysStripped(body: Body, key: string, v: Value, mode: Mode)
    requires key !in KEYS
    ensures Validate(body[key := v], mode) == Validate(body, mode)
  {
    var b := body[key := v];
    KnownFieldsKept(body, key, v);
    SameKnownFields(b, body, mode);
    KnownKeyKept(body, key, v);
  }

  /** Adding an unknown key leaves every known key's value alone. */
  lemma KnownFieldsKept(body: Body, key: string, v: Value)
    requires key !in KEYS
    ensures forall i :: 0 <= i < |KEYS| ==> Field(body[key := v], KEYS[i]) == Field(body, KEYS[i])
  {
    forall i | 0 <= i < |KEYS| ensures Field(body[key := v], KEYS[i]) == Field(body, KEYS[i]) {
      assert KEYS[i] != key;
    }
  }

  /** Adding an unknown key leaves `.min(1)` alone. */
  lemma KnownKeyKept(body: Body, key: string, v: Value)
    requires key !in KEYS
    ensures HasKnownKey(body[key := v]) == HasKnownKey(body)
  {
    if HasKnownKey(body[key := v]) {
      var i :| 0 <= i < |KEYS| && KEYS[i] in body[key := v];
      assert KEYS[i] != key;
    }
  }

  /** Two bodies that agree on the known keys get the same messages and the
      same value. */
  lemma SameKnownFields(b: Body, body: Body, mode: Mode)
    requires forall i :: 0 <= i < |KEYS| ==> Field(b, KEYS[i]) == Field(body, KEYS[i])
    ensures KeyErrors(b, mode) == KeyErrors(body, mode) && Fields(b) == Fields(body)
  {
    assert Field(b, KEYS[0]) == Field(body, KEYS[0]);
    assert Field(b, KEYS[1]) == Field(body, KEYS[1]);
    assert Field(b, KEYS[2]) == Field(body, KEYS[2]);
    assert Field(b, KEYS[3]) == Field(body, KEYS[3]);
    assert Field(b, KEYS[4]) == Field(body, KEYS[4]);
    assert Field(b, KEYS[5]) == Field(body, KEYS[5]);
    assert Field(b, KEYS[6]) == Field(body, KEYS[6]);
    assert Field(b, KEYS[7]) == Field(body, KEYS[7]);
    assert Field(b, KEYS[8]) == Field(body, KEYS[8]);
  }
}

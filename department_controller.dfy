/** campus-connect-backend-main/controllers/departmentController.js: list,
    look up, add, update, delete and search departments. Errors handed to
    `next(error)` are returned as `Failed`; a query's `sort` and `limit` are
    applied in that order, as the database does. */
module DepartmentController {
  import opened Strings
  import opened Joi
  import opened AppErrors
  import V = DepartmentValidator
  import opened DepartmentModel

  /** A JSON reply (`status`, `answer`, the records in `data`), the deletion
      reply (`answer` and `message`), or the error passed on to the error handler. */
  datatype Reply =
    | Reply(status: int, answer: string, data: seq<Department>)
    | Removed(status: int, answer: string, message: string)
    | Failed(error: AppError)

  /** `next(new Error(message))` */
  function Fail(message: string): Reply { Failed(PlainError("Error", message)) }

  const NOT_FOUND := "Department not found"
  const REMOVED := "Department removed successfully"
  const SEARCH_TOO_SHORT := "Please enter at least 2 characters to search"
  const LIST_LIMIT := 50
  const SEARCH_LIMIT := 20

  // ---------------------------------------------------------------------------
  // Sorting by name
  // ---------------------------------------------------------------------------

  function NameKey(d: Department): string { if d.name.Some? then d.name.value else "" }

  /** `.sort({ name: 1 })`, stated on neighbours. */
  predicate SortedByName(s: seq<Department>) {
    forall i :: 0 < i < |s| ==> LexLe(NameKey(s[i - 1]), NameKey(s[i]))
  }

  function InsertByName(t: seq<Department>, x: Department): (r: seq<Department>)
    requires SortedByName(t)
    ensures |r| == |t| + 1 && SortedByName(r)
    ensures multiset(r) == multiset(t) + multiset{x}
    ensures r[0] == x || (t != [] && r[0] == t[0])
  {
    if t == [] then [x]
    else if LexLe(NameKey(x), NameKey(t[0])) then [x] + t
    else
      SortedTail(t);
      LexLeTotal(NameKey(x), NameKey(t[0]));
      var rest := InsertByName(t[1..], x);
      InsertedAfterHead(t, x, rest);
      [t[0]] + rest
  }

  /** The step of `InsertByName` that keeps the head: putting it back in front
      of the insertion into the tail keeps the order and the contents. */
  lemma InsertedAfterHead(t: seq<Department>, x: Department, rest: seq<Department>)
    requires t != [] && SortedByName(t) && LexLe(NameKey(t[0]), NameKey(x))
    requires |rest| == |t| && SortedByName(rest)
    requires multiset(rest) == multiset(t[1..]) + multiset{x}
    requires rest[0] == x || (|t| > 1 && rest[0] == t[1])
    ensures SortedByName([t[0]] + rest)
    ensures multiset([t[0]] + rest) == multiset(t) + multiset{x}
  {
    assert t == [t[0]] + t[1..];
    var r := [t[0]] + rest;
    assert forall i :: 1 <= i < |r| ==> r[i] == rest[i - 1];
  }

  function SortByName(s: seq<Department>): (r: seq<Department>)
    ensures |r| == |s| && SortedByName(r) && multiset(r) == multiset(s)
  {
    if s == [] then []
    else
      assert s == s[..|s| - 1] + [s[|s| - 1]];
      InsertByName(SortByName(s[..|s| - 1]), s[|s| - 1])
  }

  lemma PrefixSorted(s: seq<Department>, k: nat)
    requires SortedByName(s) && k <= |s|
    ensures SortedByName(s[..k])
  {
    forall i | 0 < i < k ensures LexLe(NameKey(s[..k][i - 1]), NameKey(s[..k][i])) {
      assert s[..k][i - 1] == s[i - 1] && s[..k][i] == s[i];
    }
  }

  lemma SortedTail(t: seq<Department>)
    requires SortedByName(t) && t != []
    ensures SortedByName(t[1..])
  {
    forall i | 0 < i < |t[1..]| ensures LexLe(NameKey(t[1..][i - 1]), NameKey(t[1..][i])) {
      assert t[1..][i - 1] == t[i] && t[1..][i] == t[i + 1];
    }
  }

  /** In a list sorted by name, every record is at or after the ones before it. */
  lemma {:induction false} SortedPairwise(s: seq<Department>, i: nat, j: nat)
    requires SortedByName(s) && i <= j < |s|
    ensures LexLe(NameKey(s[i]), NameKey(s[j]))
    decreases j - i
  {
    if i == j {
      LexLeTotal(NameKey(s[i]), NameKey(s[i]));
    } else {
      SortedPairwise(s, i, j - 1);
      LexLeTransitive(NameKey(s[i]), NameKey(s[j - 1]), NameKey(s[j]));
    }
  }

  /** The first `m` records of a list sorted by name come at or before every
      record after them. */
  lemma SmallestPrefix(t: seq<Department>, m: nat)
    requires SortedByName(t) && m <= |t|
    ensures forall x, k :: x in multiset(t) - multiset(t[..m]) && 0 <= k < m ==> LexLe(NameKey(t[k]), NameKey(x))
  {
    assert t == t[..m] + t[m..];
    assert multiset(t) - multiset(t[..m]) == multiset(t[m..]);
    forall x, k | x in multiset(t) - multiset(t[..m]) && 0 <= k < m
      ensures LexLe(NameKey(t[k]), NameKey(x))
    {
      assert x in t[m..];
      var j :| m <= j < |t| && t[j] == x;
      SortedPairwise(t, k, j);
    }
  }

  /** The first `n` records by name: as many as there are up to `n`, in order,
      and no record left out comes before one kept. */
  function FirstByName(s: seq<Department>, n: nat): (r: seq<Department>)
    ensures |r| == Min(n, |s|) && SortedByName(r) && multiset(r) <= multiset(s)
    ensures forall x, k :: x in multiset(s) - multiset(r) && 0 <= k < |r| ==> LexLe(NameKey(r[k]), NameKey(x))
  {
    var sorted := SortByName(s);
    PrefixSorted(sorted, Min(n, |s|));
    SmallestPrefix(sorted, Min(n, |s|));
    Take(sorted, n)
  }

  // ---------------------------------------------------------------------------
  // Sets of ids, for the search analytics
  // ---------------------------------------------------------------------------

  function Ids(s: seq<Department>): (r: set<nat>)
    ensures forall i :: 0 <= i < |s| ==> s[i].id in r
  {
    if s == [] then {} else {s[0].id} + Ids(s[1..])
  }

  lemma {:induction false} IdWitness(s: seq<Department>, id: nat) returns (i: nat)
    requires id in Ids(s)
    ensures i < |s| && s[i].id == id
  {
    if s[0].id != id {
      i := IdWitness(s[1..], id);
      i := i + 1;
    } else {
      i := 0;
    }
  }

  /** No id occurs twice. */
  predicate UniqueIds(s: seq<Department>) {
    s == [] || (s[0].id !in Ids(s[1..]) && UniqueIds(s[1..]))
  }

  lemma {:induction false} IncreasingUnique(s: seq<Department>)
    requires IdsIncreasing(s)
    ensures UniqueIds(s)
  {
    if s != [] {
      if s[0].id in Ids(s[1..]) {
        var i := IdWitness(s[1..], s[0].id);
      }
      IncreasingUnique(s[1..]);
    }
  }

  lemma {:induction false} InsertByNameIdSet(t: seq<Department>, x: Department)
    requires SortedByName(t)
    ensures Ids(InsertByName(t, x)) == Ids(t) + {x.id}
  {
    var r := InsertByName(t, x);
    if t == [] {
    } else if LexLe(NameKey(x), NameKey(t[0])) {
      assert r[1..] == t;
    } else {
      SortedTail(t);
      InsertByNameIdSet(t[1..], x);
      assert r[1..] == InsertByName(t[1..], x);
    }
  }

  lemma {:induction false} InsertByNameIds(t: seq<Department>, x: Department)
    requires SortedByName(t) && UniqueIds(t) && x.id !in Ids(t)
    ensures UniqueIds(InsertByName(t, x)) && Ids(InsertByName(t, x)) == Ids(t) + {x.id}
  {
    InsertByNameIdSet(t, x);
    var r := InsertByName(t, x);
    if t != [] && !LexLe(NameKey(x), NameKey(t[0])) {
      SortedTail(t);
      InsertByNameIds(t[1..], x);
      InsertByNameIdSet(t[1..], x);
      assert r[1..] == InsertByName(t[1..], x);
    } else if t != [] {
      assert r[1..] == t;
    }
  }

  /** Dropping the last record keeps ids unique, and its id is not among the others. */
  lemma {:induction false} UniqueInit(s: seq<Department>)
    requires UniqueIds(s) && s != []
    ensures UniqueIds(s[..|s| - 1]) && s[|s| - 1].id !in Ids(s[..|s| - 1])
    ensures Ids(s) == Ids(s[..|s| - 1]) + {s[|s| - 1].id}
  {
    if |s| > 1 {
      assert s[1..][..|s| - 2] == s[..|s| - 1][1..];
      UniqueInit(s[1..]);
      assert s[1..][|s| - 2] == s[|s| - 1];
      assert s[..|s| - 1][0] == s[0];
    }
  }

  lemma {:induction false} SortByNameIds(s: seq<Department>)
    requires UniqueIds(s)
    ensures UniqueIds(SortByName(s)) && Ids(SortByName(s)) == Ids(s)
  {
    if s != [] {
      var init := s[..|s| - 1];
      UniqueInit(s);
      SortByNameIds(init);
      InsertByNameIds(SortByName(init), s[|s| - 1]);
    }
  }

  lemma {:induction false} PrefixUnique(s: seq<Department>, n: nat)
    requires UniqueIds(s) && n <= |s|
    ensures UniqueIds(s[..n]) && Ids(s[..n]) <= Ids(s)
  {
    if n > 0 {
      assert s[..n][1..] == s[1..][..n - 1];
      PrefixUnique(s[1..], n - 1);
    }
  }

  lemma FirstByNameUnique(s: seq<Department>, n: nat)
    requires UniqueIds(s)
    ensures UniqueIds(FirstByName(s, n)) && Ids(FirstByName(s, n)) <= Ids(s)
  {
    SortByNameIds(s);
    PrefixUnique(SortByName(s), Min(n, |s|));
  }

  // ---------------------------------------------------------------------------
  // getDepartments
  // ---------------------------------------------------------------------------

  function CountText(n: nat): string { NatToString(n) }

  /** `getDepartments`: the first 50 departments by name. */
  function GetDepartments(rows: seq<Department>): (r: Reply)
    ensures r.Reply? && r.status == 200
    ensures |r.data| == Min(LIST_LIMIT, |rows|)
    ensures SortedByName(r.data) && multiset(r.data) <= multiset(rows)
    ensures forall x, k :: x in multiset(rows) - multiset(r.data) && 0 <= k < |r.data| ==>
              LexLe(NameKey(r.data[k]), NameKey(x))
    ensures r.data == [] <==> rows == []
  {
    var data := FirstByName(rows, LIST_LIMIT);
    if data == [] then Reply(200, "No departments found in the system yet.", [])
    else Reply(200, "Here are " + CountText(|data|) + " departments on campus:", data)
  }

  // ---------------------------------------------------------------------------
  // Search: the matching rule
  // ---------------------------------------------------------------------------

  /** Name or code contains the term, ignoring case. */
  predicate Matches(d: Department, term: string) {
    (d.name.Some? && ContainsIgnoreCase(d.name.value, term))
    || (d.code.Some? && ContainsIgnoreCase(d.code.value, term))
  }

  function Matching(s: seq<Department>, term: string): (r: seq<Department>)
    ensures multiset(r) <= multiset(s)
    ensures forall i :: 0 <= i < |r| ==> Matches(r[i], term)
    ensures forall i :: 0 <= i < |s| && Matches(s[i], term) ==> s[i] in r
    ensures forall x :: Matches(x, term) ==> multiset(r)[x] == multiset(s)[x]
  {
    if s == [] then []
    else
      var rest := Matching(s[1..], term);
      if Matches(s[0], term) then
        MatchingKeep(s, term, rest);
        [s[0]] + rest
      else
        MatchingSkip(s, term, rest);
        rest
  }

  /** The postconditions of `Matching`, as one relation used by its steps. */
  ghost predicate MatchesOf(s: seq<Department>, term: string, r: seq<Department>) {
    multiset(r) <= multiset(s)
    && (forall i :: 0 <= i < |r| ==> Matches(r[i], term))
    && (forall i :: 0 <= i < |s| && Matches(s[i], term) ==> s[i] in r)
    && (forall x :: Matches(x, term) ==> multiset(r)[x] == multiset(s)[x])
  }

  /** A matching first record is kept in front of the matches of the rest. */
  lemma MatchingKeep(s: seq<Department>, term: string, rest: seq<Department>)
    requires s != [] && Matches(s[0], term) && MatchesOf(s[1..], term, rest)
    ensures MatchesOf(s, term, [s[0]] + rest)
  {
    var r := [s[0]] + rest;
    assert s == [s[0]] + s[1..];
    assert multiset(s) == multiset{s[0]} + multiset(s[1..]);
    assert multiset(r) == multiset{s[0]} + multiset(rest);
    assert forall i :: 1 <= i < |r| ==> r[i] == rest[i - 1];
    CountedIn(s, r, term);
  }

  /** A first record that does not match is dropped. */
  lemma MatchingSkip(s: seq<Department>, term: string, rest: seq<Department>)
    requires s != [] && !Matches(s[0], term) && MatchesOf(s[1..], term, rest)
    ensures MatchesOf(s, term, rest)
  {
    assert s == [s[0]] + s[1..];
    assert multiset(s) == multiset{s[0]} + multiset(s[1..]);
    CountedIn(s, rest, term);
  }

  /** A match counted as often in `r` as in `s` is in `r`. */
  lemma CountedIn(s: seq<Department>, r: seq<Department>, term: string)
    requires forall x :: Matches(x, term) ==> multiset(r)[x] == multiset(s)[x]
    ensures forall i :: 0 <= i < |s| && Matches(s[i], term) ==> s[i] in r
  {
    forall i | 0 <= i < |s| && Matches(s[i], term) ensures s[i] in r {
      assert s[i] in multiset(s);
      assert multiset(r)[s[i]] > 0;
    }
  }

  lemma {:induction false} MatchingUnique(s: seq<Department>, term: string)
    requires UniqueIds(s)
    ensures UniqueIds(Matching(s, term)) && Ids(Matching(s, term)) <= Ids(s)
  {
    if s != [] {
      MatchingUnique(s[1..], term);
      var rest := Matching(s[1..], term);
      if Matches(s[0], term) {
        assert ([s[0]] + rest)[1..] == rest;
      }
    }
  }

  /** The records a search for `term` returns: 20 matches, or all of them when
      fewer match, by name; no match left out comes before one returned. */
  function SearchResults(rows: seq<Department>, term: string): (r: seq<Department>)
    ensures |r| <= SEARCH_LIMIT && SortedByName(r) && multiset(r) <= multiset(rows)
    ensures forall i :: 0 <= i < |r| ==> Matches(r[i], term)
    ensures |r| == Min(SEARCH_LIMIT, |Matching(rows, term)|)
    ensures forall x, k :: x in multiset(rows) - multiset(r) && Matches(x, term) && 0 <= k < |r| ==>
              LexLe(NameKey(r[k]), NameKey(x))
  {
    var m := Matching(rows, term);
    var r := FirstByName(m, SEARCH_LIMIT);
    forall i | 0 <= i < |r| ensures Matches(r[i], term) {
      assert r[i] in multiset(m);
    }
    forall x, k | x in multiset(rows) - multiset(r) && Matches(x, term) && 0 <= k < |r|
      ensures LexLe(NameKey(r[k]), NameKey(x))
    {
      assert x in multiset(m) - multiset(r);
    }
    r
  }

  // ---------------------------------------------------------------------------
  // The analytics bump each looked-up record gets
  // ---------------------------------------------------------------------------

  /** With unique ids, every record of `s` gains exactly one search and the others none. */
  lemma {:induction false} BumpOnce(rows: seq<Department>, s: seq<Department>, i: nat)
    requires UniqueIds(s) && i < |rows|
    ensures BumpCounts(rows, multiset(IdList(s)))[i].searchCount
         == rows[i].searchCount + (if rows[i].id in Ids(s) then 1 else 0)
  {
    UniqueCount(s, rows[i].id);
  }

  lemma {:induction false} UniqueCount(s: seq<Department>, id: nat)
    requires UniqueIds(s)
    ensures multiset(IdList(s))[id] == if id in Ids(s) then 1 else 0
  {
    if s != [] {
      UniqueCount(s[1..], id);
      assert IdList(s) == [s[0].id] + IdList(s[1..]);
    }
  }

  // ---------------------------------------------------------------------------
  // The handlers
  // ---------------------------------------------------------------------------

  /** `getDepartmentById`: the record's search count is raised before it is returned. */
  method GetDepartmentById(store: DepartmentStore, id: nat) returns (r: Reply)
    requires store.Valid()
    modifies store
    ensures store.Valid() && store.nextId == old(store.nextId)
    ensures Find(old(store.rows), id).None? ==> r == Fail(NOT_FOUND) && store.rows == old(store.rows)
    ensures Find(old(store.rows), id).Some? ==>
              var i := Find(old(store.rows), id).value;
              store.rows == old(store.rows)[i := Bumped(old(store.rows)[i])]
              && r == Reply(200, "Found: **" + NameKey(old(store.rows)[i]) + "**", [store.rows[i]])
  {
    var found := Find(store.rows, id);
    if found.None? {
      return Fail(NOT_FOUND);
    }
    var i := found.value;
    store.IncrementSearch(i);
    r := Reply(200, "Found: **" + NameKey(store.rows[i]) + "**", [store.rows[i]]);
  }

  /** A record as `Department.create(value)` casts it: strings trimmed, the code
      upper-cased, every other field at its default. */
  function FromFields(f: V.DepartmentFields): Department {
    Department(0, TrimmedOpt(f.name), UpperTrimmedOpt(f.code), TrimmedOpt(f.building), f.floor, [],
               f.latitude, f.longitude, TrimmedOpt(f.mapLink), TrimmedOpt(f.photo360Link),
               Contact(None, None, None), Hod(None, None, None),
               VisitingHours(Hours(None, None), Hours(None, None), []), [], 0,
               TrimmedOpt(f.description))
  }

  /** A Mongoose validation error listing the offending paths. */
  function SchemaFailure(paths: seq<string>): AppError {
    AppError("ValidationError", "Department validation failed", None, None, paths, [], None)
  }

  /** Some stored name equals `name`, ignoring case. */
  predicate NameTaken(rows: seq<Department>, name: string) {
    exists i :: 0 <= i < |rows| && rows[i].name.Some? && EqualsIgnoreCase(rows[i].name.value, name)
  }

  /** Why `addDepartment` refuses a body, in the order the checks run, or `None`. */
  function AddRefusal(rows: seq<Department>, body: Body): Option<Reply> {
    match V.Validate(body, V.Create)
    case Err(m) => Some(Fail(m))
    case Ok(f) => FieldsRefusal(rows, f)
  }

  /** The checks of `addDepartment` after the schema: the code, then the name,
      then the model's validators. */
  function FieldsRefusal(rows: seq<Department>, f: V.DepartmentFields): (r: Option<Reply>)
    requires f.code.Some? && f.name.Some?
    ensures r.None? ==> !CodeTaken(rows, f.code.value) && SchemaValid(FromFields(f))
  {
    var code := f.code.value;
    var name := f.name.value;
    if CodeTaken(rows, code) then Some(Fail("Department with code \"" + code + "\" already exists"))
    else if NameTaken(rows, name) then Some(Fail("Department \"" + name + "\" already exists"))
    else
      var paths := SchemaErrors(FromFields(f));
      if paths != [] then Some(Failed(SchemaFailure(paths))) else None
  }

  /** `addDepartment` */
  method AddDepartment(store: DepartmentStore, body: Body) returns (r: Reply)
    requires store.Valid()
    modifies store
    ensures store.Valid()
    ensures AddRefusal(old(store.rows), body).Some? ==>
              r == AddRefusal(old(store.rows), body).value && store.rows == old(store.rows)
    ensures AddRefusal(old(store.rows), body).None? ==>
              var d := FromFields(V.Validate(body, V.Create).value).(id := old(store.nextId));
              store.rows == old(store.rows) + [d]
              && r == Reply(201, "Added new department: **" + d.name.value + "** (" + d.code.value + ")", [d])
  {
    var refusal := AddRefusal(store.rows, body);
    if refusal.Some? {
      return refusal.value;
    }
    var f := V.Validate(body, V.Create).value;
    AddReady(store.rows, body);
    var d := FromFields(f);
    var stored := store.Insert(d);
    r := Reply(201, "Added new department: **" + stored.name.value + "** (" + stored.code.value + ")", [stored]);
  }

  /** A body `addDepartment` does not refuse gives a valid record whose code
      no stored record holds. */
  lemma AddReady(rows: seq<Department>, body: Body)
    requires AddRefusal(rows, body).None?
    ensures V.Validate(body, V.Create).Ok?
    ensures var d := FromFields(V.Validate(body, V.Create).value);
            SchemaValid(d) && d.code.Some? && !CodeTaken(rows, d.code.value) && d.name.Some?
  {
    AddRefusalNone(rows, body);
    V.CreateAccepted(body);
    FromFieldsCode(V.Validate(body, V.Create).value);
  }

  lemma AddRefusalNone(rows: seq<Department>, body: Body)
    requires AddRefusal(rows, body).None?
    ensures V.Validate(body, V.Create).Ok? && V.Validate(body, V.Create).value.code.Some?
    ensures SchemaValid(FromFields(V.Validate(body, V.Create).value))
    ensures !CodeTaken(rows, V.Validate(body, V.Create).value.code.value)
  {
  }

  /** A record built from accepted fields keeps the code and has a name. */
  lemma FromFieldsCode(f: V.DepartmentFields)
    requires f.name.Some? && f.code.Some? && IsCodeText(f.code.value)
    ensures FromFields(f).code == f.code && FromFields(f).name.Some?
  {
    CodeCastIsIdentity(f.code.value);
  }

  /** A code Joi accepted is already upper case and free of white space. */
  lemma CodeCastIsIdentity(code: string)
    requires IsCodeText(code)
    ensures Trim(ToUpper(code)) == code
  {
    assert ToUpper(code) == code;
    assert !HasSpace(code) by {
      forall k | 0 <= k < |code| ensures !IsSpace(code[k]) {
        assert IsAsciiUpper(code[k]) || IsDigit(code[k]);
      }
    }
    TrimOfSpaceFree(code);
  }

  /** The record after `findByIdAndUpdate(id, value)`: the keys present are
      set, cast as on create. */
  function Updated(d: Department, f: V.DepartmentFields): Department {
    d.(name := if f.name.Some? then TrimmedOpt(f.name) else d.name,
       code := if f.code.Some? then UpperTrimmedOpt(f.code) else d.code,
       description := if f.description.Some? then TrimmedOpt(f.description) else d.description,
       latitude := if f.latitude.Some? then f.latitude else d.latitude,
       longitude := if f.longitude.Some? then f.longitude else d.longitude,
       building := if f.building.Some? then TrimmedOpt(f.building) else d.building,
       floor := if f.floor.Some? then f.floor else d.floor,
       mapLink := if f.mapLink.Some? then TrimmedOpt(f.mapLink) else d.mapLink,
       photo360Link := if f.photo360Link.Some? then TrimmedOpt(f.photo360Link) else d.photo360Link)
  }

  /** The update validators (`runValidators`): the paths being set that fail. */
  function UpdatePathErrors(f: V.DepartmentFields): seq<string> {
    (if f.name.Some? then Check(NameOk(TrimmedOpt(f.name)), "name") else [])
    + (if f.code.Some? then Check(CodeOk(UpperTrimmedOpt(f.code)), "code") else [])
    + (if f.floor.Some? then Check(FloorOk(f.floor), "floor") else [])
    + (if f.latitude.Some? then Check(LatitudeOk(f.latitude), "latitude") else [])
    + (if f.longitude.Some? then Check(LongitudeOk(f.longitude), "longitude") else [])
  }

  /** Another record than `id` holds `code`. */
  predicate CodeHeldByOther(rows: seq<Department>, code: string, id: nat) {
    exists i :: 0 <= i < |rows| && rows[i].code == Some(code) && rows[i].id != id
  }

  /** Why `updateDepartment` refuses, in the order the checks run, or `None`. */
  function UpdateRefusal(rows: seq<Department>, id: nat, body: Body): Option<Reply> {
    match V.Validate(body, V.Update)
    case Err(m) => Some(Fail(m))
    case Ok(f) => UpdateFieldsRefusal(rows, id, f)
  }

  /** The checks of `updateDepartment` after the schema: the code, then the
      validators of the paths being set, then the id. */
  function UpdateFieldsRefusal(rows: seq<Department>, id: nat, f: V.DepartmentFields): (r: Option<Reply>)
    ensures r.None? ==>
              !(f.code.Some? && CodeHeldByOther(rows, f.code.value, id))
              && UpdatePathErrors(f) == [] && Find(rows, id).Some?
  {
    if f.code.Some? && CodeHeldByOther(rows, f.code.value, id) then
      Some(Fail("Code \"" + f.code.value + "\" is already used by another department"))
    else if UpdatePathErrors(f) != [] then Some(Failed(SchemaFailure(UpdatePathErrors(f))))
    else if Find(rows, id).None? then Some(Fail(NOT_FOUND))
    else None
  }

  /** Setting only paths that pass their validators keeps a valid record valid. */
  lemma UpdatedStaysValid(d: Department, f: V.DepartmentFields)
    requires SchemaValid(d) && UpdatePathErrors(f) == []
    ensures SchemaValid(Updated(d, f))
  {
    if f.name.Some? { assert Check(NameOk(TrimmedOpt(f.name)), "name") == []; }
    if f.code.Some? {
      assert (if f.code.Some? then Check(CodeOk(UpperTrimmedOpt(f.code)), "code") else []) == [];
    }
  }

  /** A body `updateDepartment` does not refuse gives a valid record, with
      the same id, whose code no other record holds. */
  lemma UpdateReady(rows: seq<Department>, id: nat, body: Body)
    requires IdsIncreasing(rows) && CodesDistinct(rows) && AllValid(rows)
    requires UpdateRefusal(rows, id, body).None?
    ensures V.Validate(body, V.Update).Ok? && Find(rows, id).Some?
    ensures var i := Find(rows, id).value;
            var d := Updated(rows[i], V.Validate(body, V.Update).value);
            d.id == rows[i].id && SchemaValid(d)
            && forall k :: 0 <= k < |rows| && k != i ==> rows[k].code != d.code
  {
    var f := V.Validate(body, V.Update).value;
    var i := Find(rows, id).value;
    var d := Updated(rows[i], f);
    UpdatedStaysValid(rows[i], f);
    forall k | 0 <= k < |rows| && k != i ensures rows[k].code != d.code {
      if f.code.Some? {
        CodeCastIsIdentity(f.code.value);
        assert rows[k].id != id by {
          IncreasingUnique(rows);
          assert rows[i].id == id;
        }
      } else {
        assert d.code == rows[i].code;
        if k < i { assert rows[k].code != rows[i].code; }
      }
    }
  }

  /** `updateDepartment` */
  method UpdateDepartment(store: DepartmentStore, id: nat, body: Body) returns (r: Reply)
    requires store.Valid()
    modifies store
    ensures store.Valid() && store.nextId == old(store.nextId)
    ensures UpdateRefusal(old(store.rows), id, body).Some? ==>
              r == UpdateRefusal(old(store.rows), id, body).value && store.rows == old(store.rows)
    ensures UpdateRefusal(old(store.rows), id, body).None? ==>
              var i := Find(old(store.rows), id).value;
              var d := Updated(old(store.rows)[i], V.Validate(body, V.Update).value);
              store.rows == old(store.rows)[i := d]
              && r == Reply(200, "Updated: **" + NameKey(d) + "**", [d])
  {
    var refusal := UpdateRefusal(store.rows, id, body);
    if refusal.Some? {
      return refusal.value;
    }
    var f := V.Validate(body, V.Update).value;
    var i := Find(store.rows, id).value;
    var d := Updated(store.rows[i], f);
    UpdateReady(store.rows, id, body);
    store.Replace(i, d);
    r := Reply(200, "Updated: **" + NameKey(d) + "**", [d]);
  }

  /** `deleteDepartment` */
  method DeleteDepartment(store: DepartmentStore, id: nat) returns (r: Reply)
    requires store.Valid()
    modifies store
    ensures store.Valid() && store.nextId == old(store.nextId)
    ensures Find(old(store.rows), id).None? ==> r == Fail(NOT_FOUND) && store.rows == old(store.rows)
    ensures Find(old(store.rows), id).Some? ==>
              var i := Find(old(store.rows), id).value;
              store.rows == RemoveAt(old(store.rows), i)
              && r == Removed(200, "Deleted: **" + NameKey(old(store.rows)[i]) + "**", REMOVED)
  {
    var found := Find(store.rows, id);
    if found.None? {
      return Fail(NOT_FOUND);
    }
    var name := NameKey(store.rows[found.value]);
    store.Delete(found.value);
    r := Removed(200, "Deleted: **" + name + "**", REMOVED);
  }

  /** The reply text when nothing matches. */
  function NoMatchAnswer(term: string): string {
    "No departments found for \"" + term + "\".\n\nTry:\n• \"CSE\"\n• \"Civil\"\n• \"Mechanical\"\n• \"Library\""
  }

  /** `searchDepartments` for the query parameter `name`. */
  method SearchDepartments(store: DepartmentStore, name: Option<string>) returns (r: Reply)
    requires store.Valid()
    modifies store
    ensures store.Valid() && store.nextId == old(store.nextId)
    ensures (name.None? || |Trim(name.value)| < 2) ==> r == Fail(SEARCH_TOO_SHORT) && store.rows == old(store.rows)
    ensures name.Some? && |Trim(name.value)| >= 2 ==>
              var term := Trim(name.value);
              var results := SearchResults(old(store.rows), term);
              store.rows == BumpCounts(old(store.rows), multiset(IdList(results)))
              && (results == [] ==> r == Reply(200, NoMatchAnswer(term), []))
              && (results != [] ==>
                    r == Reply(200, "Found " + CountText(|results|) + " department(s) matching \"" + term + "\":", results))
  {
    if name.None? || |Trim(name.value)| < 2 {
      return Fail(SEARCH_TOO_SHORT);
    }
    var term := Trim(name.value);
    var results := SearchResults(store.rows, term);
    if results == [] {
      BumpNothing(store.rows);
      return Reply(200, NoMatchAnswer(term), []);
    }
    store.IncrementSearchAll(IdList(results));
    r := Reply(200, "Found " + CountText(|results|) + " department(s) matching \"" + term + "\":", results);
  }

  // ---------------------------------------------------------------------------
  // Properties across the handlers
  // ---------------------------------------------------------------------------

  /** A search bumps every department it returns by exactly one and leaves the
      others alone. */
  lemma SearchBumpsEachResultOnce(rows: seq<Department>, term: string, i: nat)
    requires IdsIncreasing(rows) && i < |rows|
    ensures var results := SearchResults(rows, term);
            BumpCounts(rows, multiset(IdList(results)))[i].searchCount
            == rows[i].searchCount + (if rows[i].id in Ids(results) then 1 else 0)
  {
    IncreasingUnique(rows);
    MatchingUnique(rows, term);
    FirstByNameUnique(Matching(rows, term), SEARCH_LIMIT);
    BumpOnce(rows, SearchResults(rows, term), i);
  }

  // ---------------------------------------------------------------------------
  // The search bump as written: the projection drops the count
  // ---------------------------------------------------------------------------

  /** The fields `searchDepartments` selects; `searchCount` is not one of them. */
  const SEARCH_FIELDS: set<string> := {
    "name", "code", "description", "latitude", "longitude", "mapLink", "photo360Link", "building", "floor"
  }

  /** A number field of a loaded document: a value, `undefined` when the
      projection left it out, or `NaN`. */
  datatype Num = Value(n: int) | Undefined | NotANumber

  /** The search count of a stored record as a query selecting `fields` loads it. */
  function LoadedCount(d: Department, fields: set<string>): Num {
    if "searchCount" in fields then Value(d.searchCount) else Undefined
  }

  /** `this.searchCount += 1`: `undefined + 1` is `NaN`. */
  function PlusOne(x: Num): Num {
    if x.Value? then Value(x.n + 1) else NotANumber
  }

  /** What `this.save()` leaves stored: Mongoose refuses to cast `NaN` to a
      Number, so that save rejects and the record keeps its count. */
  function AfterSave(stored: Department, x: Num): Department {
    if x.Value? then stored.(searchCount := x.n) else stored
  }

  /** The stored rows after `incrementSearch()` ran, and its save settled, on
      every result loaded with `fields`. */
  function BumpLoaded(rows: seq<Department>, results: seq<Department>, fields: set<string>): (r: seq<Department>)
    ensures |r| == |rows|
  {
    seq(|rows|, i requires 0 <= i < |rows| =>
      if rows[i].id in Ids(results) then AfterSave(rows[i], PlusOne(LoadedCount(rows[i], fields))) else rows[i])
  }

  /** As written, no search count ever changes: the results are loaded without
      `searchCount`, so every bump saves `NaN` and is refused. */
  lemma SearchBumpsNothingAsWritten(rows: seq<Department>, term: string)
    ensures BumpLoaded(rows, SearchResults(rows, term), SEARCH_FIELDS) == rows
  {
    assert "searchCount" !in SEARCH_FIELDS;
    BumpsLostWithoutCount(rows, SearchResults(rows, term), SEARCH_FIELDS);
  }

  lemma BumpsLostWithoutCount(rows: seq<Department>, results: seq<Department>, fields: set<string>)
    requires "searchCount" !in fields
    ensures BumpLoaded(rows, results, fields) == rows
  {
    var r := BumpLoaded(rows, results, fields);
    forall i | 0 <= i < |rows| ensures r[i] == rows[i] {
    }
  }

  /** With `searchCount` among the selected fields, the settled bumps are the
      ones `SearchDepartments` applies. */
  lemma SearchBumpsWithCountSelected(rows: seq<Department>, term: string)
    requires IdsIncreasing(rows)
    ensures var results := SearchResults(rows, term);
            BumpLoaded(rows, results, SEARCH_FIELDS + {"searchCount"}) == BumpCounts(rows, multiset(IdList(results)))
  {
    var results := SearchResults(rows, term);
    var fields := SEARCH_FIELDS + {"searchCount"};
    var ids := multiset(IdList(results));
    var a := BumpLoaded(rows, results, fields);
    var b := BumpCounts(rows, ids);
    forall i | 0 <= i < |rows| ensures a[i] == b[i] {
      SearchBumpsEachResultOnce(rows, term, i);
      LoadedBumpAt(rows, results, fields, ids, i);
    }
  }

  /** A record loaded with its count gains one exactly when it is returned. */
  lemma LoadedBumpAt(rows: seq<Department>, results: seq<Department>, fields: set<string>,
                     ids: multiset<nat>, i: nat)
    requires "searchCount" in fields && i < |rows|
    requires BumpCounts(rows, ids)[i].searchCount
             == rows[i].searchCount + (if rows[i].id in Ids(results) then 1 else 0)
    ensures BumpLoaded(rows, results, fields)[i] == BumpCounts(rows, ids)[i]
  {
  }

  /** `addDepartment` refuses a code that is already stored, whatever the name,
      and this check comes before the name check. */
  lemma AddRefusesTakenCode(rows: seq<Department>, body: Body)
    requires V.Validate(body, V.Create).Ok?
    requires CodeTaken(rows, V.Validate(body, V.Create).value.code.value)
    ensures var code := V.Validate(body, V.Create).value.code.value;
            AddRefusal(rows, body) == Some(Fail("Department with code \"" + code + "\" already exists"))
  {
  }

  /** An update that keeps a department's own code is not refused for it. */
  lemma UpdateKeepsOwnCode(rows: seq<Department>, id: nat, body: Body)
    requires CodesDistinct(rows)
    requires V.Validate(body, V.Update).Ok? && V.Validate(body, V.Update).value.code.Some?
    requires Find(rows, id).Some?
    requires V.Validate(body, V.Update).value.code == rows[Find(rows, id).value].code
    ensures !CodeHeldByOther(rows, V.Validate(body, V.Update).value.code.value, id)
  {
  }
}

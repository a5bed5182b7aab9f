/** campus-connect-backend-main/controllers/aiController.js: the campus
    assistant. `askAI` answers in text and `askAIWithVoice` in speech; both
    run an ordered chain of intents over the lower-cased, trimmed query and
    the first one that applies answers.

    What the handlers ask of the outside world is the record `Env`: the
    groups the navigation patterns capture, the name the "where is X" pattern
    captures, the department and resource collections (`findOne` is the
    first record in storage order that matches), the router, the
    straight-line distance, the language model and the way JavaScript prints
    a number. Case mapping is ASCII-only, as everywhere in this model. */
module AiControllerMain {
  import opened Strings
  import opened AppErrors
  import D = DepartmentModel
  import R = ResourceModel

  /** Groups 1 and 2 of a navigation pattern that matched. */
  type Pair = (string, string)

  /** What `getRouteBetweenPoints` resolves to. */
  datatype RouteInfo = RouteInfo(summary: string, duration: nat, steps: seq<string>)

  datatype Env = Env(
    // The navigation patterns of the handler the record goes to, in order.
    // The two handlers have different lists (aiController.js lines 105-109
    // for `askAI`, lines 267-271 for `askAIWithVoice`), so each is called with
    // a record holding its own route's list.
    patterns: seq<string -> Option<Pair>>,
    capture: Option<string>,
    depts: seq<D.Department>,
    rows: seq<R.Resource>,
    routeOf: (D.Department, D.Department) -> Option<RouteInfo>,
    distanceOf: (D.Department, D.Department) -> nat,
    ai: string -> string,
    num: real -> string)

  const ASK_ERROR := "Please ask a question."

  // ---------------------------------------------------------------------------
  // Shared pieces of both handlers
  // ---------------------------------------------------------------------------

  /** `qry.toLowerCase().trim()` */
  function Lowered(qry: string): string { Trim(ToLower(qry)) }

  /** `${x}` of a text field that may be unset. */
  function OptText(o: Option<string>): string { if o.Some? then o.value else "undefined" }

  /** `${x}` of a number field that may be unset. */
  function NumText(o: Option<real>, num: real -> string): string {
    if o.Some? then num(o.value) else "undefined"
  }

  function NameText(d: D.Department): string { OptText(d.name) }

  /** `dept.floor ? ... : ''`: an unset floor and floor 0 are both falsy. */
  predicate FloorShown(d: D.Department) { d.floor.Some? && d.floor.value != 0.0 }

  /** The first pattern, in list order from `i`, that matches the query. */
  function FirstMatch(lower: string, patterns: seq<string -> Option<Pair>>, i: nat): (r: Option<Pair>)
    requires i <= |patterns|
    ensures r.Some? ==> exists k :: i <= k < |patterns| && patterns[k](lower) == r
                          && forall j :: i <= j < k ==> patterns[j](lower).None?
    ensures r.None? <==> forall k :: i <= k < |patterns| ==> patterns[k](lower).None?
    decreases |patterns| - i
  {
    if i == |patterns| then None
    else if patterns[i](lower).Some? then patterns[i](lower)
    else FirstMatch(lower, patterns, i + 1)
  }

  /** The `for ... break` over the navigation patterns: `from` and `to` are
      the trimmed groups of the first pattern that matches, or both null. */
  method NavigationTargets(lower: string, patterns: seq<string -> Option<Pair>>)
    returns (from: Option<string>, to: Option<string>)
    ensures FirstMatch(lower, patterns, 0).Some? ==>
              from == Some(Trim(FirstMatch(lower, patterns, 0).value.0))
              && to == Some(Trim(FirstMatch(lower, patterns, 0).value.1))
    ensures FirstMatch(lower, patterns, 0).None? ==> from.None? && to.None?
  {
    from, to := None, None;
    var i := 0;
    while i < |patterns|
      invariant 0 <= i <= |patterns|
      invariant FirstMatch(lower, patterns, 0) == FirstMatch(lower, patterns, i)
      invariant from.None? && to.None?
    {
      var m := patterns[i](lower);
      if m.Some? {
        from := Some(Trim(m.value.0));
        to := Some(Trim(m.value.1));
        return;
      }
      i := i + 1;
    }
  }

  /** `if (from && to)`: some pattern matched and neither trimmed group is empty. */
  predicate NavRequested(m: Option<Pair>) {
    m.Some? && Trim(m.value.0) != "" && Trim(m.value.1) != ""
  }

  /** `findOne` with `{ code: text.toUpperCase() }` or a case-insensitive name
      pattern, anchored (`^text$`) or not. The text is taken literally. */
  predicate DeptMatches(d: D.Department, text: string, anchored: bool) {
    d.code == Some(ToUpper(text))
    || (d.name.Some? &&
        (if anchored then EqualsIgnoreCase(d.name.value, text) else ContainsIgnoreCase(d.name.value, text)))
  }

  /** The first department in storage order that matches, or null. */
  function FindDepartment(depts: seq<D.Department>, text: string, anchored: bool): (r: Option<D.Department>)
    ensures r.Some? ==> exists k :: 0 <= k < |depts| && depts[k] == r.value && DeptMatches(r.value, text, anchored)
                          && forall j :: 0 <= j < k ==> !DeptMatches(depts[j], text, anchored)
    ensures r.None? <==> forall k :: 0 <= k < |depts| ==> !DeptMatches(depts[k], text, anchored)
  {
    if depts == [] then None
    else if DeptMatches(depts[0], text, anchored) then Some(depts[0])
    else
      var r := FindDepartment(depts[1..], text, anchored);
      assert forall k :: 1 <= k < |depts| ==> depts[k] == depts[1..][k - 1];
      r
  }

  /** The department name of the location intent, in this order: a
      department code as a whole word, else the "where is X" capture trimmed,
      else the query with the keywords cut out, trimmed. */
  function LocationName(lower: string, codes: seq<string>, capture: Option<string>, strip: seq<string>): (name: string)
    requires forall k :: 0 <= k < |strip| ==> |strip[k]| > 0
    ensures FirstWordAltFrom(lower, 0, codes).Some? ==>
              name == FirstWordAltFrom(lower, 0, codes).value && name in codes
    ensures FirstWordAltFrom(lower, 0, codes).None? && capture.Some? ==> name == Trim(capture.value)
    ensures FirstWordAltFrom(lower, 0, codes).None? && capture.None? ==>
              name == Trim(RemoveAlts(lower, strip)) && |name| <= |lower|
  {
    match FirstWordAltFrom(lower, 0, codes)
    case Some(code) => code
    case None =>
      if capture.Some? then Trim(capture.value) else Trim(RemoveAlts(lower, strip))
  }

  // ---------------------------------------------------------------------------
  // createVoiceResponse
  // ---------------------------------------------------------------------------

  predicate Hindi(lang: string) { lang == "hi" }

  /** The greeting, "नमस्ते!" for 'hi' and "Hello!" otherwise, ending with an
      offer of help. */
  function Greeting(lang: string): (r: string)
    ensures IsPrefix(if Hindi(lang) then "नमस्ते!" else "Hello!", r)
    ensures IsSuffix("?", r)
  {
    var word := if Hindi(lang) then "नमस्ते!" else "Hello!";
    var rest := if Hindi(lang) then " मैं MMMUT कैंपस AI हूँ। मैं आपकी कैसे मदद कर सकती हूँ"
                else " I am MMMUT Campus AI. How can I help you today";
    Framed(word, rest, "?");
    word + rest + "?"
  }

  const HI_REFUSAL_SCOPE := " कैंपस से जुड़े सवालों का जवाब दे सकती हूँ। जैसे विभाग की जानकारी, रास्ते, या नोट्स।"
  const EN_REFUSAL_SCOPE := " campus related questions, such as departments, directions, or study materials."

  /** The refusal, in Hindi for 'hi' and in English otherwise, naming MMMUT. */
  function OffTopic(lang: string): (r: string)
    ensures IsPrefix(if Hindi(lang) then "क्षमा करें" else "I apologize", r)
    ensures Contains(r, "MMMUT")
  {
    var opening := if Hindi(lang) then "क्षमा करें" else "I apologize";
    var middle := if Hindi(lang) then ", मैं केवल " else ", but I can only help with ";
    var rest := if Hindi(lang) then HI_REFUSAL_SCOPE else EN_REFUSAL_SCOPE;
    Mentions(opening, middle, "MMMUT", rest);
    opening + middle + "MMMUT" + rest
  }

  /** `a + b + t + c` starts with `a` and holds `t`. */
  lemma Mentions(a: string, b: string, t: string, c: string)
    ensures IsPrefix(a, a + b + t + c) && Contains(a + b + t + c, t)
  {
    assert (a + b + t + c)[..|a|] == a;
    ContainsMiddle(a + b, t, c);
  }

  /** `a + b + c` starts with `a` and ends with `c`. */
  lemma Framed(a: string, b: string, c: string)
    ensures IsPrefix(a, a + b + c) && IsSuffix(c, a + b + c)
  {
    assert (a + b + c)[..|a|] == a;
    assert (a + b + c)[|a + b + c| - |c|..] == c;
  }

  /** One line per step, `<before><i><after><step>` with `i` counting from 1:
      every line starts with `before`, ends with its step, and carries its
      number right after `before`. */
  function Numbered(steps: seq<string>, before: string, after: string): (r: seq<string>)
    ensures |r| == |steps|
    ensures forall i :: 0 <= i < |r| ==> IsPrefix(before, r[i]) && IsSuffix(steps[i], r[i])
    ensures forall i :: 0 <= i < |r| ==> IsPrefix(before + NatToString(i + 1) + after, r[i])
  {
    seq(|steps|, i requires 0 <= i < |steps| => NumberedLine(before, i + 1, after, steps[i]))
  }

  function NumberedLine(before: string, n: nat, after: string, step: string): (line: string)
    ensures IsPrefix(before, line) && IsSuffix(step, line)
    ensures IsPrefix(before + NatToString(n) + after, line)
  {
    var head := before + NatToString(n) + after;
    var line := head + step;
    assert line[..|head|] == head;
    assert line[..|before|] == before;
    assert line[|line| - |step|..] == step;
    line
  }

  /** The steps as spoken: `1. s` in Hindi, `Step 1: s` otherwise. */
  function NumberedSteps(steps: seq<string>, lang: string): seq<string> {
    if Hindi(lang) then Numbered(steps, "", ". ") else Numbered(steps, "Step ", ": ")
  }

  function SpokenSteps(steps: seq<string>, lang: string): string {
    Join(NumberedSteps(Take(steps, 3), lang), if Hindi(lang) then ". फिर " else ". Then ")
  }

  function Navigation(from: string, to: string, route: RouteInfo, lang: string): (r: string)
    ensures |r| > 0
  {
    if Hindi(lang) then
      from + " से " + to + " जाने के लिए: " + route.summary + "। " + SpokenSteps(route.steps, lang)
      + "। यह लगभग " + NatToString(route.duration) + " मिनट का रास्ता है।"
    else
      "To go from " + from + " to " + to + ": " + route.summary + ". " + SpokenSteps(route.steps, lang)
      + ". This will take approximately " + NatToString(route.duration) + " minutes."
  }

  function NavigationFallback(from: string, to: string, distance: nat, lang: string): (r: string)
    ensures |r| > 0
  {
    if Hindi(lang) then
      from + " से " + to + " की दूरी लगभग " + NatToString(distance)
      + " मीटर है। कृपया कैंपस के रास्तों का उपयोग करें। आप किसी भी छात्र से भी रास्ता पूछ सकते हैं।"
    else
      "The distance from " + from + " to " + to + " is approximately " + NatToString(distance)
      + " meters. Please use the campus pathways. You can also ask any student for directions."
  }

  function BuildingPart(d: D.Department, lang: string): string {
    if Hindi(lang) then (if Given(d.building) then d.building.value + " में" else "मुख्य कैंपस में")
    else if Given(d.building) then d.building.value else "main campus"
  }

  function FloorPart(d: D.Department, lang: string, num: real -> string): string {
    if !FloorShown(d) then ""
    else if Hindi(lang) then ", मंजिल " + num(d.floor.value) + " पर"
    else ", on floor " + num(d.floor.value)
  }

  function ContactPart(d: D.Department, lang: string): string {
    if !Given(d.contact.phone) then ""
    else if Hindi(lang) then " संपर्क नंबर है " + d.contact.phone.value + "."
    else " You can contact them at " + d.contact.phone.value + "."
  }

  function HoursPart(d: D.Department, lang: string): string {
    var h := d.visitingHours.weekdays;
    if !Given(h.open) then ""
    else if Hindi(lang) then " खुलने का समय " + h.open.value + " से " + OptText(h.close) + " तक है."
    else " They are open from " + h.open.value + " to " + OptText(h.close) + " on weekdays."
  }

  function DepartmentLocation(d: D.Department, lang: string, num: real -> string): (r: string)
    ensures |r| > 0
  {
    if Hindi(lang) then
      NameText(d) + " " + BuildingPart(d, lang) + FloorPart(d, lang, num) + " स्थित है।"
      + ContactPart(d, lang) + HoursPart(d, lang)
    else
      NameText(d) + " is located in " + BuildingPart(d, lang) + FloorPart(d, lang, num) + "."
      + ContactPart(d, lang) + HoursPart(d, lang)
  }

  function ForPart(deptName: Option<string>, lang: string): string {
    if !Given(deptName) then ""
    else if Hindi(lang) then deptName.value + " के लिए "
    else " for " + deptName.value
  }

  function StudyMaterials(deptName: Option<string>, count: nat, lang: string): (r: string)
    ensures |r| > 0
  {
    if Hindi(lang) then
      ForPart(deptName, lang) + NatToString(count) + " अध्ययन सामग्री उपलब्ध है। आप इन्हें स्टडी हब में देख सकते हैं।"
    else
      "There " + (if count == 1 then "is" else "are") + " " + NatToString(count) + " study material"
      + (if count == 1 then "" else "s") + " available" + ForPart(deptName, lang)
      + STUDY_TAIL
  }

  const STUDY_TAIL := ". You can view them in the Study Hub."

  function NoMaterials(deptName: Option<string>, lang: string): (r: string)
    ensures |r| > 0
  {
    if Hindi(lang) then
      ForPart(deptName, lang) + "अभी कोई अध्ययन सामग्री उपलब्ध नहीं है। आप अपने नोट्स अपलोड कर सकते हैं।"
    else
      "There are no study materials available" + ForPart(deptName, lang)
      + " at the moment. You can upload your notes to help others."
  }

  function NotFound(query: string, lang: string): (r: string)
    ensures |r| > 0
  {
    if Hindi(lang) then "क्षमा करें, मुझे \"" + query + "\" के बारे में जानकारी नहीं मिली। कृपया विभाग का पूरा नाम बताएं।"
    else "I'm sorry, I couldn't find information about \"" + query + "\". Please provide the full department name."
  }

  // ---------------------------------------------------------------------------
  // Properties of the formatters
  // ---------------------------------------------------------------------------

  /** Only the first three steps are spoken: the rest never changes the
      speech, and each of the first three is in it. */
  lemma NavigationSpeaksThree(from: string, to: string, route: RouteInfo, lang: string)
    ensures Navigation(from, to, route, lang) == Navigation(from, to, route.(steps := Take(route.steps, 3)), lang)
    ensures forall i :: 0 <= i < Min(3, |route.steps|) ==> Contains(Navigation(from, to, route, lang), route.steps[i])
  {
    var cut := route.(steps := Take(route.steps, 3));
    assert Take(cut.steps, 3) == Take(route.steps, 3);
    var spoken := SpokenSteps(route.steps, lang);
    var head := if Hindi(lang) then from + " से " + to + " जाने के लिए: " + route.summary + "। "
                else "To go from " + from + " to " + to + ": " + route.summary + ". ";
    var tail := if Hindi(lang) then "। यह लगभग " + NatToString(route.duration) + " मिनट का रास्ता है।"
                else ". This will take approximately " + NatToString(route.duration) + " minutes.";
    assert Navigation(from, to, route, lang) == head + spoken + tail;
    forall i | 0 <= i < Min(3, |route.steps|)
      ensures Contains(Navigation(from, to, route, lang), route.steps[i])
    {
      SpokenStepContained(route.steps, lang, i);
      ContainsInRight(head, spoken, route.steps[i]);
      ContainsInLeft(head + spoken, tail, route.steps[i]);
    }
  }

  /** Each of the first three steps is in the spoken list. */
  lemma SpokenStepContained(steps: seq<string>, lang: string, i: nat)
    requires i < Min(3, |steps|)
    ensures Contains(SpokenSteps(steps, lang), steps[i])
  {
    var parts := NumberedSteps(Take(steps, 3), lang);
    var sep := if Hindi(lang) then ". फिर " else ". Then ";
    var prefix := if Hindi(lang) then NatToString(i + 1) + ". " else "Step " + NatToString(i + 1) + ": ";
    assert parts[i] == prefix + steps[i];
    assert OccursAt(steps[i], steps[i], 0);
    ContainsInRight(prefix, steps[i], steps[i]);
    JoinContainsPart(parts, sep, i);
    StillContained(parts[i], SpokenSteps(steps, lang), steps[i]);
  }

  /** What a part contains, a text containing the part contains too. */
  lemma StillContained(part: string, whole: string, t: string)
    requires Contains(part, t) && Contains(whole, part)
    ensures Contains(whole, t)
  {
    var i :| 0 <= i <= |part| - |t| && OccursAt(part, t, i);
    var j :| 0 <= j <= |whole| - |part| && OccursAt(whole, part, j);
    forall k | 0 <= k < |t| ensures whole[j + i + k] == t[k] {
      assert whole[j..j + |part|][i + k] == whole[j + i + k];
      assert part[i..i + |t|][k] == part[i + k];
    }
    assert OccursAt(whole, t, j + i);
  }

  /** A department without a building, or with an empty one, is in the
      "main campus". */
  lemma BuildingDefault(d: D.Department, num: real -> string)
    ensures DepartmentLocation(d.(building := None), "en", num)
            == DepartmentLocation(d.(building := Some("main campus")), "en", num)
    ensures DepartmentLocation(d.(building := Some("")), "en", num)
            == DepartmentLocation(d.(building := None), "en", num)
  {
    var e1, e2, e3 := d.(building := None), d.(building := Some("main campus")), d.(building := Some(""));
    assert BuildingPart(e1, "en") == BuildingPart(e2, "en") == BuildingPart(e3, "en");
    assert FloorPart(e1, "en", num) == FloorPart(e2, "en", num) == FloorPart(e3, "en", num);
    assert ContactPart(e1, "en") == ContactPart(e2, "en") == ContactPart(e3, "en");
    assert HoursPart(e1, "en") == HoursPart(e2, "en") == HoursPart(e3, "en");
    assert NameText(e1) == NameText(e2) == NameText(e3);
  }

  /** A floor of 0 is omitted exactly like an unset one, in both languages. */
  lemma FloorZeroOmitted(d: D.Department, lang: string, num: real -> string)
    ensures DepartmentLocation(d.(floor := Some(0.0)), lang, num) == DepartmentLocation(d.(floor := None), lang, num)
  {
    var e1, e2 := d.(floor := Some(0.0)), d.(floor := None);
    assert FloorPart(e1, lang, num) == "" == FloorPart(e2, lang, num);
    assert BuildingPart(e1, lang) == BuildingPart(e2, lang);
    assert ContactPart(e1, lang) == ContactPart(e2, lang);
    assert HoursPart(e1, lang) == HoursPart(e2, lang);
    assert NameText(e1) == NameText(e2);
  }

  /** Without floor, phone and opening time the sentence is the name and the
      building alone. */
  lemma DepartmentLocationBare(d: D.Department, num: real -> string)
    requires !FloorShown(d) && !Given(d.contact.phone) && !Given(d.visitingHours.weekdays.open)
    ensures DepartmentLocation(d, "en", num) == NameText(d) + " is located in " + BuildingPart(d, "en") + "."
  {
    assert FloorPart(d, "en", num) == "" && ContactPart(d, "en") == "" && HoursPart(d, "en") == "";
  }

  /** The text before the contact sentence. */
  function LocationHead(d: D.Department, lang: string, num: real -> string): string {
    if Hindi(lang) then NameText(d) + " " + BuildingPart(d, lang) + FloorPart(d, lang, num) + " स्थित है।"
    else NameText(d) + " is located in " + BuildingPart(d, lang) + FloorPart(d, lang, num) + "."
  }

  lemma LocationSplits(d: D.Department, lang: string, num: real -> string)
    ensures DepartmentLocation(d, lang, num) == LocationHead(d, lang, num) + ContactPart(d, lang) + HoursPart(d, lang)
  {
  }

  /** A given phone number is spoken. */
  lemma PhoneMentioned(d: D.Department, lang: string, num: real -> string)
    requires Given(d.contact.phone)
    ensures Contains(DepartmentLocation(d, lang, num), d.contact.phone.value)
  {
    var phone := d.contact.phone.value;
    var c0 := if Hindi(lang) then " संपर्क नंबर है " else " You can contact them at ";
    var head := LocationHead(d, lang, num);
    var c := ContactPart(d, lang);
    var h := HoursPart(d, lang);
    assert c == c0 + (phone + ".");
    LocationSplits(d, lang, num);
    PrefixContained(phone, ".");
    ContainsInRight(c0, phone + ".", phone);
    ContainsInRight(head, c, phone);
    ContainsInLeft(head + c, h, phone);
  }

  /** A given opening time is spoken. */
  lemma OpeningMentioned(d: D.Department, lang: string, num: real -> string)
    requires Given(d.visitingHours.weekdays.open)
    ensures Contains(DepartmentLocation(d, lang, num), d.visitingHours.weekdays.open.value)
  {
    var open := d.visitingHours.weekdays.open.value;
    var h0 := if Hindi(lang) then " खुलने का समय " else " They are open from ";
    var h1 := if Hindi(lang) then " से " + OptText(d.visitingHours.weekdays.close) + " तक है."
              else " to " + OptText(d.visitingHours.weekdays.close) + " on weekdays.";
    var h := HoursPart(d, lang);
    assert h == h0 + (open + h1);
    LocationSplits(d, lang, num);
    PrefixContained(open, h1);
    ContainsInRight(h0, open + h1, open);
    ContainsInRight(LocationHead(d, lang, num) + ContactPart(d, lang), h, open);
  }

  /** The English sentence up to the department. */
  function StudyHead(count: nat): string {
    "There " + (if count == 1 then "is" else "are") + " " + NatToString(count) + " study material"
    + (if count == 1 then "" else "s") + " available"
  }

  lemma StudySplits(deptName: Option<string>, count: nat)
    ensures StudyMaterials(deptName, count, "en") == StudyHead(count) + ForPart(deptName, "en") + STUDY_TAIL
  {
  }

  /** "There is 1 study material" for one: singular verb and noun. */
  lemma StudyMaterialsSingular(count: nat)
    requires count == 1
    ensures StudyMaterials(None, count, "en") == "There is " + NatToString(count) + " study material available" + STUDY_TAIL
  {
    StudySplits(None, count);
  }

  /** "There are N study materials" for any other count. */
  lemma StudyMaterialsPlural(count: nat)
    requires count != 1
    ensures StudyMaterials(None, count, "en") == "There are " + NatToString(count) + " study materials available" + STUDY_TAIL
  {
    StudySplits(None, count);
  }

  /** A department adds " for <dept>" before the last sentence and nothing
      else; an empty one adds nothing. */
  lemma StudyMaterialsFor(deptName: string, count: nat)
    requires deptName != ""
    ensures StudyMaterials(Some(""), count, "en") == StudyMaterials(None, count, "en")
    ensures var plain := StudyMaterials(None, count, "en");
            IsSuffix(STUDY_TAIL, plain)
            && StudyMaterials(Some(deptName), count, "en")
               == plain[..|plain| - |STUDY_TAIL|] + " for " + deptName + STUDY_TAIL
  {
    StudySplits(None, count);
    StudySplits(Some(""), count);
    StudySplits(Some(deptName), count);
    var plain := StudyMaterials(None, count, "en");
    assert plain == StudyHead(count) + STUDY_TAIL;
    assert plain[..|plain| - |STUDY_TAIL|] == StudyHead(count);
    assert plain[|plain| - |STUDY_TAIL|..] == STUDY_TAIL;
  }

  /** A Hindi marker is never ASCII, so the language is 'hi' only for a
      query with a non-ASCII character. */
  lemma MarkersAreNotAscii()
    ensures forall k :: 0 <= k < |HINDI_MARKERS| ==> |HINDI_MARKERS[k]| > 0 && HINDI_MARKERS[k][0] >= '\U{0900}'
  {
  }

  // ---------------------------------------------------------------------------
  // askAI
  // ---------------------------------------------------------------------------

  const TEXT_OFF_TOPIC: seq<string> := [
    "weather", "news", "stock", "movie", "song", "joke", "elon musk", "chatgpt", "who are you",
    "hello", "hi", "bye", "thank you", "love", "date", "time", "capital", "president", "prime minister"]

  const OFF_TOPIC_ANSWER := "I help with **MMMUT campus only** — departments, navigation, and study materials.\n\nTry:\n• \"Where is CSE?\"\n• \"Give me Civil notes\"\n• \"Library to CSE\""

  const TEXT_LOCATION_KEYWORDS: seq<string> := ["where", "location", "find", "कहा", "department", "dept", "विभाग"]
  const TEXT_CODES: seq<string> := ["cse", "ce", "ee", "me", "ece", "it", "che", "lib", "can", "adm"]
  const TEXT_STRIP: seq<string> := ["where", "is", "location", "find", "department", "dept", "the"]
  const SPECIFY_NAME := "Please specify a department name, like 'CSE' or 'Civil'."
  const NOT_FOUND_TIPS := " on campus.\n\nTry:\n• \"Where is CSE?\"\n• \"Find Civil department\"\n• \"Location of Library\""
  const NO_STUDY_TIPS := ".\nCheck **StudyHub** or try another department."

  const TEXT_STUDY_KEYWORDS: seq<string> := ["notes", "study", "material", "pdf", "नोट्स", "पढ़ाई", "resources", "resource"]
  const TEXT_STUDY_DEPTS: seq<string> := [
    "cse", "civil", "mechanical", "electrical", "ece", "it", "architecture", "सीएसई", "सिविल", "मैकेनिकल"]
  const TEXT_STUDY_LIMIT: nat := 3

  /** The text route's replies: a JSON `answer`, or the error handed to `next`. */
  datatype TextReply = Answer(answer: string) | Failed(error: AppError)

  /** The error `fromDept.latitude` raises when `findOne` found nothing. */
  const NULL_LATITUDE := PlainError("TypeError", "Cannot read properties of null (reading 'latitude')")

  function TextPrompt(qry: string): string {
    "You are MMMUT Campus AI. Answer in 1-2 short sentences. Query: \"" + qry + "\""
  }

  /** Every step of the route, numbered from 1, one per line. */
  function ListedSteps(steps: seq<string>): seq<string> {
    Numbered(steps, "Step ", ": ")
  }

  /** The answer for two departments found: both names in bold, then the
      route's summary and every step numbered from 1, or when the router
      throws, the straight-line distance in meters. */
  function RouteText(fd: D.Department, td: D.Department, env: Env): (r: string)
    ensures Contains(r, Bold(NameText(fd))) && Contains(r, Bold(NameText(td)))
    ensures env.routeOf(fd, td).Some? ==> Contains(r, env.routeOf(fd, td).value.summary)
    ensures env.routeOf(fd, td).Some? ==>
              forall i :: 0 <= i < |env.routeOf(fd, td).value.steps| ==>
                Contains(r, "Step " + NatToString(i + 1) + ": " + env.routeOf(fd, td).value.steps[i])
    ensures env.routeOf(fd, td).None? ==> Contains(r, NatToString(env.distanceOf(fd, td)) + " meters")
  {
    match env.routeOf(fd, td)
    case Some(route) =>
      var names := BetweenNames("From ", NameText(fd), NameText(td));
      var mid := ": " + route.summary + "\n\n";
      var tail := mid + Join(ListedSteps(route.steps), "\n");
      ContainsMiddle(": ", route.summary, "\n\n");
      ContainsInLeft(mid, Join(ListedSteps(route.steps), "\n"), route.summary);
      ContainsInRight(names, tail, route.summary);
      ContainsInLeft(names, tail, Bold(NameText(fd)));
      ContainsInLeft(names, tail, Bold(NameText(td)));
      StepsListed(names, mid, route.steps);
      names + tail
    case None =>
      var names := BetweenNames("Route from ", NameText(fd), NameText(td));
      var distance := NatToString(env.distanceOf(fd, td)) + " meters";
      var tail := " unavailable.\n\nApproximate: " + distance + ". Walk campus paths.";
      ContainsMiddle(" unavailable.\n\nApproximate: ", distance, ". Walk campus paths.");
      ContainsInRight(names, tail, distance);
      ContainsInLeft(names, tail, Bold(NameText(fd)));
      ContainsInLeft(names, tail, Bold(NameText(td)));
      names + tail
  }

  /** `<lead>**<from>** to **<to>**`, which holds both names in bold. */
  function BetweenNames(lead: string, from: string, to: string): (r: string)
    ensures Contains(r, Bold(from)) && Contains(r, Bold(to))
  {
    ContainsMiddle(lead, Bold(from), " to ");
    ContainsInLeft(lead + Bold(from) + " to ", Bold(to), Bold(from));
    SuffixContained(lead + Bold(from) + " to ", Bold(to));
    lead + Bold(from) + " to " + Bold(to)
  }

  /** Every numbered step line is in `names + (mid + <the lines joined>)`. */
  lemma StepsListed(names: string, mid: string, steps: seq<string>)
    ensures forall i :: 0 <= i < |steps| ==>
              Contains(names + (mid + Join(ListedSteps(steps), "\n")), "Step " + NatToString(i + 1) + ": " + steps[i])
  {
    JoinedAfter(mid, ListedSteps(steps), "\n");
    forall i | 0 <= i < |steps|
      ensures Contains(names + (mid + Join(ListedSteps(steps), "\n")), "Step " + NatToString(i + 1) + ": " + steps[i])
    {
      assert ListedSteps(steps)[i] == "Step " + NatToString(i + 1) + ": " + steps[i];
      ContainsInRight(names, mid + Join(ListedSteps(steps), "\n"), ListedSteps(steps)[i]);
    }
  }

  /** The navigation intent as its comments describe it: a route when both
      departments are found, and nothing (the language model answers) when
      either is missing. */
  function TextNavigation(from: string, to: string, env: Env): (r: Option<string>)
    ensures r.Some? <==> FindDepartment(env.depts, from, true).Some? && FindDepartment(env.depts, to, true).Some?
  {
    var fd := FindDepartment(env.depts, from, true);
    var td := FindDepartment(env.depts, to, true);
    if fd.None? || td.None? then None else Some(RouteText(fd.value, td.value, env))
  }

  /** The navigation intent as written: the route is computed from the two
      departments whether or not they were found, so a missing one raises a
      TypeError in the `try` and again in its `catch`. */
  function TextNavigationAsWritten(from: string, to: string, env: Env): (r: TextReply)
    ensures r.Failed? <==> FindDepartment(env.depts, from, true).None? || FindDepartment(env.depts, to, true).None?
    ensures r.Failed? ==> r.error == NULL_LATITUDE
  {
    var fd := FindDepartment(env.depts, from, true);
    var td := FindDepartment(env.depts, to, true);
    if fd.None? || td.None? then Failed(NULL_LATITUDE) else Answer(RouteText(fd.value, td.value, env))
  }

  /** The text route's location answer: the name in bold first, the building
      in bold ("Main Campus" when unset), the floor when it is set and not 0,
      the coordinates, and the map link last when there is one. */
  function LocationText(d: D.Department, num: real -> string): (r: string)
    ensures IsPrefix(Bold(NameText(d)), r)
    ensures Contains(r, Bold(OrElse(d.building, "Main Campus")))
    ensures FloorShown(d) ==> Contains(r, "(Floor " + num(d.floor.value) + ")")
    ensures Contains(r, "Coordinates: (" + NumText(d.latitude, num) + ", " + NumText(d.longitude, num) + ")")
    ensures Given(d.mapLink) ==> IsSuffix(d.mapLink.value, r)
  {
    var name := Bold(NameText(d));
    var building := Bold(OrElse(d.building, "Main Campus"));
    var floor := if FloorShown(d) then "(Floor " + num(d.floor.value) + ")" else "";
    var coordinates := "Coordinates: (" + NumText(d.latitude, num) + ", " + NumText(d.longitude, num) + ")";
    var link := if Given(d.mapLink) then d.mapLink.value else "";
    var mapLine := if Given(d.mapLink) then "\U{1F5FA}\U{FE0F} Map: " + link else "";
    LocationShape(name, " is located in ", building, floor, coordinates, "\U{1F5FA}\U{FE0F} Map: ", link, Given(d.mapLink));
    name + (" is located in " + building + (" " + floor + (".\n\n" + coordinates + "\n\n")) + mapLine)
  }

  /** The parts of a location answer all occur in it, the name first and the
      map line, when shown, last. */
  lemma LocationShape(name: string, lead: string, building: string, floor: string, coordinates: string,
                      caption: string, link: string, shown: bool)
    ensures var mapLine := if shown then caption + link else "";
            var w := name + (lead + building + (" " + floor + (".\n\n" + coordinates + "\n\n")) + mapLine);
            IsPrefix(name, w) && Contains(w, building) && Contains(w, floor) && Contains(w, coordinates)
            && (shown ==> IsSuffix(link, w))
  {
    var mapLine := if shown then caption + link else "";
    var after := ".\n\n" + coordinates + "\n\n";
    var mid := " " + floor + after;
    var rest := lead + building + mid + mapLine;
    ContainsMiddle(lead, building, mid);
    ContainsInLeft(lead + building + mid, mapLine, building);
    ContainsMiddle(".\n\n", coordinates, "\n\n");
    ContainsInRight(" " + floor, after, coordinates);
    ContainsMiddle(" ", floor, after);
    ContainsMiddle(lead + building, mid, mapLine);
    StillContained(mid, rest, coordinates);
    StillContained(mid, rest, floor);
    ContainsInRight(name, rest, building);
    ContainsInRight(name, rest, coordinates);
    ContainsInRight(name, rest, floor);
    assert (name + rest)[..|name|] == name;
    if shown {
      assert (name + rest)[|name + rest| - |link|..] == link;
    }
  }

  /** The department name of a text location query. */
  function TextName(lower: string, capture: Option<string>): string {
    StripWordsNonEmpty();
    LocationName(lower, TEXT_CODES, capture, TEXT_STRIP)
  }

  /** The location intent: a request to name a department when the name is
      shorter than two characters, the department's location when one
      matches it, and otherwise a reply naming it in bold. */
  function TextLocation(lower: string, env: Env): (r: string)
    ensures |TextName(lower, env.capture)| < 2 ==> r == SPECIFY_NAME
    ensures var name := TextName(lower, env.capture);
            |name| >= 2 && FindDepartment(env.depts, name, false).Some? ==>
              r == LocationText(FindDepartment(env.depts, name, false).value, env.num)
    ensures var name := TextName(lower, env.capture);
            |name| >= 2 && FindDepartment(env.depts, name, false).None? ==>
              IsPrefix("I couldn't find ", r) && Contains(r, Bold(name))
  {
    var name := TextName(lower, env.capture);
    if |name| < 2 then SPECIFY_NAME
    else match FindDepartment(env.depts, name, false)
      case Some(d) => LocationText(d, env.num)
      case None =>
        Framed("I couldn't find ", Bold(name), NOT_FOUND_TIPS);
        ContainsMiddle("I couldn't find ", Bold(name), NOT_FOUND_TIPS);
        "I couldn't find " + Bold(name) + NOT_FOUND_TIPS
  }

  /** The department condition of the text route's study query: the first
      department word in the query, matched anywhere in the field. */
  function TextStudyMatch(lower: string): R.DepartmentMatch {
    match FirstAltFrom(lower, 0, TEXT_STUDY_DEPTS)
    case Some(dept) => R.DepartmentHas(dept)
    case None => R.AnyDepartment
  }

  /** `Resource.find(filter).limit(3).sort({ createdAt: -1 })`: at most three,
      newest first, of every status. */
  function TextStudyPicks(lower: string, rows: seq<R.Resource>): (picks: seq<R.Resource>)
    ensures |picks| == Min(TEXT_STUDY_LIMIT, |R.Select(rows, R.Filter(false, TextStudyMatch(lower), None))|)
    ensures forall i :: 0 <= i < |picks| ==> picks[i] in rows && R.DepartmentMatches(picks[i], TextStudyMatch(lower))
    ensures R.IdsIncreasing(rows) ==> R.IdsDecreasing(picks)
  {
    R.Latest(rows, R.Filter(false, TextStudyMatch(lower), None), TEXT_STUDY_LIMIT)
  }

  function Bullets(picks: seq<R.Resource>): (r: seq<string>)
    ensures |r| == |picks|
  {
    seq(|picks|, i requires 0 <= i < |picks| =>
      "• [" + R.TitleText(picks[i]) + "](" + OptText(picks[i].fileUrl) + ")")
  }

  /** Every pick's bullet is in `head + <the bullets joined>`. */
  lemma BulletsListed(head: string, picks: seq<R.Resource>)
    ensures forall i :: 0 <= i < |picks| ==>
              Contains(head + Join(Bullets(picks), "\n"), "• [" + R.TitleText(picks[i]) + "](" + OptText(picks[i].fileUrl) + ")")
  {
    JoinedAfter(head, Bullets(picks), "\n");
    forall i | 0 <= i < |picks|
      ensures Contains(head + Join(Bullets(picks), "\n"), "• [" + R.TitleText(picks[i]) + "](" + OptText(picks[i].fileUrl) + ")")
    {
      assert Bullets(picks)[i] == "• [" + R.TitleText(picks[i]) + "](" + OptText(picks[i].fileUrl) + ")";
    }
  }

  /** The list of picks under a heading that names the department. */
  function StudyList(deptName: string, picks: seq<R.Resource>): (r: string)
    ensures IsPrefix("Here are study materials", r) && Contains(r, deptName)
    ensures forall i :: 0 <= i < |picks| ==>
              Contains(r, "• [" + R.TitleText(picks[i]) + "](" + OptText(picks[i].fileUrl) + ")")
  {
    var head := "Here are study materials" + deptName + ":\n";
    Framed("Here are study materials", deptName, ":\n");
    ContainsMiddle("Here are study materials", deptName, ":\n");
    ContainsInLeft(head, Join(Bullets(picks), "\n"), deptName);
    BulletsListed(head, picks);
    assert (head + Join(Bullets(picks), "\n"))[..|"Here are study materials"|] == head[..|"Here are study materials"|];
    head + Join(Bullets(picks), "\n")
  }

  /** The study intent: a bullet linking each pick, or a reply that none was
      found; either names the first department word of the query, upper-cased
      and in bold, when there is one. */
  function TextStudy(lower: string, rows: seq<R.Resource>): (r: string)
    ensures var picks := TextStudyPicks(lower, rows);
            |picks| > 0 ==>
              IsPrefix("Here are study materials", r)
              && forall i :: 0 <= i < |picks| ==>
                   Contains(r, "• [" + R.TitleText(picks[i]) + "](" + OptText(picks[i].fileUrl) + ")")
    ensures |TextStudyPicks(lower, rows)| == 0 ==> IsPrefix("No study materials found", r)
    ensures FirstAltFrom(lower, 0, TEXT_STUDY_DEPTS).Some? ==>
              Contains(r, " for " + Bold(ToUpper(FirstAltFrom(lower, 0, TEXT_STUDY_DEPTS).value)))
  {
    var dept := FirstAltFrom(lower, 0, TEXT_STUDY_DEPTS);
    var picks := TextStudyPicks(lower, rows);
    var deptName := if dept.Some? then " for " + Bold(ToUpper(dept.value)) else "";
    if |picks| > 0 then StudyList(deptName, picks)
    else
      Framed("No study materials found", deptName, NO_STUDY_TIPS);
      ContainsMiddle("No study materials found", deptName, NO_STUDY_TIPS);
      "No study materials found" + deptName + NO_STUDY_TIPS
  }

  /** Intents 2 to 4: the location, the study materials, else the language model. */
  function TextRest(qry: string, lower: string, env: Env): (r: string)
    ensures ContainsAny(lower, TEXT_LOCATION_KEYWORDS) ==> r == TextLocation(lower, env)
    ensures !ContainsAny(lower, TEXT_LOCATION_KEYWORDS) && ContainsAny(lower, TEXT_STUDY_KEYWORDS) ==>
              r == TextStudy(lower, env.rows)
    ensures !ContainsAny(lower, TEXT_LOCATION_KEYWORDS) && !ContainsAny(lower, TEXT_STUDY_KEYWORDS) ==>
              r == env.ai(TextPrompt(qry))
  {
    if ContainsAny(lower, TEXT_LOCATION_KEYWORDS) then TextLocation(lower, env)
    else if ContainsAny(lower, TEXT_STUDY_KEYWORDS) then TextStudy(lower, env.rows)
    else env.ai(TextPrompt(qry))
  }

  /** The navigation intent's answer: the route, or the language model's
      answer when a department is missing. */
  function NavAnswer(qry: string, from: string, to: string, env: Env): (a: string)
    ensures FindDepartment(env.depts, from, true).None? ==> a == env.ai(TextPrompt(qry))
  {
    match TextNavigation(from, to, env)
    case Some(a) => a
    case None => env.ai(TextPrompt(qry))
  }

  /** `askAI`, with the navigation intent falling back to the language model
      when a department is missing: only a missing query is an error, an
      off-topic query is answered only when it is a listed phrase as a whole,
      and navigation is tried before everything else. */
  function AskAI(qry: Option<string>, env: Env): (r: TextReply)
    ensures r.Failed? <==> !Given(qry)
    ensures r.Failed? ==> r.error == PlainError("Error", ASK_ERROR)
    ensures Given(qry) && Lowered(qry.value) in TEXT_OFF_TOPIC ==> r == Answer(OFF_TOPIC_ANSWER)
    ensures Given(qry) && Lowered(qry.value) !in TEXT_OFF_TOPIC
            && !NavRequested(FirstMatch(Lowered(qry.value), env.patterns, 0)) ==>
              r == Answer(TextRest(qry.value, Lowered(qry.value), env))
  {
    if !Given(qry) then Failed(PlainError("Error", ASK_ERROR))
    else
      var lower := Lowered(qry.value);
      if lower in TEXT_OFF_TOPIC then Answer(OFF_TOPIC_ANSWER)
      else
        var m := FirstMatch(lower, env.patterns, 0);
        if NavRequested(m) then
          Answer(NavAnswer(qry.value, Trim(m.value.0), Trim(m.value.1), env))
        else Answer(TextRest(qry.value, lower, env))
  }

  /** `askAI` as written, where the navigation intent dereferences the
      departments it did not find. */
  function AskAIAsWritten(qry: Option<string>, env: Env): (r: TextReply)
    ensures r.Failed? ==> !Given(qry) || r.error == NULL_LATITUDE
  {
    if !Given(qry) then Failed(PlainError("Error", ASK_ERROR))
    else
      var lower := Lowered(qry.value);
      if lower in TEXT_OFF_TOPIC then Answer(OFF_TOPIC_ANSWER)
      else
        var m := FirstMatch(lower, env.patterns, 0);
        if NavRequested(m) then TextNavigationAsWritten(Trim(m.value.0), Trim(m.value.1), env)
        else Answer(TextRest(qry.value, lower, env))
  }

  /** A route request naming a department that does not exist fails with a
      TypeError as written, where the comments mean the language model to
      answer. */
  lemma UnknownDepartmentFails(qry: string, env: Env)
    requires qry != "" && Lowered(qry) !in TEXT_OFF_TOPIC
    requires NavRequested(FirstMatch(Lowered(qry), env.patterns, 0))
    requires FindDepartment(env.depts, Trim(FirstMatch(Lowered(qry), env.patterns, 0).value.0), true).None?
    ensures AskAIAsWritten(Some(qry), env) == Failed(NULL_LATITUDE)
  {
  }

  /** The corrected handler answers such a request with the language model. */
  lemma UnknownDepartmentAsksModel(qry: string, env: Env)
    requires qry != "" && Lowered(qry) !in TEXT_OFF_TOPIC
    requires NavRequested(FirstMatch(Lowered(qry), env.patterns, 0))
    requires FindDepartment(env.depts, Trim(FirstMatch(Lowered(qry), env.patterns, 0).value.0), true).None?
    ensures AskAI(Some(qry), env) == Answer(env.ai(TextPrompt(qry)))
  {
  }

  /** Whenever the query as written is answered, the answer is the one the
      corrected handler gives. */
  lemma AnsweredAsIntended(qry: Option<string>, env: Env)
    requires AskAIAsWritten(qry, env).Answer?
    ensures AskAIAsWritten(qry, env) == AskAI(qry, env)
  {
    var lower := Lowered(qry.value);
    if lower !in TEXT_OFF_TOPIC {
      var m := FirstMatch(lower, env.patterns, 0);
      if NavRequested(m) {
        var w := TextNavigationAsWritten(Trim(m.value.0), Trim(m.value.1), env);
        assert NavAnswer(qry.value, Trim(m.value.0), Trim(m.value.1), env) == w.answer;
      }
    }
  }

  /** The study intent of the text route lists a matching resource whatever
      its status, where the voice route counts approved resources only. */
  lemma StudyRoutesDisagreeOnStatus(lower: string, x: R.Resource)
    requires x.status == "pending" && R.DepartmentMatches(x, TextStudyMatch(lower))
    ensures TextStudyPicks(lower, [x]) == [x]
    ensures VoiceStudyCount(lower, [x]) == 0
  {
    TextStudyKeepsPending(lower, x);
    VoiceStudySkipsPending(lower, x);
  }

  lemma TextStudyKeepsPending(lower: string, x: R.Resource)
    requires R.DepartmentMatches(x, TextStudyMatch(lower))
    ensures TextStudyPicks(lower, [x]) == [x]
  {
    R.SelectOne(x, R.Filter(false, TextStudyMatch(lower), None));
    var picks := TextStudyPicks(lower, [x]);
    assert picks[0] in [x];
  }

  lemma VoiceStudySkipsPending(lower: string, x: R.Resource)
    requires x.status == "pending"
    ensures VoiceStudyCount(lower, [x]) == 0
  {
    R.SelectOne(x, VoiceStudyFilter(lower));
  }

  // ---------------------------------------------------------------------------
  // askAIWithVoice
  // ---------------------------------------------------------------------------

  const HINDI_MARKERS: seq<string> := [
    "है", "कहा", "कहां", "विभाग", "नोट्स", "लाइब्रेरी", "कैंटीन", "हिंदी", "हिन्दी", "से", "को", "के"]
  const GREETINGS: seq<string> := ["hello", "hi", "hey", "namaste", "नमस्ते", "नमस्कार"]
  const VOICE_OFF_TOPIC: seq<string> := [
    "weather", "news", "movie", "joke", "song", "elon musk", "chatgpt", "who are you",
    "bye", "thank you", "thanks", "love", "date", "time"]
  const VOICE_LOCATION_KEYWORDS: seq<string> := ["where", "location", "find", "कहा", "कहां", "department", "dept", "विभाग"]
  const VOICE_CODES: seq<string> := ["cse", "ce", "ee", "me", "ece", "it", "lib", "can", "adm", "hos"]
  const VOICE_STRIP: seq<string> := ["where", "is", "location", "find", "department", "dept", "the", "कहा", "कहां", "है"]
  const VOICE_STUDY_KEYWORDS: seq<string> := ["notes", "study", "material", "नोट्स", "पढ़ाई", "सामग्री", "resources"]
  const VOICE_STUDY_DEPTS: seq<string> := [
    "cse", "civil", "mechanical", "electrical", "ece", "it", "सीएसई", "सिविल", "मैकेनिकल"]
  const VOICE_STUDY_LIMIT: nat := 5
  const VOICE_FAILED := "Voice file generation failed"

  /** 'hi' exactly when the raw query contains a Hindi marker, else 'en'. */
  function VoiceLanguage(qry: string): (lang: string)
    ensures lang == "hi" || lang == "en"
  {
    if ContainsAny(qry, HINDI_MARKERS) then "hi" else "en"
  }

  /** A text whose every character is below the first character of `t`
      does not contain `t`. */
  lemma BelowFirstChar(s: string, t: string)
    requires |t| > 0 && forall i :: 0 <= i < |s| ==> s[i] < t[0]
    ensures !Contains(s, t)
  {
    forall i | 0 <= i <= |s| - |t| ensures !OccursAt(s, t, i) {
      assert s[i..i + |t|][0] == s[i];
    }
  }

  /** A query written without Devanagari is answered in English. */
  lemma LatinQueryIsEnglish(qry: string)
    requires forall i :: 0 <= i < |qry| ==> qry[i] < '\U{0900}'
    ensures VoiceLanguage(qry) == "en"
  {
    MarkersAreNotAscii();
    forall k | 0 <= k < |HINDI_MARKERS| ensures !Contains(qry, HINDI_MARKERS[k]) {
      BelowFirstChar(qry, HINDI_MARKERS[k]);
    }
  }

  function VoicePrompt(qry: string, lang: string): string {
    if Hindi(lang) then "आप MMMUT कैंपस AI हैं। संक्षिप्त और स्पष्ट हिंदी में जवाब दें (2-3 वाक्य): \"" + qry + "\""
    else "You are MMMUT Campus AI. Give a brief, conversational answer in 2-3 sentences: \"" + qry + "\""
  }

  /** The navigation intent: "not found" names `from` when its department is
      missing and `to` otherwise; two departments found give the route, or
      the distance when the router throws. */
  function VoiceNavigation(from: string, to: string, lang: string, env: Env): (a: string)
    ensures FindDepartment(env.depts, from, true).None? ==> a == NotFound(from, lang)
    ensures FindDepartment(env.depts, from, true).Some? && FindDepartment(env.depts, to, true).None? ==>
              a == NotFound(to, lang)
    ensures a != ""
  {
    var fd := FindDepartment(env.depts, from, true);
    var td := FindDepartment(env.depts, to, true);
    if fd.None? || td.None? then NotFound(if fd.None? then from else to, lang)
    else match env.routeOf(fd.value, td.value)
      case Some(route) => Navigation(NameText(fd.value), NameText(td.value), route, lang)
      case None => NavigationFallback(NameText(fd.value), NameText(td.value), env.distanceOf(fd.value, td.value), lang)
  }

  lemma StripWordsNonEmpty()
    ensures forall k :: 0 <= k < |TEXT_STRIP| ==> |TEXT_STRIP[k]| > 0
    ensures forall k :: 0 <= k < |VOICE_STRIP| ==> |VOICE_STRIP[k]| > 0
  {
  }

  /** The department name the voice route's location intent looks up. */
  function VoiceLocationName(lower: string, capture: Option<string>): string {
    StripWordsNonEmpty();
    LocationName(lower, VOICE_CODES, capture, VOICE_STRIP)
  }

  /** The voice route's reply to a location question without a usable name. */
  function AskForDepartment(lang: string): string {
    if Hindi(lang) then "कृपया विभाग का नाम बताएं, जैसे CSE या Civil।"
    else "Please specify a department name, like CSE or Civil."
  }

  /** The location intent: a name shorter than two characters is asked for
      again; a longer name gives the department's location when it is found
      and "not found" for that name otherwise. */
  function VoiceLocation(lower: string, lang: string, env: Env): (a: string)
    ensures a != ""
    ensures |VoiceLocationName(lower, env.capture)| < 2 ==> a == AskForDepartment(lang)
    ensures var name := VoiceLocationName(lower, env.capture);
            |name| >= 2 && FindDepartment(env.depts, name, true).Some? ==>
              a == DepartmentLocation(FindDepartment(env.depts, name, true).value, lang, env.num)
    ensures var name := VoiceLocationName(lower, env.capture);
            |name| >= 2 && FindDepartment(env.depts, name, true).None? ==> a == NotFound(name, lang)
  {
    var name := VoiceLocationName(lower, env.capture);
    if |name| < 2 then AskForDepartment(lang)
    else match FindDepartment(env.depts, name, true)
      case Some(d) => DepartmentLocation(d, lang, env.num)
      case None => NotFound(name, lang)
  }

  /** The department of the voice route's study query, upper-cased. */
  function VoiceStudyDept(lower: string): Option<string> {
    match FirstAltFrom(lower, 0, VOICE_STUDY_DEPTS)
    case Some(dept) => Some(ToUpper(dept))
    case None => None
  }

  function VoiceStudyFilter(lower: string): R.Filter {
    var dept := VoiceStudyDept(lower);
    R.Filter(true, if dept.Some? then R.DepartmentIs(dept.value) else R.AnyDepartment, None)
  }

  /** `Resource.find({ status: 'approved', ... }).limit(5).length` */
  function VoiceStudyCount(lower: string, rows: seq<R.Resource>): (n: nat)
    ensures n == Min(VOICE_STUDY_LIMIT, |R.Select(rows, VoiceStudyFilter(lower))|)
  {
    |Take(R.Select(rows, VoiceStudyFilter(lower)), VOICE_STUDY_LIMIT)|
  }

  /** The study intent: "no materials" exactly when no approved resource of the
      asked department exists, otherwise the count of at most five of them. */
  function VoiceStudy(lower: string, lang: string, rows: seq<R.Resource>): (a: string)
    ensures a != ""
    ensures R.Select(rows, VoiceStudyFilter(lower)) == [] ==> a == NoMaterials(VoiceStudyDept(lower), lang)
    ensures R.Select(rows, VoiceStudyFilter(lower)) != [] ==>
              a == StudyMaterials(VoiceStudyDept(lower), Min(VOICE_STUDY_LIMIT, |R.Select(rows, VoiceStudyFilter(lower))|), lang)
  {
    var count := VoiceStudyCount(lower, rows);
    if count > 0 then StudyMaterials(VoiceStudyDept(lower), count, lang)
    else NoMaterials(VoiceStudyDept(lower), lang)
  }

  /** Navigation, location and study in turn: empty exactly when none of
      them applies, which is when the language model is asked. */
  function VoiceBranch(lower: string, lang: string, env: Env): (a: string)
    ensures a == "" <==>
              !NavRequested(FirstMatch(lower, env.patterns, 0))
              && !ContainsAny(lower, VOICE_LOCATION_KEYWORDS) && !ContainsAny(lower, VOICE_STUDY_KEYWORDS)
  {
    var m := FirstMatch(lower, env.patterns, 0);
    if NavRequested(m) then VoiceNavigation(Trim(m.value.0), Trim(m.value.1), lang, env)
    else if ContainsAny(lower, VOICE_LOCATION_KEYWORDS) then VoiceLocation(lower, lang, env)
    else if ContainsAny(lower, VOICE_STUDY_KEYWORDS) then VoiceStudy(lower, lang, env.rows)
    else ""
  }

  /** What the voice route speaks, and in which language. */
  datatype Spoken = Spoken(answer: string, lang: string)

  /** The greeting is checked before the off-topic list, and the language
      model answers only what no intent answered. */
  function VoiceAnswer(qry: string, env: Env): (s: Spoken)
    ensures s.lang == VoiceLanguage(qry)
    ensures Lowered(qry) in GREETINGS ==> s.answer == Greeting(s.lang)
    ensures Lowered(qry) !in GREETINGS && Lowered(qry) in VOICE_OFF_TOPIC ==> s.answer == OffTopic(s.lang)
    ensures Lowered(qry) !in GREETINGS && Lowered(qry) !in VOICE_OFF_TOPIC ==>
              (VoiceBranch(Lowered(qry), s.lang, env) != "" ==> s.answer == VoiceBranch(Lowered(qry), s.lang, env))
              && (VoiceBranch(Lowered(qry), s.lang, env) == "" ==> s.answer == env.ai(VoicePrompt(qry, s.lang)))
  {
    var lower := Lowered(qry);
    var lang := VoiceLanguage(qry);
    if lower in GREETINGS then Spoken(Greeting(lang), lang)
    else if lower in VOICE_OFF_TOPIC then Spoken(OffTopic(lang), lang)
    else
      var a := VoiceBranch(lower, lang, env);
      Spoken(if a == "" then env.ai(VoicePrompt(qry, lang)) else a, lang)
  }

  /** The voice route's replies: the audio file sent, or the error handed to `next`. */
  datatype VoiceReply = Audio(path: string) | VoiceFailed(error: AppError)

  /** `askAIWithVoice`: `tts` is `textToSpeech` (a path, or the error it
      throws) and `fileExists` is `fs.existsSync`. */
  function AskAIWithVoice(qry: Option<string>, env: Env, tts: (string, string) -> Result<string, AppError>,
                          fileExists: string -> bool): (r: VoiceReply)
    ensures !Given(qry) ==> r == VoiceFailed(PlainError("Error", ASK_ERROR))
    ensures r.Audio? ==>
              Given(qry) && r.path != "" && fileExists(r.path)
              && tts(VoiceAnswer(qry.value, env).answer, VoiceAnswer(qry.value, env).lang) == Ok(r.path)
    ensures Given(qry) && tts(VoiceAnswer(qry.value, env).answer, VoiceAnswer(qry.value, env).lang).Ok? ==>
              var path := tts(VoiceAnswer(qry.value, env).answer, VoiceAnswer(qry.value, env).lang).value;
              r == (if path != "" && fileExists(path) then Audio(path) else VoiceFailed(PlainError("Error", VOICE_FAILED)))
  {
    if !Given(qry) then VoiceFailed(PlainError("Error", ASK_ERROR))
    else
      var s := VoiceAnswer(qry.value, env);
      match tts(s.answer, s.lang)
      case Err(e) => VoiceFailed(e)
      case Ok(path) => if path != "" && fileExists(path) then Audio(path) else VoiceFailed(PlainError("Error", VOICE_FAILED))
  }

  /** "hello" is off-topic in the text route and a greeting in the voice route. */
  lemma HelloByRoute(qry: string, env: Env)
    requires qry == "hello"
    ensures AskAI(Some(qry), env) == Answer(OFF_TOPIC_ANSWER)
    ensures VoiceAnswer(qry, env).answer == Greeting("en")
  {
    HelloLowered(qry);
    HelloListed(qry);
    OffTopicAnswered(qry, env);
    GreetingAnswered(qry, env);
  }

  lemma HelloListed(qry: string)
    requires qry == "hello"
    ensures qry in TEXT_OFF_TOPIC && qry in GREETINGS
  {
    assert TEXT_OFF_TOPIC[9] == qry;
    assert GREETINGS[0] == qry;
  }

  lemma OffTopicAnswered(qry: string, env: Env)
    requires qry != "" && Lowered(qry) in TEXT_OFF_TOPIC
    ensures AskAI(Some(qry), env) == Answer(OFF_TOPIC_ANSWER)
  {
  }

  lemma GreetingAnswered(qry: string, env: Env)
    requires Lowered(qry) in GREETINGS
    ensures VoiceAnswer(qry, env).answer == Greeting(VoiceLanguage(qry))
  {
  }

  lemma HelloLowered(qry: string)
    requires qry == "hello"
    ensures Lowered(qry) == qry && VoiceLanguage(qry) == "en"
  {
    ToLowerOfUncapitalised(qry);
    TrimOfSpaceFree(qry);
    LatinQueryIsEnglish(qry);
  }
}

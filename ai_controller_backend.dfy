/** backend/controllers/aiController.js: the second campus assistant. Every
    answer is a pair of texts, one to speak and one to display, built by
    `responseBuilder`; `askAIWithVoice` picks the first intent of a fixed chain
    that applies, speaks the speech text and returns the display text with
    the address of the audio file.

    As for the other assistant, what the handler asks of the outside world is
    a record: whether the navigation test holds and what the navigation
    pattern captures, the department and resource collections, the router,
    the straight-line distance, the language model and the way JavaScript
    prints a number. */
module AiControllerBackend {
  import opened Strings
  import opened AppErrors
  import D = DepartmentModel
  import R = ResourceModel
  import M = AiControllerMain

  /** A `{ speech, display }` pair. */
  datatype Response = Response(speech: string, display: string)

  /** A JavaScript value found in `route.steps`: a string, or anything else
      (null, undefined, a number, an object). */
  datatype StepValue = Text(s: string) | NotText

  /** `route.steps`: absent, not an array, or an array. */
  datatype StepsValue = NoSteps | NotArray | Steps(items: seq<StepValue>)

  /** The route object; unset fields are `None`. */
  datatype RouteData = RouteData(summary: Option<string>, duration: Option<nat>, steps: StepsValue)

  /** What `getRouteBetweenPoints` does: throws, or resolves to a route (or to nothing). */
  datatype RouteCall = Threw | Resolved(route: Option<RouteData>)

  datatype Env = Env(
    navTest: bool,
    navCapture: Option<M.Pair>,
    depts: seq<D.Department>,
    rows: seq<R.Resource>,
    routeOf: (D.Department, D.Department) -> RouteCall,
    distanceOf: (D.Department, D.Department) -> nat,
    ai: string -> string,
    num: real -> string)

  predicate Hindi(lang: string) { lang == "hi" }

  // ---------------------------------------------------------------------------
  // Fixed campus data
  // ---------------------------------------------------------------------------

  datatype Event = Event(name: string, date: string, venue: string, desc: string)
  datatype Bus = Bus(route: string, time: string, stop: string)

  const EVENTS: seq<Event> := [
    Event("Heats 2025", "27th Dec", "MPH Hall", "Annual Tech Fest"),
    Event("Alumni Meet", "25thDec", "Guest House", "Reunion")]
  const MESS_TODAY := "Puri Sabzi (Breakfast), Paneer Butter Masala (Dinner)"
  const BUSES: seq<Bus> := [
    Bus("City to Campus", "8:00 AM", "Golghar"),
    Bus("Campus to City", "5:00 PM", "Main Gate")]

  const DUMMY_STEPS_EN: seq<string> := [
    "Exit the building and walk towards the main campus road",
    "Go straight for about 200 meters past the library",
    "Turn left; your destination building is straight ahead"]
  const DUMMY_STEPS_HI: seq<string> := [
    "इमारत से बाहर निकलें और मुख्य कैंपस सड़क की ओर चलें",
    "लाइब्रेरी के पास से लगभग 200 मीटर सीधा चलें",
    "बाएं मुड़ें; आपका गंतव्य भवन सीधे आगे है"]

  // ---------------------------------------------------------------------------
  // responseBuilder
  // ---------------------------------------------------------------------------

  /** The greeting, in Hindi for 'hi' and in English otherwise: the speech is
      the display without its wave and its bold marks. */
  function Greeting(lang: string): (r: Response)
    ensures Omit(r.display, '*') == "👋 " + r.speech
    ensures IsPrefix(if Hindi(lang) then "नमस्ते!" else "Hello!", r.speech)
  {
    var word := if Hindi(lang) then "नमस्ते!" else "Hello!";
    var rest := if Hindi(lang) then " मैं MMMUT कैंपस AI हूँ।" else " I am MMMUT Campus AI.";
    GreetingMarks("👋 ", word, rest);
    Response(word + rest, "👋 " + Bold(word) + rest)
  }

  lemma GreetingMarks(wave: string, word: string, rest: string)
    requires '*' !in wave && '*' !in word && '*' !in rest
    ensures Omit(wave + Bold(word) + rest, '*') == wave + (word + rest)
    ensures IsPrefix(word, word + rest)
  {
    assert Bold(word) == ['*', '*'] + word + ['*', '*'];
    OmitMarked(wave, word, rest, '*');
    assert wave + word + rest == wave + (word + rest);
    assert (word + rest)[..|word|] == word;
  }

  /** The display is headed "Off Topic" in bold. */
  function OffTopic(lang: string): (r: Response)
    ensures Contains(r.display, Bold("Off Topic"))
  {
    var display := "🚫 " + Bold("Off Topic") + "\nPlease ask about Departments, Navigation, or Events.";
    ContainsMiddle("🚫 ", Bold("Off Topic"), "\nPlease ask about Departments, Navigation, or Events.");
    Response("I can only help with MMMUT campus questions.", display)
  }

  /** The off-topic texts are the same in both languages. */
  lemma OffTopicIgnoresLanguage(lang: string)
    ensures OffTopic(lang) == OffTopic("en") == OffTopic("hi")
  {
  }

  function EventLines(events: seq<Event>): (r: seq<string>)
    ensures |r| == |events|
  {
    seq(|events|, i requires 0 <= i < |events| =>
      "📅 " + Bold(events[i].name) + ("\n📍 " + events[i].venue + " | 🗓️ " + events[i].date))
  }

  /** `events[0].name` needs a first event. The speech gives the number of
      events and the first one's name; the display names every event in bold. */
  function Events(events: seq<Event>): (r: Response)
    requires |events| > 0
    ensures IsPrefix(EventsHead(|events|), r.speech)
    ensures Contains(r.speech, events[0].name)
    ensures forall i :: 0 <= i < |events| ==> Contains(r.display, "📅 " + Bold(events[i].name))
  {
    var head := EventsHead(|events|);
    var speech := head + events[0].name + ".";
    assert speech[..|head|] == head;
    ContainsMiddle(head, events[0].name, ".");
    EventsListed(events);
    Response(speech, EVENTS_TITLE + Join(EventLines(events), "\n\n"))
  }

  function EventsHead(n: nat): string { "There are " + NatToString(n) + " upcoming events like " }
  const EVENTS_TITLE := "🎉 **Upcoming Events:**\n\n"

  lemma EventsListed(events: seq<Event>)
    ensures forall i :: 0 <= i < |events| ==>
              Contains(EVENTS_TITLE + Join(EventLines(events), "\n\n"), "📅 " + Bold(events[i].name))
  {
    var lines := EventLines(events);
    JoinedAfter(EVENTS_TITLE, lines, "\n\n");
    forall i | 0 <= i < |events|
      ensures Contains(EVENTS_TITLE + Join(lines, "\n\n"), "📅 " + Bold(events[i].name))
    {
      var bold := "📅 " + Bold(events[i].name);
      PrefixContained(bold, "\n📍 " + events[i].venue + " | 🗓️ " + events[i].date);
      M.StillContained(lines[i], EVENTS_TITLE + Join(lines, "\n\n"), bold);
    }
  }

  const MESS_SPEECH := "Today's menu includes Puri Sabzi and Paneer."

  /** The display ends with the menu it is given; the speech is one fixed
      sentence, whatever the menu. */
  function Mess(menu: string): (r: Response)
    ensures IsSuffix(menu, r.display)
    ensures r.speech == MESS_SPEECH
  {
    var display := "🍽️ **Mess Menu:**\n\n" + menu;
    assert display[|display| - |menu|..] == menu;
    Response(MESS_SPEECH, display)
  }

  function BusLines(buses: seq<Bus>): (r: seq<string>)
    ensures |r| == |buses|
  {
    seq(|buses|, i requires 0 <= i < |buses| => "🚌 " + Bold(buses[i].route) + ": " + buses[i].time)
  }

  const BUS_SPEECH := "Buses run at 8 AM and 5 PM."
  const BUS_TITLE := "🚌 **Bus Schedule:**\n\n"

  /** The display lists every bus with its time; the speech is one fixed
      sentence, whatever the buses. */
  function Buses(buses: seq<Bus>): (r: Response)
    ensures forall i :: 0 <= i < |buses| ==> Contains(r.display, "🚌 " + Bold(buses[i].route) + ": " + buses[i].time)
    ensures r.speech == BUS_SPEECH
  {
    BusesListed(buses);
    Response(BUS_SPEECH, BUS_TITLE + Join(BusLines(buses), "\n"))
  }

  lemma BusesListed(buses: seq<Bus>)
    ensures forall i :: 0 <= i < |buses| ==>
              Contains(BUS_TITLE + Join(BusLines(buses), "\n"), "🚌 " + Bold(buses[i].route) + ": " + buses[i].time)
  {
    JoinedAfter(BUS_TITLE, BusLines(buses), "\n");
    forall i | 0 <= i < |buses|
      ensures Contains(BUS_TITLE + Join(BusLines(buses), "\n"), "🚌 " + Bold(buses[i].route) + ": " + buses[i].time)
    {
      assert BusLines(buses)[i] == "🚌 " + Bold(buses[i].route) + ": " + buses[i].time;
    }
  }

  /** A step the route check refuses: falsy, the text 'undefined', or not a string. */
  predicate BadStep(v: StepValue) {
    v == NotText || v == Text("") || v == Text("undefined")
  }

  /** The route check: no route, no steps, steps not an array, no step, or a
      bad step. */
  predicate Broken(route: Option<RouteData>) {
    route.None? || !route.value.steps.Steps? || |route.value.steps.items| == 0
    || exists i :: 0 <= i < |route.value.steps.items| && BadStep(route.value.steps.items[i])
  }

  function DummySteps(lang: string): seq<string> {
    if Hindi(lang) then DUMMY_STEPS_HI else DUMMY_STEPS_EN
  }

  /** The steps used: the dummy steps of the language for a broken route,
      else the route's own. Either way there is at least one, and none is
      empty or the text 'undefined'. */
  function FinalSteps(route: Option<RouteData>, lang: string): (r: seq<string>)
    ensures Broken(route) ==> r == DummySteps(lang)
    ensures !Broken(route) ==>
              |r| == |route.value.steps.items|
              && forall i :: 0 <= i < |r| ==> route.value.steps.items[i] == Text(r[i])
    ensures |r| > 0 && forall i :: 0 <= i < |r| ==> r[i] != "" && r[i] != "undefined"
  {
    if Broken(route) then DummySteps(lang)
    else
      var items := route.value.steps.items;
      seq(|items|, i requires 0 <= i < |items| => items[i].s)
  }

  /** `route?.summary || default`: the summary, or the language's default when
      there is no route or no summary. */
  function Summary(route: Option<RouteData>, lang: string): (r: string)
    ensures r != ""
    ensures route.Some? && Given(route.value.summary) ==> r == route.value.summary.value
    ensures !(route.Some? && Given(route.value.summary)) ==> r == (if Hindi(lang) then "कैंपस का रास्ता" else "Campus Route")
  {
    if route.Some? && Given(route.value.summary) then route.value.summary.value
    else if Hindi(lang) then "कैंपस का रास्ता" else "Campus Route"
  }

  /** `route?.duration || '2'`: a duration of 0 or none is '2'. */
  function Duration(route: Option<RouteData>): (r: string)
    ensures route.Some? && route.value.duration.Some? && route.value.duration.value != 0 ==>
              r == NatToString(route.value.duration.value)
    ensures !(route.Some? && route.value.duration.Some? && route.value.duration.value != 0) ==> r == "2"
  {
    if route.Some? && route.value.duration.Some? && route.value.duration.value != 0 then
      NatToString(route.value.duration.value)
    else "2"
  }

  function DirectionsUrl(from: D.Department, to: D.Department, num: real -> string): string {
    "https://www.google.com/maps/dir/?api=1&origin=" + M.NumText(from.latitude, num) + ","
    + M.NumText(from.longitude, num) + "&destination=" + M.NumText(to.latitude, num) + ","
    + M.NumText(to.longitude, num) + "&travelmode=walking"
  }

  /** The spoken steps: the first three, `1. s` in Hindi and `Step 1: s` otherwise. */
  function SpokenSteps(steps: seq<string>, lang: string): string {
    M.SpokenSteps(steps, lang)
  }

  /** The displayed steps: every one, `• Step i: s`, numbered from 1. */
  function DisplayedSteps(steps: seq<string>): seq<string> {
    M.Numbered(steps, "• Step ", ": ")
  }

  function NavigationSpeech(from: D.Department, to: D.Department, steps: seq<string>, summary: string, lang: string): string {
    if Hindi(lang) then M.NameText(from) + " से " + M.NameText(to) + ": " + summary + "। " + SpokenSteps(steps, lang) + "।"
    else "From " + M.NameText(from) + " to " + M.NameText(to) + ": " + summary + ". " + SpokenSteps(steps, lang) + "."
  }

  function NavigationDisplay(from: D.Department, to: D.Department, steps: seq<string>, summary: string,
                             duration: string, lang: string, num: real -> string): string {
    DisplayHead(from, to, summary, lang) + Join(DisplayedSteps(steps), "\n\n")
    + DisplayTail(duration, DirectionsUrl(from, to, num), lang)
  }

  function DisplayHead(from: D.Department, to: D.Department, summary: string, lang: string): string {
    "🚶 **" + M.NameText(from) + "** ➝ **" + M.NameText(to) + "**\n\n" + summary
    + (if Hindi(lang) then "\n\n**दिशा-निर्देश:**\n\n" else "\n\n**Directions:**\n\n")
  }

  function DisplayTail(duration: string, url: string, lang: string): string {
    if Hindi(lang) then "\n\n⏳ समय: " + duration + " मिनट\n🔗 [मैप देखें](" + url + ")"
    else "\n\n⏳ Time: ~" + duration + " mins\n🔗 [Open Map](" + url + ")"
  }

  /** The route's reply: the speech names the first three steps, and
      nothing after them, and the display lists every step numbered from 1. */
  function Navigation(from: D.Department, to: D.Department, route: Option<RouteData>, lang: string,
                      num: real -> string): (r: Response)
    ensures var steps := FinalSteps(route, lang);
            r.speech == NavigationSpeech(from, to, Take(steps, 3), Summary(route, lang), lang)
            && forall i :: 0 <= i < Min(3, |steps|) ==> Contains(r.speech, steps[i])
    ensures var steps := FinalSteps(route, lang);
            forall i :: 0 <= i < |steps| ==> Contains(r.display, "• Step " + NatToString(i + 1) + ": " + steps[i])
  {
    var steps := FinalSteps(route, lang);
    var summary := Summary(route, lang);
    SpeechUsesThreeSteps(from, to, steps, summary, lang);
    DisplayListsEveryStep(from, to, steps, summary, Duration(route), lang, num);
    Response(NavigationSpeech(from, to, steps, summary, lang),
             NavigationDisplay(from, to, steps, summary, Duration(route), lang, num))
  }

  /** The distance reply: both texts give the distance in meters, and the map
      link searches for the destination's coordinates. */
  function NavigationFallback(from: D.Department, to: D.Department, distance: nat, lang: string,
                              num: real -> string): (r: Response)
    ensures Contains(r.speech, NatToString(distance) + " meters")
    ensures Contains(r.display, NatToString(distance) + " meters")
    ensures Contains(r.display, "query=" + M.NumText(to.latitude, num) + "," + M.NumText(to.longitude, num))
  {
    var meters := NatToString(distance) + " meters";
    var query := "query=" + M.NumText(to.latitude, num) + "," + M.NumText(to.longitude, num);
    var url := "https://www.google.com/maps/search/?api=1&" + query;
    var first := "📏 " + Bold("Distance:") + " " + meters;
    var link := "🔗 [View Map](" + url + ")";
    var display := first + "\n\n" + link;
    ContainsMiddle("Distance is approx ", meters, ".");
    SuffixContained("📏 " + Bold("Distance:") + " ", meters);
    ContainsInLeft(first, "\n\n", meters);
    ContainsInLeft(first + "\n\n", link, meters);
    SuffixContained("https://www.google.com/maps/search/?api=1&", query);
    ContainsMiddle("🔗 [View Map](", url, ")");
    M.StillContained(url, link, query);
    SuffixContained(first + "\n\n", link);
    M.StillContained(link, display, query);
    Response("Distance is approx " + meters + ".", display)
  }

  /** A department's reply: the speech says which building it is in, 'Main
      Campus' when none is given; the display names it in bold and gives the
      building, the phone ('N/A' when none) and the map link ('#' when none),
      one per line. */
  function DepartmentLocation(d: D.Department, lang: string): (r: Response)
    ensures IsPrefix(M.NameText(d) + " is in " + OrElse(d.building, "Main Campus"), r.speech)
    ensures Contains(r.display, Bold(M.NameText(d)))
    ensures Contains(r.display, "🏢 " + OrElse(d.building, "Main Campus"))
    ensures Contains(r.display, "📞 " + OrElse(d.contact.phone, "N/A"))
    ensures Contains(r.display, "🔗 [Map](" + OrElse(d.mapLink, "#") + ")")
  {
    var said := M.NameText(d) + " is in " + OrElse(d.building, "Main Campus");
    var lines := ["📍 " + Bold(M.NameText(d)), "🏢 " + OrElse(d.building, "Main Campus"),
                  "📞 " + OrElse(d.contact.phone, "N/A"), "🔗 [Map](" + OrElse(d.mapLink, "#") + ")"];
    assert (said + ".")[..|said|] == said;
    JoinContainsPart(lines, "\n", 0);
    JoinContainsPart(lines, "\n", 1);
    JoinContainsPart(lines, "\n", 2);
    JoinContainsPart(lines, "\n", 3);
    SuffixContained("📍 ", Bold(M.NameText(d)));
    M.StillContained(lines[0], Join(lines, "\n"), Bold(M.NameText(d)));
    Response(said + ".", Join(lines, "\n"))
  }

  function Links(resources: seq<R.Resource>): (r: seq<string>)
    ensures |r| == |resources|
  {
    seq(|resources|, i requires 0 <= i < |resources| =>
      "📄 [" + R.TitleText(resources[i]) + "](" + M.OptText(resources[i].fileUrl) + ")")
  }

  lemma LinksListed(head: string, resources: seq<R.Resource>)
    ensures forall i :: 0 <= i < |resources| ==>
              Contains(head + Join(Links(resources), "\n\n"),
                       "📄 [" + R.TitleText(resources[i]) + "](" + M.OptText(resources[i].fileUrl) + ")")
  {
    JoinedAfter(head, Links(resources), "\n\n");
    forall i | 0 <= i < |resources|
      ensures Contains(head + Join(Links(resources), "\n\n"),
                       "📄 [" + R.TitleText(resources[i]) + "](" + M.OptText(resources[i].fileUrl) + ")")
    {
      assert Links(resources)[i] == "📄 [" + R.TitleText(resources[i]) + "](" + M.OptText(resources[i].fileUrl) + ")";
    }
  }

  /** The notes reply: the speech gives the count and the department, and the
      display lists a link for every resource given. */
  function StudyMaterials(deptName: string, count: nat, resources: seq<R.Resource>, lang: string): (r: Response)
    ensures Contains(r.speech, NatToString(count) + " notes for " + deptName)
    ensures forall i :: 0 <= i < |resources| ==>
              Contains(r.display, "📄 [" + R.TitleText(resources[i]) + "](" + M.OptText(resources[i].fileUrl) + ")")
  {
    var said := NatToString(count) + " notes for " + deptName;
    var head := "📚 " + Bold(deptName + " Notes:") + "\n\n";
    ContainsMiddle("Found ", said, ".");
    LinksListed(head, resources);
    Response("Found " + said + ".", head + Join(Links(resources), "\n\n"))
  }

  /** Both texts name the department, the display in bold. */
  function NoMaterials(deptName: string, lang: string): (r: Response)
    ensures Contains(r.speech, deptName) && Contains(r.display, Bold(deptName))
  {
    ContainsMiddle("No notes found for ", deptName, ".");
    ContainsMiddle("❌ No notes found for ", Bold(deptName), ".");
    Response("No notes found for " + deptName + ".", "❌ No notes found for " + Bold(deptName) + ".")
  }

  /** Both texts name what was looked for, the display in bold at its end. */
  function NotFound(query: string, lang: string): (r: Response)
    ensures Contains(r.speech, query) && IsSuffix(Bold(query), r.display)
  {
    var display := "❌ Not found: " + Bold(query);
    ContainsMiddle("Sorry, I couldn't find ", query, ".");
    assert display[|display| - |Bold(query)|..] == Bold(query);
    Response("Sorry, I couldn't find " + query + ".", display)
  }

  // ---------------------------------------------------------------------------
  // Properties of the builders
  // ---------------------------------------------------------------------------

  /** The speech names the first three steps at most: whatever follows them
      never changes it. */
  lemma SpeechUsesThreeSteps(from: D.Department, to: D.Department, steps: seq<string>, summary: string, lang: string)
    ensures NavigationSpeech(from, to, steps, summary, lang) == NavigationSpeech(from, to, Take(steps, 3), summary, lang)
    ensures forall i :: 0 <= i < Min(3, |steps|) ==>
              Contains(NavigationSpeech(from, to, steps, summary, lang), steps[i])
  {
    assert Take(Take(steps, 3), 3) == Take(steps, 3);
    var route := M.RouteInfo(summary, 0, steps);
    M.NavigationSpeaksThree("", "", route, lang);
    var spoken := SpokenSteps(steps, lang);
    var head := if Hindi(lang) then M.NameText(from) + " से " + M.NameText(to) + ": " + summary + "। "
                else "From " + M.NameText(from) + " to " + M.NameText(to) + ": " + summary + ". ";
    var tail := if Hindi(lang) then "।" else ".";
    assert NavigationSpeech(from, to, steps, summary, lang) == head + spoken + tail;
    forall i | 0 <= i < Min(3, |steps|)
      ensures Contains(NavigationSpeech(from, to, steps, summary, lang), steps[i])
    {
      M.SpokenStepContained(steps, lang, i);
      ContainsInRight(head, spoken, steps[i]);
      ContainsInLeft(head + spoken, tail, steps[i]);
    }
  }

  /** The display lists every step, numbered from 1. */
  lemma DisplayListsEveryStep(from: D.Department, to: D.Department, steps: seq<string>, summary: string,
                              duration: string, lang: string, num: real -> string)
    ensures forall i :: 0 <= i < |steps| ==>
              Contains(NavigationDisplay(from, to, steps, summary, duration, lang, num),
                       "• Step " + NatToString(i + 1) + ": " + steps[i])
  {
    var list := Join(DisplayedSteps(steps), "\n\n");
    var head := DisplayHead(from, to, summary, lang);
    var tail := DisplayTail(duration, DirectionsUrl(from, to, num), lang);
    forall i | 0 <= i < |steps|
      ensures Contains(NavigationDisplay(from, to, steps, summary, duration, lang, num),
                       "• Step " + NatToString(i + 1) + ": " + steps[i])
    {
      JoinContainsPart(DisplayedSteps(steps), "\n\n", i);
      ContainsInRight(head, list, DisplayedSteps(steps)[i]);
      ContainsInLeft(head + list, tail, DisplayedSteps(steps)[i]);
    }
  }

  /** Every broken route reads the same: the dummy steps of the language, the
      default summary and a duration of '2' when it sets none. */
  lemma BrokenRoutesAgree(from: D.Department, to: D.Department, lang: string, num: real -> string, r: RouteData)
    requires Broken(Some(r)) && !Given(r.summary) && (r.duration.None? || r.duration == Some(0))
    ensures Navigation(from, to, Some(r), lang, num) == Navigation(from, to, None, lang, num)
    ensures Navigation(from, to, None, lang, num).speech
            == NavigationSpeech(from, to, DummySteps(lang), if Hindi(lang) then "कैंपस का रास्ता" else "Campus Route", lang)
  {
  }

  /** A resolved route with a step that is empty, 'undefined' or not a string
      is replaced by the dummy steps, whatever its other steps are. */
  lemma BadStepForcesDummy(items: seq<StepValue>, i: nat, summary: Option<string>, duration: Option<nat>, lang: string)
    requires i < |items| && BadStep(items[i])
    ensures FinalSteps(Some(RouteData(summary, duration, Steps(items))), lang) == DummySteps(lang)
  {
  }

  // ---------------------------------------------------------------------------
  // The intent chain of askAIWithVoice
  // ---------------------------------------------------------------------------

  const HINDI_MARKERS: seq<string> := ["है", "कहा", "हिंदी", "से", "को"]
  const GREETING_WORDS: seq<string> := ["hello", "hi", "namaste"]
  const EVENT_WORDS: seq<string> := ["event", "fest"]
  const MESS_WORDS: seq<string> := ["mess", "food", "menu"]
  const BUS_WORDS: seq<string> := ["bus", "transport"]
  const LOCATION_WORDS: seq<string> := ["where", "location"]
  const LOCATION_STRIP: seq<string> := ["where", "is", "location", "find", "?"]
  const NOTES_WORDS: seq<string> := ["notes", "study", "pdf"]
  const NOTES_DEPTS: seq<string> := ["cse", "civil", "me", "ee", "ece", "it", "mca"]
  const NOTES_LIMIT: nat := 3

  const QUESTION_REQUIRED := "Question required"
  const QUERY_MISSING := "Query missing"

  function Language(qry: string): (lang: string)
    ensures lang == "hi" <==> ContainsAny(qry, HINDI_MARKERS)
    ensures lang == "hi" || lang == "en"
  {
    if ContainsAny(qry, HINDI_MARKERS) then "hi" else "en"
  }

  datatype Intent = NavigationIntent | GreetingIntent | EventsIntent | MessIntent | BusIntent
                  | LocationIntent | NotesIntent | FallbackIntent

  /** The first intent whose test holds, in the order navigation, greeting,
      events, mess, bus, location, notes; the language model otherwise. The
      tests look for the words anywhere in the query. */
  function IntentOf(lower: string, navTest: bool): (i: Intent)
    ensures i == NavigationIntent <==> navTest
    ensures i == GreetingIntent <==> !navTest && ContainsAny(lower, GREETING_WORDS)
    ensures i == EventsIntent <==> !navTest && !ContainsAny(lower, GREETING_WORDS) && ContainsAny(lower, EVENT_WORDS)
    ensures i == MessIntent <==>
              !navTest && !ContainsAny(lower, GREETING_WORDS) && !ContainsAny(lower, EVENT_WORDS)
              && ContainsAny(lower, MESS_WORDS)
    ensures i == BusIntent <==>
              !navTest && !ContainsAny(lower, GREETING_WORDS) && !ContainsAny(lower, EVENT_WORDS)
              && !ContainsAny(lower, MESS_WORDS) && ContainsAny(lower, BUS_WORDS)
    ensures i == LocationIntent <==>
              !navTest && !ContainsAny(lower, GREETING_WORDS) && !ContainsAny(lower, EVENT_WORDS)
              && !ContainsAny(lower, MESS_WORDS) && !ContainsAny(lower, BUS_WORDS) && ContainsAny(lower, LOCATION_WORDS)
    ensures i == NotesIntent <==>
              !navTest && !ContainsAny(lower, GREETING_WORDS) && !ContainsAny(lower, EVENT_WORDS)
              && !ContainsAny(lower, MESS_WORDS) && !ContainsAny(lower, BUS_WORDS)
              && !ContainsAny(lower, LOCATION_WORDS) && ContainsAny(lower, NOTES_WORDS)
  {
    if navTest then NavigationIntent
    else if ContainsAny(lower, GREETING_WORDS) then GreetingIntent
    else if ContainsAny(lower, EVENT_WORDS) then EventsIntent
    else if ContainsAny(lower, MESS_WORDS) then MessIntent
    else if ContainsAny(lower, BUS_WORDS) then BusIntent
    else if ContainsAny(lower, LOCATION_WORDS) then LocationIntent
    else if ContainsAny(lower, NOTES_WORDS) then NotesIntent
    else FallbackIntent
  }

  /** The navigation intent: nothing when the pattern captures nothing;
      "not found" naming `toName` when the from-department was found and
      `fromName` otherwise; else the route, or the distance when the router
      throws. */
  function NavigationResponse(lang: string, env: Env): (r: Response)
    ensures env.navCapture.None? ==> r == Response("", "")
    ensures env.navCapture.Some? ==>
              var fromName := Trim(env.navCapture.value.0);
              var toName := Trim(env.navCapture.value.1);
              var fd := M.FindDepartment(env.depts, fromName, false);
              var td := M.FindDepartment(env.depts, toName, false);
              (fd.None? ==> r == NotFound(fromName, lang))
              && (fd.Some? && td.None? ==> r == NotFound(toName, lang))
              && (fd.Some? && td.Some? && env.routeOf(fd.value, td.value).Resolved? ==>
                    r == Navigation(fd.value, td.value, env.routeOf(fd.value, td.value).route, lang, env.num))
              && (fd.Some? && td.Some? && env.routeOf(fd.value, td.value).Threw? ==>
                    r == NavigationFallback(fd.value, td.value, env.distanceOf(fd.value, td.value), lang, env.num))
  {
    match env.navCapture
    case None => Response("", "")
    case Some(pair) =>
      var fromName := Trim(pair.0);
      var toName := Trim(pair.1);
      var fd := M.FindDepartment(env.depts, fromName, false);
      var td := M.FindDepartment(env.depts, toName, false);
      if fd.Some? && td.Some? then
        match env.routeOf(fd.value, td.value)
        case Resolved(route) => Navigation(fd.value, td.value, route, lang, env.num)
        case Threw => NavigationFallback(fd.value, td.value, env.distanceOf(fd.value, td.value), lang, env.num)
      else NotFound(if fd.Some? then toName else fromName, lang)
  }

  /** The name the location intent looks up: the query without the keywords. */
  function LocationName(lower: string): string {
    Trim(RemoveAlts(lower, LOCATION_STRIP))
  }

  /** The location intent: the department the stripped query names, else a
      "not found" naming the stripped query. */
  function LocationResponse(lower: string, lang: string, env: Env): (r: Response)
    ensures var name := LocationName(lower);
            var found := M.FindDepartment(env.depts, name, false);
            (found.Some? ==> r == DepartmentLocation(found.value, lang))
            && (found.None? ==> r == NotFound(name, lang))
  {
    var name := LocationName(lower);
    match M.FindDepartment(env.depts, name, false)
    case Some(d) => DepartmentLocation(d, lang)
    case None => NotFound(name, lang)
  }

  function NotesDept(lower: string): Option<string> {
    match FirstAltFrom(lower, 0, NOTES_DEPTS)
    case Some(dept) => Some(ToUpper(dept))
    case None => None
  }

  function NotesFilter(lower: string): R.Filter {
    var dept := NotesDept(lower);
    R.Filter(false, if dept.Some? then R.DepartmentHas(dept.value) else R.AnyDepartment, None)
  }

  /** `Resource.find(filter).limit(3)`: the first three matching resources in
      storage order, of every status. */
  function NotesPicks(lower: string, rows: seq<R.Resource>): (picks: seq<R.Resource>)
    ensures |picks| == Min(NOTES_LIMIT, |R.Select(rows, NotesFilter(lower))|)
    ensures forall i :: 0 <= i < |picks| ==> picks[i] == R.Select(rows, NotesFilter(lower))[i]
  {
    Take(R.Select(rows, NotesFilter(lower)), NOTES_LIMIT)
  }

  /** The notes intent: the department named in the query heads the reply;
      'General' stands for a list without a department, 'that department' for
      an empty one. */
  function NotesResponse(lower: string, lang: string, rows: seq<R.Resource>): (r: Response)
    ensures var picks := NotesPicks(lower, rows);
            NotesDept(lower).None? ==>
              (|picks| > 0 ==> r == StudyMaterials("General", |picks|, picks, lang))
              && (|picks| == 0 ==> r == NoMaterials("that department", lang))
    ensures var picks := NotesPicks(lower, rows);
            NotesDept(lower).Some? ==>
              (|picks| > 0 ==> r == StudyMaterials(NotesDept(lower).value, |picks|, picks, lang))
              && (|picks| == 0 ==> r == NoMaterials(NotesDept(lower).value, lang))
  {
    var dept := NotesDept(lower);
    var picks := NotesPicks(lower, rows);
    if |picks| > 0 then StudyMaterials(if dept.Some? then dept.value else "General", |picks|, picks, lang)
    else NoMaterials(if dept.Some? then dept.value else "that department", lang)
  }

  /** The language model's answer: displayed as it is and spoken with every
      "**" removed, so the speech keeps every other character in order, never
      holds "**", and is the answer itself when that had no "**". */
  function FallbackResponse(qry: string, ai: string -> string): (r: Response)
    ensures r.display == ai("MMMUT AI Answer: " + qry)
    ensures r.speech == ReplaceAll(r.display, "**", "")
    ensures Omit(r.speech, '*') == Omit(r.display, '*')
    ensures !Contains(r.speech, "**")
    ensures !Contains(r.display, "**") ==> r.speech == r.display
  {
    var text := ai("MMMUT AI Answer: " + qry);
    RemoveDoubleLeavesNone(text, '*');
    NoDoubleNotContains(ReplaceAll(text, "**", ""), '*');
    RemoveDoubleKeepsOthers(text, '*');
    ReplaceAllUnmatched(text, "**", "");
    Response(ReplaceAll(text, "**", ""), text)
  }

  /** The response of the intent the chain picks, in the language of the
      query. */
  function VoiceResponse(qry: string, env: Env): (r: Response)
    ensures var lower := M.Lowered(qry);
            var lang := Language(qry);
            var intent := IntentOf(lower, env.navTest);
            (intent == NavigationIntent ==> r == NavigationResponse(lang, env))
            && (intent == GreetingIntent ==> r == Greeting(lang))
            && (intent == EventsIntent ==> r == Events(EVENTS))
            && (intent == MessIntent ==> r == Mess(MESS_TODAY))
            && (intent == BusIntent ==> r == Buses(BUSES))
            && (intent == LocationIntent ==> r == LocationResponse(lower, lang, env))
            && (intent == NotesIntent ==> r == NotesResponse(lower, lang, env.rows))
            && (intent == FallbackIntent ==> r == FallbackResponse(qry, env.ai))
  {
    var lower := M.Lowered(qry);
    var lang := Language(qry);
    match IntentOf(lower, env.navTest)
    case NavigationIntent => NavigationResponse(lang, env)
    case GreetingIntent => Greeting(lang)
    case EventsIntent => Events(EVENTS)
    case MessIntent => Mess(MESS_TODAY)
    case BusIntent => Buses(BUSES)
    case LocationIntent => LocationResponse(lower, lang, env)
    case NotesIntent => NotesResponse(lower, lang, env.rows)
    case FallbackIntent => FallbackResponse(qry, env.ai)
  }

  /** The final part of a path, as `path.basename` gives it for a path without
      a trailing separator. */
  function Basename(p: string): (b: string)
    ensures '/' !in b
  {
    var parts := Split(p, '/');
    SplitPartsFree(p, '/');
    parts[|parts| - 1]
  }

  /** The replies: the JSON `{ answer, audioUrl }`, or the error handed to `next`. */
  datatype VoiceReply = VoiceJson(answer: string, audioUrl: Option<string>) | VoiceFailed(error: AppError)
  datatype TextReply = Answer(answer: string) | Failed(error: AppError)

  /** `askAI`: a missing query is an error; any other is passed to the
      language model as it is. */
  function AskAI(qry: Option<string>, ai: string -> string): (r: TextReply)
    ensures r.Failed? <==> !Given(qry)
    ensures Given(qry) ==> r == Answer(ai("Answer briefly: " + qry.value))
  {
    if !Given(qry) then Failed(PlainError("Error", QUESTION_REQUIRED))
    else Answer(ai("Answer briefly: " + qry.value))
  }

  /** `askAIWithVoice`: `tts` is `textToSpeech` on the speech text (a path, or
      the error it throws) and `fileExists` is `fs.existsSync`. The display
      text is the answer; the audio address is given only for a file that
      exists. */
  function AskAIWithVoice(qry: Option<string>, env: Env, tts: (string, string) -> Result<string, AppError>,
                          fileExists: string -> bool): (r: VoiceReply)
    ensures !Given(qry) ==> r == VoiceFailed(PlainError("Error", QUERY_MISSING))
    ensures Given(qry) && tts(VoiceResponse(qry.value, env).speech, Language(qry.value)).Ok? ==>
              var path := tts(VoiceResponse(qry.value, env).speech, Language(qry.value)).value;
              r.VoiceJson? && r.answer == VoiceResponse(qry.value, env).display
              && (r.audioUrl.Some? <==> path != "" && fileExists(path))
              && (r.audioUrl.Some? ==> r.audioUrl.value == "/voices/" + Basename(path))
    ensures Given(qry) && tts(VoiceResponse(qry.value, env).speech, Language(qry.value)).Err? ==>
              r == VoiceFailed(tts(VoiceResponse(qry.value, env).speech, Language(qry.value)).error)
  {
    if !Given(qry) then VoiceFailed(PlainError("Error", QUERY_MISSING))
    else
      var lang := Language(qry.value);
      var response := VoiceResponse(qry.value, env);
      match tts(response.speech, lang)
      case Err(e) => VoiceFailed(e)
      case Ok(path) =>
        VoiceJson(response.display, if path != "" && fileExists(path) then Some("/voices/" + Basename(path)) else None)
  }

  // ---------------------------------------------------------------------------
  // Consequences of the chain
  // ---------------------------------------------------------------------------

  /** When the navigation test holds but the pattern captures nothing, no
      later intent runs and both texts stay empty. */
  lemma NavigationWithoutCapture(qry: string, env: Env)
    requires env.navTest && env.navCapture.None?
    ensures VoiceResponse(qry, env) == Response("", "")
  {
  }

  /** No marker of Hindi occurs in a query without Devanagari. */
  lemma LatinIsEnglish(qry: string)
    requires forall i :: 0 <= i < |qry| ==> qry[i] < '\U{0900}'
    ensures Language(qry) == "en"
  {
    forall k | 0 <= k < |HINDI_MARKERS| ensures !Contains(qry, HINDI_MARKERS[k]) {
      assert HINDI_MARKERS[k][0] >= '\U{0900}';
      M.BelowFirstChar(qry, HINDI_MARKERS[k]);
    }
  }

  /** A query of lower-case letters and inner spaces. */
  predicate PlainLower(qry: string) {
    forall i :: 0 <= i < |qry| ==> ('a' <= qry[i] <= 'z') || (qry[i] == ' ' && 0 < i < |qry| - 1)
  }

  /** The greeting test looks for "hi" anywhere, so a query with "hi" inside
      a word ("which", "this", "within") is answered with the greeting,
      whatever else it asks. */
  lemma GreetingInsideWords(qry: string, env: Env)
    requires !env.navTest && PlainLower(qry) && Contains(qry, "hi")
    ensures VoiceResponse(qry, env) == Greeting("en")
  {
    LowercaseUnspaced(qry);
    LatinIsEnglish(qry);
    HiGreets(M.Lowered(qry));
    GreetsWhenContained(qry, env);
  }

  lemma HiGreets(s: string)
    requires Contains(s, "hi")
    ensures ContainsAny(s, GREETING_WORDS)
  {
    assert GREETING_WORDS[1] == "hi";
  }

  lemma GreetsWhenContained(qry: string, env: Env)
    requires !env.navTest && ContainsAny(M.Lowered(qry), GREETING_WORDS)
    ensures VoiceResponse(qry, env) == Greeting(Language(qry))
  {
  }

  /** "which bus" is answered with the greeting, not with the bus schedule. */
  lemma WhichBusGreets(qry: string, env: Env)
    requires qry == "which bus" && !env.navTest
    ensures VoiceResponse(qry, env) == Greeting("en")
  {
    assert qry[1..3] == "hi" && OccursAt(qry, "hi", 1);
    GreetingInsideWords(qry, env);
  }

  /** A query of lower-case letters and inner spaces is its own lowered form. */
  lemma LowercaseUnspaced(qry: string)
    requires PlainLower(qry)
    ensures M.Lowered(qry) == qry
  {
    assert ToLower(qry) == qry;
    TrimOfUnspaced(qry);
  }
}

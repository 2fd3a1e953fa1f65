/**
  The dashboard page: a draft (title and content), an editing flag, the
  selected date and the list of entries saved during this visit. "New Entry"
  opens the editor; "Save" inserts one record into the backend's
  `journal_entries` table. The backend's answer to the insert is an input of
  the transition, so every function here is pure.
 */
module Dashboard {
  import opened Options
  import opened JsText

  /** A calendar day in the browser's local time zone. */
  datatype Day = Day(year: int, month: int, dayOfMonth: int)

  /** A JavaScript `Date` as the page uses it: the local calendar day it falls
      on and the milliseconds elapsed since that day's midnight. */
  datatype Date = Date(day: Day, millisOfDay: nat)

  /** `format(date, "yyyy-MM-dd")`, the day key the record carries: the text
      is abstracted to the calendar day it spells, so distinct days give
      distinct keys and the time of day is forgotten. */
  function DayKey(d: Date): Day {
    d.day
  }

  /** Two dates share a key exactly when they fall on the same calendar day,
      whatever their times of day. */
  lemma DayKeyIgnoresTime(d: Date, e: Date)
    ensures DayKey(d) == DayKey(e) <==> d.day == e.day
    ensures DayKey(d.(millisOfDay := e.millisOfDay)) == DayKey(d)
  {
  }

  /** The browser's offset from UTC in minutes, local time minus UTC (so
      UTC-5 is -300). Real zones lie between UTC-12:00 and UTC+14:00. */
  type UtcOffset = m: int | -1440 < m < 1440

  const MillisPerMinute: nat := 60_000
  const MillisPerDay: nat := 86_400_000

  /** Gregorian leap years. */
  predicate IsLeapYear(year: int) {
    year % 4 == 0 && (year % 100 != 0 || year % 400 == 0)
  }

  /** The number of days in `month` (1 to 12) of `year`. */
  function DaysInMonth(year: int, month: int): nat {
    if month == 2 then (if IsLeapYear(year) then 29 else 28)
    else if month == 4 || month == 6 || month == 9 || month == 11 then 30
    else 31
  }

  /** A day that exists in the Gregorian calendar. */
  predicate ValidDay(k: Day) {
    1 <= k.month <= 12 && 1 <= k.dayOfMonth <= DaysInMonth(k.year, k.month)
  }

  /** The calendar day after `k`: the next day of the month, else the first
      of the next month, else 1 January of the next year. */
  function NextDay(k: Day): Day {
    if k.dayOfMonth < DaysInMonth(k.year, k.month) then k.(dayOfMonth := k.dayOfMonth + 1)
    else if k.month < 12 then Day(k.year, k.month + 1, 1)
    else Day(k.year + 1, 1, 1)
  }

  /** The calendar day before `k`: never `k` itself, a real day when `k` is
      one, and then the day whose next day is `k`. */
  function PreviousDay(k: Day): (p: Day)
    ensures p != k
    ensures ValidDay(k) ==> ValidDay(p) && NextDay(p) == k
  {
    if k.dayOfMonth > 1 then k.(dayOfMonth := k.dayOfMonth - 1)
    else if k.month > 1 then Day(k.year, k.month - 1, DaysInMonth(k.year, k.month - 1))
    else Day(k.year - 1, 12, 31)
  }

  /** On real days, `NextDay` and `PreviousDay` undo each other, and the next
      day is a real day too. */
  lemma NextPreviousInverse(k: Day)
    requires ValidDay(k)
    ensures ValidDay(NextDay(k))
    ensures PreviousDay(NextDay(k)) == k && NextDay(PreviousDay(k)) == k
  {
  }

  /** `new Date(key)` on a `yyyy-MM-dd` key, seen in local time. ECMAScript
      reads a date-only string as midnight UTC. East of UTC (or at UTC) that
      instant is on the key's day, `offset` minutes after local midnight;
      west of UTC it is on the day before, `-offset` minutes before the
      key's local midnight. */
  function DateOfKey(k: Day, offset: UtcOffset): (d: Date)
    ensures d.millisOfDay < MillisPerDay
    ensures d.millisOfDay == (offset * MillisPerMinute) % MillisPerDay
    ensures DayKey(d) == k <==> offset >= 0
    ensures offset < 0 ==> DayKey(d) == PreviousDay(k)
  {
    if offset >= 0 then Date(k, offset * MillisPerMinute)
    else Date(PreviousDay(k), MillisPerDay + offset * MillisPerMinute)
  }

  /** In UTC-5, the key "2024-05-02" comes back as 19:00 on 1 May, local
      time: the entry lands on the day before the one it was saved for. */
  lemma WestOfUtcShiftsDay()
    ensures DateOfKey(Day(2024, 5, 2), -300) == Date(Day(2024, 5, 1), 68_400_000)
    ensures DayKey(DateOfKey(Day(2024, 5, 2), -300)) != Day(2024, 5, 2)
  {
  }

  /** The key parsed in local time (what date-fns `parse(key, "yyyy-MM-dd",
      ...)` gives): local midnight of the key's day, whatever the zone. */
  function LocalDateOfKey(k: Day): (d: Date)
    ensures DayKey(d) == k && d.millisOfDay == 0
  {
    Date(k, 0)
  }

  /** Formatting a date and parsing the key in local time gives back the
      same day, in every zone; the UTC reading does so only east of UTC. */
  lemma DayKeyRoundTrip(d: Date, offset: UtcOffset)
    ensures DayKey(LocalDateOfKey(DayKey(d))) == DayKey(d)
    ensures DayKey(DateOfKey(DayKey(d), offset)) == DayKey(d) <==> offset >= 0
  {
  }

  /** A journal entry as the page keeps it in its list. */
  datatype JournalEntry = JournalEntry(id: string, date: Date, title: string, content: string)

  /** The record the page inserts: exactly a day key, a title and a content
      (no user id, no mood). */
  datatype EntryRecord = EntryRecord(date: Day, title: string, content: string)

  /** The row the backend hands back from `insert(...).select().single()`;
      `id` is assigned by the backend. Its other columns are not modelled. */
  datatype StoredRow = StoredRow(id: string, date: Day, title: string, content: string)

  /** The `{ data, error }` pair the insert resolves to. */
  datatype InsertResponse = InsertResponse(data: Option<StoredRow>, error: Option<string>)

  /** The page treats an insert as successful only when there is no error AND
      a row came back. */
  predicate Succeeded(resp: InsertResponse) {
    resp.error.None? && resp.data.Some?
  }

  /** The page's state: `selectedDate`, the `title` and `content` drafts,
      `entries` (newest first) and `isEditing`, together with the browser's
      UTC offset, which the page never changes. */
  datatype State = State(
    selectedDate: Date,
    title: string,
    content: string,
    entries: seq<JournalEntry>,
    isEditing: bool,
    utcOffset: UtcOffset)

  /** The state the page starts in, given the current time and zone. */
  function Initial(now: Date, offset: UtcOffset): (r: State)
    ensures r.selectedDate == now && r.utcOffset == offset
    ensures r.entries == [] && !r.isEditing && IdleDraftEmpty(r)
  {
    State(now, "", "", [], false, offset)
  }

  /** The entry the page builds from the returned row: the row's fields, with
      its day key turned back into a `Date` by `new Date`. */
  function ToEntry(row: StoredRow, offset: UtcOffset): (e: JournalEntry)
    ensures e.id == row.id && e.title == row.title && e.content == row.content
    ensures DayKey(e.date) == row.date <==> offset >= 0
  {
    JournalEntry(row.id, DateOfKey(row.date, offset), row.title, row.content)
  }

  /** The guard and record construction of a save. No record (so no store
      call) exactly when title and content are both blank; otherwise the
      record carries the selected day and the trimmed drafts, and at least
      one of its two texts is non-empty. */
  function SaveRequest(s: State): (req: Option<EntryRecord>)
    ensures req.None? <==> Blank(s.title) && Blank(s.content)
    ensures req.Some? ==> req.value.date == s.selectedDate.day
    ensures req.Some? ==> req.value.title == Trim(s.title) && req.value.content == Trim(s.content)
    ensures req.Some? ==> req.value.title != [] || req.value.content != []
  {
    var title := Trim(s.title);
    var content := Trim(s.content);
    if title == [] && content == [] then None
    else Some(EntryRecord(DayKey(s.selectedDate), title, content))
  }

  /** The state update once the insert resolves. On success the returned row
      becomes the first entry with the old entries after it in their order,
      the drafts are emptied and editing ends; on an error or a missing row
      nothing changes, so the draft is kept for a retry. */
  function ApplyInsert(s: State, resp: InsertResponse): (r: State)
    ensures Succeeded(resp) ==>
      && |r.entries| == |s.entries| + 1
      && r.entries[0] == ToEntry(resp.data.value, s.utcOffset)
      && r.entries[1..] == s.entries
    ensures Succeeded(resp) ==>
      !r.isEditing && r.title == [] && r.content == [] && r.selectedDate == s.selectedDate
    ensures !Succeeded(resp) ==> r == s
    ensures r.utcOffset == s.utcOffset
  {
    if resp.error.None? && resp.data.Some? then
      s.(entries := [ToEntry(resp.data.value, s.utcOffset)] + s.entries,
         isEditing := false,
         title := "",
         content := "")
    else
      s
  }

  /** What one click on "Save" does: the record sent (if any) and the state
      once the insert has resolved. */
  datatype SaveOutcome = SaveOutcome(request: Option<EntryRecord>, state: State)

  /** `handleSave`. The state changes only when a record was sent and the
      insert succeeded; in every case the entries are either the old ones or
      the old ones with exactly one new entry in front. */
  function Save(s: State, resp: InsertResponse): (o: SaveOutcome)
    ensures o.request == SaveRequest(s)
    ensures o.request.None? <==> Blank(s.title) && Blank(s.content)
    ensures o.request.None? ==> o.state == s
    ensures o.request.Some? && Succeeded(resp) ==>
      && o.state.entries == [ToEntry(resp.data.value, s.utcOffset)] + s.entries
      && !o.state.isEditing && o.state.title == [] && o.state.content == []
    ensures o.state != s ==> o.request.Some? && Succeeded(resp)
    ensures o.state.entries == s.entries
      || (|o.state.entries| == |s.entries| + 1 && o.state.entries[1..] == s.entries)
    ensures o.state.selectedDate == s.selectedDate && o.state.utcOffset == s.utcOffset
  {
    var req := SaveRequest(s);
    if req.None? then SaveOutcome(None, s)
    else SaveOutcome(req, ApplyInsert(s, resp))
  }

  /** What the user can do on the page. Typing changes one draft; the two
      buttons are "New Entry" and "Save". */
  datatype Event =
    | NewEntryClicked
    | TitleTyped(title: string)
    | ContentTyped(content: string)
    | SaveClicked(response: InsertResponse)

  /** Which controls are on screen: the editor (the two inputs and "Save")
      while editing, only "New Entry" otherwise. */
  predicate Enabled(s: State, e: Event) {
    match e
    case NewEntryClicked => !s.isEditing
    case _ => s.isEditing
  }

  /** At any moment exactly one of the two views is on screen: "New Entry"
      or the editor with its inputs and "Save". */
  lemma OneViewAtATime(s: State, e: Event)
    ensures Enabled(s, NewEntryClicked) != Enabled(s, SaveClicked(InsertResponse(None, None)))
    ensures !e.NewEntryClicked? ==> Enabled(s, e) == Enabled(s, TitleTyped([]))
  {
  }

  /** The page's reaction to one event, or `None` when the control the event
      needs is not on screen. "New Entry" only turns editing on; each input
      changes only its own draft; "Save" is `Save`. */
  function Step(s: State, e: Event): (r: Option<State>)
    ensures r.Some? <==> Enabled(s, e)
    ensures r.Some? ==> r.value.utcOffset == s.utcOffset
    ensures e.NewEntryClicked? && r.Some? ==> r.value == s.(isEditing := true)
    ensures e.TitleTyped? && r.Some? ==> r.value == s.(title := e.title)
    ensures e.ContentTyped? && r.Some? ==> r.value == s.(content := e.content)
  {
    if !Enabled(s, e) then None
    else
      match e
      case NewEntryClicked => Some(s.(isEditing := true))
      case TitleTyped(t) => Some(s.(title := t))
      case ContentTyped(c) => Some(s.(content := c))
      case SaveClicked(resp) => Some(Save(s, resp).state)
  }

  /** A session of events; an event whose control is not on screen cannot be
      produced by the page and is skipped. */
  function Run(s: State, events: seq<Event>): State
    decreases |events|
  {
    if events == [] then s
    else
      var next := Step(s, events[0]);
      Run(if next.Some? then next.value else s, events[1..])
  }

  /** "Save" is reachable only while editing; when not editing the click
      cannot happen and nothing is inserted. */
  lemma SaveOnlyWhileEditing(s: State, resp: InsertResponse)
    ensures Step(s, SaveClicked(resp)).Some? <==> s.isEditing
    ensures s.isEditing ==> Step(s, SaveClicked(resp)) == Some(Save(s, resp).state)
  {
  }

  /** Whenever the editor is closed, both drafts are empty. */
  predicate IdleDraftEmpty(s: State) {
    !s.isEditing ==> s.title == [] && s.content == []
  }

  /** Every event keeps `IdleDraftEmpty`: typing is only possible while
      editing, a successful save empties the drafts as it closes the editor,
      and a failed or refused save leaves the editor open. */
  lemma StepKeepsIdleDraftEmpty(s: State, e: Event)
    requires IdleDraftEmpty(s)
    ensures Step(s, e).Some? ==> IdleDraftEmpty(Step(s, e).value)
  {
  }

  /** `IdleDraftEmpty` holds at the start and after any session. */
  lemma {:induction false} RunKeepsIdleDraftEmpty(now: Date, offset: UtcOffset, events: seq<Event>)
    ensures IdleDraftEmpty(Run(Initial(now, offset), events))
  {
    RunFromIdleDraftEmpty(Initial(now, offset), events);
  }

  /** `IdleDraftEmpty` is preserved by any session. */
  lemma {:induction false} RunFromIdleDraftEmpty(s: State, events: seq<Event>)
    requires IdleDraftEmpty(s)
    ensures IdleDraftEmpty(Run(s, events))
    decreases |events|
  {
    if events != [] {
      var next := Step(s, events[0]);
      StepKeepsIdleDraftEmpty(s, events[0]);
      RunFromIdleDraftEmpty(if next.Some? then next.value else s, events[1..]);
    }
  }

  /** `tail` is what is left of `xs` after dropping some leading elements. */
  predicate IsSuffix(tail: seq<JournalEntry>, xs: seq<JournalEntry>) {
    |tail| <= |xs| && xs[|xs| - |tail|..] == tail
  }

  /** A suffix of a suffix is a suffix. */
  lemma SuffixTransitive(a: seq<JournalEntry>, b: seq<JournalEntry>, c: seq<JournalEntry>)
    requires IsSuffix(a, b) && IsSuffix(b, c)
    ensures IsSuffix(a, c)
  {
    assert c[|c| - |a|..] == c[|c| - |b|..][|b| - |a|..];
  }

  /** One event either leaves the entries alone or puts one entry in front. */
  lemma StepOnlyPrepends(s: State, e: Event)
    ensures Step(s, e).Some? ==>
      && IsSuffix(s.entries, Step(s, e).value.entries)
      && |Step(s, e).value.entries| <= |s.entries| + 1
      && Step(s, e).value.selectedDate == s.selectedDate
      && Step(s, e).value.utcOffset == s.utcOffset
  {
  }

  /** Entries are never removed, reordered or changed: after any session the
      old list is still the tail of the new one, and the selected date and
      the UTC offset (which the page never changes) are the same. */
  lemma {:induction false} RunOnlyPrepends(s: State, events: seq<Event>)
    ensures IsSuffix(s.entries, Run(s, events).entries)
    ensures Run(s, events).selectedDate == s.selectedDate
    ensures Run(s, events).utcOffset == s.utcOffset
    decreases |events|
  {
    if events == [] {
      assert s.entries[|s.entries| - |s.entries|..] == s.entries;
    } else {
      var next := Step(s, events[0]);
      var s' := if next.Some? then next.value else s;
      StepOnlyPrepends(s, events[0]);
      assert IsSuffix(s.entries, s'.entries) by {
        if next.None? { assert s.entries[|s.entries| - |s.entries|..] == s.entries; }
      }
      RunOnlyPrepends(s', events[1..]);
      SuffixTransitive(s.entries, s'.entries, Run(s', events[1..]).entries);
    }
  }

  /** When the backend stores the record as sent and assigns it `id`, the new
      first entry carries that id and the trimmed drafts. Its date is the
      UTC reading of the selected day's key: on the selected day east of UTC,
      on the day before west of UTC. Read in local time, the key would give
      back the selected day in every zone. */
  lemma EchoedSaveKeepsDraft(s: State, id: string)
    requires !(Blank(s.title) && Blank(s.content))
    ensures var req := SaveRequest(s).value;
      var resp := InsertResponse(Some(StoredRow(id, req.date, req.title, req.content)), None);
      var e := Save(s, resp).state.entries[0];
      && e.id == id
      && e.title == Trim(s.title)
      && e.content == Trim(s.content)
      && e.date == DateOfKey(s.selectedDate.day, s.utcOffset)
      && (s.utcOffset >= 0 ==> e.date.day == s.selectedDate.day)
      && (s.utcOffset < 0 ==> e.date.day == PreviousDay(s.selectedDate.day))
      && LocalDateOfKey(req.date).day == s.selectedDate.day
  {
  }

  /** The session "New Entry", type a non-blank content, "Save" from a closed
      editor with an empty title: once the insert returns a row without error,
      the list has gained exactly that row's entry in front, and the editor is
      closed with both drafts empty again. */
  lemma NewEntrySession(s: State, typed: string, resp: InsertResponse)
    requires !s.isEditing && s.title == [] && !Blank(typed) && Succeeded(resp)
    ensures var r := Run(s, [NewEntryClicked, ContentTyped(typed), SaveClicked(resp)]);
      && r.entries == [ToEntry(resp.data.value, s.utcOffset)] + s.entries
      && !r.isEditing && r.title == [] && r.content == []
      && r.selectedDate == s.selectedDate
  {
    var events := [NewEntryClicked, ContentTyped(typed), SaveClicked(resp)];
    var s1 := s.(isEditing := true);
    var s2 := s1.(content := typed);
    SuccessfulSave(s2, resp);
    var s3 := Step(s2, events[2]).value;
    assert Run(s, events) == Run(s1, events[1..]);
    assert Run(s1, events[1..]) == Run(s2, events[2..]);
    assert Run(s2, events[2..]) == Run(s3, []);
  }

  /** A click on "Save" while editing a non-blank draft, answered with a row
      and no error, prepends the row's entry, empties the drafts and closes
      the editor. */
  lemma SuccessfulSave(s: State, resp: InsertResponse)
    requires s.isEditing && !(Blank(s.title) && Blank(s.content)) && Succeeded(resp)
    ensures Step(s, SaveClicked(resp)) == Some(s.(
      entries := [ToEntry(resp.data.value, s.utcOffset)] + s.entries,
      isEditing := false, title := "", content := ""))
  {
  }

  /** The record the worked session sends: the selected day, an empty title
      and the content with its padding trimmed. */
  lemma HelloRequest(today: Date)
    requires today.day == Day(2024, 5, 2)
    ensures SaveRequest(State(today, "", "  hello\n", [], true, 0))
      == Some(EntryRecord(Day(2024, 5, 2), "", "hello"))
  {
    var typed := "  hello\n";
    assert !IsWhitespace(typed[2]) && !IsWhitespace(typed[6]);
    assert typed[2..7] == "hello";
    TrimAt(typed, 2, 7);
    assert Blank("");
  }
}

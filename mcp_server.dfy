/** The reschedule server of mcp_server.py: the match score, the availability query with its
    alternatives, the submission that logs a request, and the slot search by time.
    Each query or submission is a pure function of the loaded document (Query, Submit), and the
    method that does the work step by step on the store (QueryAvailableSlots,
    SubmitScheduleChange) is proved to compute it. The environment toggle and the clock are
    parameters. */
module McpServer {
  import opened Wrappers
  import opened Seqs
  import opened Calendar
  import opened Storage

  /** At most this many alternatives are offered. */
  const MaxAlternatives := 3

  /** The estimated wait reported with PENDING_AUDIT. */
  const PendingAuditEtaSeconds := 180

  /** The score of a slot that violates a required same teacher. */
  const RejectScore := -1000

  // ---------------------------------------------------------------------------
  // _calculate_match_score

  /** `_calculate_match_score`: the tiered score of `slot` against the original course, paired
      with the slot's parsed time. It is defined but nothing calls it; the alternatives are
      ordered by day distance alone. */
  function MatchScore(slot: Slot, originalTeacher: string, originalContent: string,
                      requireSameTeacher: bool, preferSameContent: bool): (r: (int, int))
    requires slot.time.Some? && WellFormedTime(slot.time.value)
    ensures r.1 == TimeValue(slot.time.value)
    ensures r.0 == RejectScore <==> requireSameTeacher && slot.teacher != Some(originalTeacher)
    ensures r.0 != RejectScore ==>
      && (r.0 == 100 <==> slot.teacher == Some(originalTeacher) && slot.content == Some(originalContent))
      && (r.0 == 50 <==> slot.teacher != Some(originalTeacher) && slot.content == Some(originalContent) && preferSameContent)
      && (r.0 == 25 <==> slot.teacher == Some(originalTeacher) && slot.content != Some(originalContent))
      && (r.0 == 0 <==> slot.teacher != Some(originalTeacher) && !(slot.content == Some(originalContent) && preferSameContent))
  {
    var sameTeacher := slot.teacher == Some(originalTeacher);
    var sameContent := slot.content == Some(originalContent);
    var time := TimeValue(slot.time.value);
    if requireSameTeacher && !sameTeacher then (RejectScore, time)
    else
      var score :=
        if sameTeacher && sameContent then 100
        else if sameContent && preferSameContent then 50
        else if sameTeacher then 25
        else 0;
      (score, time)
  }

  /** A slot that agrees with the original wherever another does scores at least as high;
      with a required teacher, every slot of that teacher outranks every other. */
  lemma MatchScoreMonotone(a: Slot, b: Slot, originalTeacher: string, originalContent: string,
                           requireSameTeacher: bool, preferSameContent: bool)
    requires a.time.Some? && WellFormedTime(a.time.value)
    requires b.time.Some? && WellFormedTime(b.time.value)
    requires a.teacher == Some(originalTeacher) ==> b.teacher == Some(originalTeacher)
    requires a.content == Some(originalContent) ==> b.content == Some(originalContent)
    ensures MatchScore(a, originalTeacher, originalContent, requireSameTeacher, preferSameContent).0
         <= MatchScore(b, originalTeacher, originalContent, requireSameTeacher, preferSameContent).0
  {
  }

  // ---------------------------------------------------------------------------
  // _find_slot_by_time

  function TimeIs(timeStr: string): Slot -> bool {
    (s: Slot) => s.time == Some(timeStr)
  }

  /** `_find_slot_by_time`: the first slot whose time is exactly `timeStr`. */
  method FindSlotByTime(store: Store, timeStr: string) returns (r: Result<Option<Slot>, StorageError>)
    ensures store.file.None? ==> r == Err(DbNotFound)
    ensures store.file.Some? ==> r.Ok? && IsFirstMatch(store.file.value.Slots(), TimeIs(timeStr), r.value)
  {
    var loaded := store.GetSlots();
    if loaded.Err? {
      return Err(loaded.error);
    }
    var slots := loaded.value;
    var i := 0;
    while i < |slots|
      invariant 0 <= i <= |slots|
      invariant forall j | 0 <= j < i :: slots[j].time != Some(timeStr)
    {
      if slots[i].time == Some(timeStr) {
        return Ok(Some(slots[i]));
      }
      i := i + 1;
    }
    return Ok(None);
  }

  // ---------------------------------------------------------------------------
  // query_available_slots_impl

  datatype Reason = CourseNotFound | NotFound | Full | Available

  /** The "requested" part of a query answer. */
  datatype Requested = Requested(isAvailable: bool, reason: Reason, requestedDate: string)

  /** The "match" annotation of an alternative. */
  datatype MatchFlags = MatchFlags(sameTeacher: bool, sameContent: bool)

  /** One offered alternative slot. */
  datatype Alternative = Alternative(
    slotId: Option<string>,
    time: Option<string>,
    teacher: Option<string>,
    content: Option<string>,
    capacityLeft: int,
    location: string,
    matching: MatchFlags)

  /** A query answer; its "status" is always "ok" and is not modelled. */
  datatype QueryResult = QueryResult(requested: Requested, alternatives: seq<Alternative>)

  /** The course looked up by its content label. */
  function ContentIs(courseName: string): Course -> bool {
    (c: Course) => c.content == Some(courseName)
  }

  /** A slot of the course on the target date (its time starts with `targetDate`). */
  function OnTargetDate(courseName: string, targetDate: string): Slot -> bool {
    (s: Slot) => s.content == Some(courseName) && StartsWith(s.time.GetOr(""), targetDate)
  }

  /** A slot that may be offered instead: same content, free capacity, another date. */
  function IsAlternative(courseName: string, targetDate: string): Slot -> bool {
    (s: Slot) => s.content == Some(courseName) && s.CapacityLeft() > 0 && !StartsWith(s.time.GetOr(""), targetDate)
  }

  /** The sort key: days between the slot's date and the target date. */
  function DistanceFrom(targetDate: string): Slot -> int {
    (s: Slot) => DayDistance(s.time.GetOr(""), targetDate)
  }

  /** The first slot of the course on the target date (`target_slots[0]`). */
  function TargetSlot(slots: seq<Slot>, courseName: string, targetDate: string): Option<Slot> {
    var targetSlots := Filter(slots, OnTargetDate(courseName, targetDate));
    if |targetSlots| > 0 then Some(targetSlots[0]) else None
  }

  /** The availability of the target date, judged on its first slot. */
  function RequestedResult(slots: seq<Slot>, courseName: string, targetDate: string): Requested {
    match TargetSlot(slots, courseName, targetDate)
    case None => Requested(false, NotFound, targetDate)
    case Some(s) =>
      if s.CapacityLeft() > 0 then Requested(true, Available, targetDate)
      else Requested(false, Full, targetDate)
  }

  /** `alternatives_source`, in store order. */
  function AlternativeSource(slots: seq<Slot>, courseName: string, targetDate: string): seq<Slot> {
    Filter(slots, IsAlternative(courseName, targetDate))
  }

  /** `alternatives_sorted[:3]`. */
  function ChosenSlots(slots: seq<Slot>, courseName: string, targetDate: string): seq<Slot> {
    var sorted := SortByKey(AlternativeSource(slots, courseName, targetDate), DistanceFrom(targetDate));
    sorted[..if |sorted| < MaxAlternatives then |sorted| else MaxAlternatives]
  }

  /** The entry built for one chosen slot. */
  function Annotate(s: Slot, course: Course): Alternative {
    Alternative(s.slotId, s.time, s.teacher, s.content, s.CapacityLeft(), s.location.GetOr(""),
                MatchFlags(s.teacher == course.teacher, true))
  }

  function AnnotateAll(slots: seq<Slot>, course: Course): seq<Alternative> {
    seq(|slots|, i requires 0 <= i < |slots| => Annotate(slots[i], course))
  }

  /** Every chosen slot is an alternative of the source. */
  lemma ChosenAreAlternatives(slots: seq<Slot>, courseName: string, targetDate: string)
    ensures |ChosenSlots(slots, courseName, targetDate)| <= MaxAlternatives
    ensures forall i | 0 <= i < |ChosenSlots(slots, courseName, targetDate)| ::
      ChosenSlots(slots, courseName, targetDate)[i] in AlternativeSource(slots, courseName, targetDate)
  {
    var source := AlternativeSource(slots, courseName, targetDate);
    var sorted := SortByKey(source, DistanceFrom(targetDate));
    var chosen := ChosenSlots(slots, courseName, targetDate);
    forall i | 0 <= i < |chosen| ensures chosen[i] in source {
      assert chosen[i] == sorted[i];
      assert sorted[i] in multiset(sorted);
    }
  }

  /** What Python raises on: when the alternatives are sorted, every time parsed by the key
      (and the target date) must be well formed. Nothing is parsed when the course is unknown,
      when the target date is available or when no alternative exists. */
  ghost predicate QueryDefined(db: Db, courseName: string, targetDate: string) {
    var source := AlternativeSource(db.Slots(), courseName, targetDate);
    (&& FirstMatch(db.Courses(), ContentIs(courseName)).Some?
     && !RequestedResult(db.Slots(), courseName, targetDate).isAvailable
     && source != [])
    ==>
    (&& WellFormedDate(targetDate)
     && forall i | 0 <= i < |source| :: source[i].time.Some? && WellFormedTime(source[i].time.value))
  }

  /** The answer of `query_available_slots_impl` on the document `db`. */
  function Query(db: Db, courseName: string, targetDate: string): (r: QueryResult)
    ensures r.requested.requestedDate == targetDate
    ensures r.requested.isAvailable <==> r.requested.reason == Available
    ensures r.requested.reason == CourseNotFound <==>
      forall i | 0 <= i < |db.Courses()| :: db.Courses()[i].content != Some(courseName)
    ensures r.requested.reason == CourseNotFound || r.requested.isAvailable ==> r.alternatives == []
    ensures r.alternatives != [] ==> r.requested.reason == Full || r.requested.reason == NotFound
    ensures |r.alternatives| <= MaxAlternatives
    ensures forall i | 0 <= i < |r.alternatives| ::
      && r.alternatives[i].content == Some(courseName)
      && r.alternatives[i].capacityLeft > 0
      && !StartsWith(r.alternatives[i].time.GetOr(""), targetDate)
      && r.alternatives[i].matching.sameContent
  {
    match FirstMatch(db.Courses(), ContentIs(courseName))
    case None => QueryResult(Requested(false, CourseNotFound, targetDate), [])
    case Some(course) =>
      var requested := RequestedResult(db.Slots(), courseName, targetDate);
      if requested.isAvailable then QueryResult(requested, [])
      else
        ChosenAreAlternatives(db.Slots(), courseName, targetDate);
        QueryResult(requested, AnnotateAll(ChosenSlots(db.Slots(), courseName, targetDate), course))
  }

  /** The course loop of `query_available_slots_impl`: the first course with content `courseName`. */
  method FindCourseByContent(courses: seq<Course>, courseName: string) returns (course: Option<Course>)
    ensures course == FirstMatch(courses, ContentIs(courseName))
  {
    course := None;
    var i := 0;
    while i < |courses|
      invariant 0 <= i <= |courses|
      invariant course == None
      invariant forall j | 0 <= j < i :: courses[j].content != Some(courseName)
    {
      if courses[i].content == Some(courseName) {
        course := Some(courses[i]);
        break;
      }
      i := i + 1;
    }
    assert IsFirstMatch(courses, ContentIs(courseName), course);
    FirstMatchUnique(courses, ContentIs(courseName), course);
  }

  /** The result loop of `query_available_slots_impl`: one annotated entry per chosen slot. */
  method BuildAlternatives(top: seq<Slot>, course: Course) returns (alternatives: seq<Alternative>)
    ensures alternatives == AnnotateAll(top, course)
  {
    alternatives := [];
    for k := 0 to |top|
      invariant |alternatives| == k
      invariant forall j | 0 <= j < k :: alternatives[j] == Annotate(top[j], course)
    {
      var slot := top[k];
      alternatives := alternatives + [Alternative(
        slot.slotId, slot.time, slot.teacher, slot.content,
        slot.capacity.GetOr(0) - slot.booked.GetOr(0),
        slot.location.GetOr(""),
        MatchFlags(slot.teacher == course.teacher, true))];
    }
  }

  /** `query_available_slots_impl`, step by step on the store. `originalDate` plays no part. */
  method QueryAvailableSlots(store: Store, courseName: string, originalDate: string, targetDate: string)
    returns (r: Result<QueryResult, StorageError>)
    requires store.file.Some? ==> QueryDefined(store.file.value, courseName, targetDate)
    ensures store.file.None? ==> r == Err(DbNotFound)
    ensures store.file.Some? ==> r == Ok(Query(store.file.value, courseName, targetDate))
  {
    var loadedCourses := store.GetCourses();
    if loadedCourses.Err? {
      return Err(loadedCourses.error);
    }
    ghost var db := store.file.value;
    var course := FindCourseByContent(loadedCourses.value, courseName);
    if course.None? {
      return Ok(QueryResult(Requested(false, CourseNotFound, targetDate), []));
    }

    var slots := store.GetSlots().value;
    var targetSlots := Filter(slots, OnTargetDate(courseName, targetDate));
    var targetSlot := if |targetSlots| > 0 then Some(targetSlots[0]) else None;

    var requested := Requested(false, NotFound, targetDate);
    if targetSlot.Some? {
      var capacityLeft := targetSlot.value.CapacityLeft();
      if capacityLeft > 0 {
        requested := requested.(isAvailable := true, reason := Available);
      } else {
        requested := requested.(reason := Full);
      }
    } else {
      requested := requested.(reason := NotFound);
    }
    assert requested == RequestedResult(db.Slots(), courseName, targetDate);
    if requested.isAvailable {
      return Ok(QueryResult(requested, []));
    }

    var source := Filter(store.GetSlots().value, IsAlternative(courseName, targetDate));
    var sorted := SortByKey(source, DistanceFrom(targetDate));
    var top := sorted[..if |sorted| < MaxAlternatives then |sorted| else MaxAlternatives];
    assert top == ChosenSlots(db.Slots(), courseName, targetDate);
    var alternatives := BuildAlternatives(top, course.value);
    return Ok(QueryResult(requested, alternatives));
  }

  /** Availability is decided by the first slot of the course on the target date alone:
      AVAILABLE when it has free capacity, FULL when not, NOT_FOUND when there is none. */
  lemma RequestedDecidedByFirstSlot(db: Db, courseName: string, targetDate: string)
    requires FirstMatch(db.Courses(), ContentIs(courseName)).Some?
    ensures var r := Query(db, courseName, targetDate).requested;
            var k := FirstIndex(db.Slots(), OnTargetDate(courseName, targetDate));
            && (r.reason == NotFound <==> k.None?)
            && (r.reason == Available <==> k.Some? && db.Slots()[k.value].CapacityLeft() > 0)
            && (r.reason == Full <==> k.Some? && db.Slots()[k.value].CapacityLeft() <= 0)
  {
    FilterHead(db.Slots(), OnTargetDate(courseName, targetDate));
  }

  /** Slots after the first one on the target date are never consulted: changing them, or
      adding more, leaves the "requested" answer as it is. */
  lemma LaterSlotsNotConsulted(db: Db, other: Db, courseName: string, targetDate: string, k: nat)
    requires FirstIndex(db.Slots(), OnTargetDate(courseName, targetDate)) == Some(k)
    requires other.Courses() == db.Courses()
    requires k < |other.Slots()| && other.Slots()[..k + 1] == db.Slots()[..k + 1]
    ensures Query(other, courseName, targetDate).requested == Query(db, courseName, targetDate).requested
  {
    var p := OnTargetDate(courseName, targetDate);
    assert forall j | 0 <= j <= k :: other.Slots()[j] == db.Slots()[..k + 1][j];
    FirstIndexUnique(other.Slots(), p, k);
    FilterHead(db.Slots(), p);
    FilterHead(other.Slots(), p);
  }

  /** Each alternative reports its chosen slot: id, time, teacher, content, `capacity - booked`,
      location, and whether the teacher is the course's. */
  lemma AlternativesDescribeChosenSlots(db: Db, courseName: string, targetDate: string)
    requires FirstMatch(db.Courses(), ContentIs(courseName)).Some?
    ensures var course := FirstMatch(db.Courses(), ContentIs(courseName)).value;
            var r := Query(db, courseName, targetDate);
            var chosen := ChosenSlots(db.Slots(), courseName, targetDate);
            && (!r.requested.isAvailable ==> |r.alternatives| == |chosen|)
            && forall i | 0 <= i < |r.alternatives| ::
                 && r.alternatives[i].slotId == chosen[i].slotId
                 && r.alternatives[i].time == chosen[i].time
                 && r.alternatives[i].teacher == chosen[i].teacher
                 && r.alternatives[i].content == chosen[i].content
                 && r.alternatives[i].capacityLeft == chosen[i].capacity.GetOr(0) - chosen[i].booked.GetOr(0)
                 && r.alternatives[i].location == chosen[i].location.GetOr("")
                 && (r.alternatives[i].matching.sameTeacher <==> chosen[i].teacher == course.teacher)
  {
  }

  /** The chosen slots are the nearest alternatives: as many as there are, up to three, in
      non-decreasing day distance from the target date, and none farther than any left out. */
  lemma ChosenSlotsNearestFirst(slots: seq<Slot>, courseName: string, targetDate: string)
    ensures var source := AlternativeSource(slots, courseName, targetDate);
            var chosen := ChosenSlots(slots, courseName, targetDate);
            var key := DistanceFrom(targetDate);
            && |chosen| == (if |source| < MaxAlternatives then |source| else MaxAlternatives)
            && multiset(chosen) <= multiset(source)
            && (forall i, j | 0 <= i < j < |chosen| :: key(chosen[i]) <= key(chosen[j]))
            && (forall s | s in multiset(source) - multiset(chosen) ::
                  forall i | 0 <= i < |chosen| :: key(chosen[i]) <= key(s))
  {
    var source := AlternativeSource(slots, courseName, targetDate);
    var key := DistanceFrom(targetDate);
    var chosen := ChosenSlots(slots, courseName, targetDate);
    var sorted := SortByKey(source, key);
    assert chosen == sorted[..|chosen|];
    SortedPrefixSmallest(sorted, source, key, |chosen|);
  }

  /** Ties in day distance keep store order: for every distance, the chosen slots at that
      distance are the first alternatives at that distance in the store, in store order. */
  lemma ChosenSlotsStable(slots: seq<Slot>, courseName: string, targetDate: string)
    ensures var source := AlternativeSource(slots, courseName, targetDate);
            var chosen := ChosenSlots(slots, courseName, targetDate);
            var key := DistanceFrom(targetDate);
            forall d :: Filter(chosen, KeyIs(key, d)) <= Filter(source, KeyIs(key, d))
  {
    var source := AlternativeSource(slots, courseName, targetDate);
    var key := DistanceFrom(targetDate);
    var chosen := ChosenSlots(slots, courseName, targetDate);
    assert chosen == SortByKey(source, key)[..|chosen|];
    SortedPrefixStable(source, key, |chosen|);
  }

  /** Where the query is defined, every alternative has a well-formed time on another day
      than the target date, at least one day away. */
  lemma AlternativesOnOtherDays(db: Db, courseName: string, targetDate: string)
    requires QueryDefined(db, courseName, targetDate)
    ensures var r := Query(db, courseName, targetDate);
            forall i | 0 <= i < |r.alternatives| ::
              && r.alternatives[i].time.Some?
              && WellFormedTime(r.alternatives[i].time.value)
              && DayDistance(r.alternatives[i].time.value, targetDate) >= 1
  {
    var r := Query(db, courseName, targetDate);
    if r.alternatives != [] {
      var source := AlternativeSource(db.Slots(), courseName, targetDate);
      var chosen := ChosenSlots(db.Slots(), courseName, targetDate);
      AlternativesDescribeChosenSlots(db, courseName, targetDate);
      ChosenAreAlternatives(db.Slots(), courseName, targetDate);
      assert chosen[0] in source;
      forall i | 0 <= i < |r.alternatives|
        ensures && r.alternatives[i].time.Some?
                && WellFormedTime(r.alternatives[i].time.value)
                && DayDistance(r.alternatives[i].time.value, targetDate) >= 1
      {
        var j :| 0 <= j < |source| && source[j] == chosen[i];
        assert IsAlternative(courseName, targetDate)(chosen[i]);
        DayDistanceOtherDay(chosen[i].time.value, targetDate);
      }
    }
  }

  // ---------------------------------------------------------------------------
  // submit_schedule_change_impl

  datatype Audit = Audit(etaSeconds: int)

  /** The "updated_schedule" part of a successful submission. */
  datatype UpdatedSchedule = UpdatedSchedule(time: Option<string>, teacher: Option<string>, location: string)

  /** The message of a submission: the two failure codes, or the text for "request submitted",
      "schedule changed" and "submission failed". */
  datatype Message = StudentNotFound | SlotNotFoundOrFull | RequestSubmitted | ScheduleChanged | SubmissionFailed

  /** A submission answer; its "status" is always "ok" and is not modelled. */
  datatype SubmitResponse = SubmitResponse(
    result: Status,
    message: Message,
    audit: Option<Audit>,
    updatedSchedule: Option<UpdatedSchedule>)

  /** The answer together with the request record to append, if any. */
  datatype SubmitOutcome = SubmitOutcome(response: SubmitResponse, record: Option<Request>)

  /** The message text chosen by status. */
  function MessageFor(status: Status): Message {
    if status == PendingAudit then RequestSubmitted
    else if status == Success then ScheduleChanged
    else SubmissionFailed
  }

  function AsciiLower(c: char): char {
    if 'A' <= c <= 'Z' then (c as int + 32) as char else c
  }

  function Lower(s: string): string {
    seq(|s|, i requires 0 <= i < |s| => AsciiLower(s[i]))
  }

  /** `os.getenv("SCHEDULE_DIRECT_SUCCESS", "false").lower() == "true"`, given the variable's value. */
  predicate DirectSuccessEnabled(env: Option<string>) {
    Lower(env.GetOr("false")) == "true"
  }

  /** The toggle is on exactly for the spellings of "true" in any letter case; it is off when
      the variable is unset. */
  lemma DirectSuccessSpellings(env: Option<string>)
    ensures DirectSuccessEnabled(env) <==>
      && env.Some? && |env.value| == 4
      && forall i | 0 <= i < 4 :: env.value[i] == "true"[i] || env.value[i] == "TRUE"[i]
  {
    var v := env.GetOr("false");
    if |v| == 4 {
      assert Lower(v) == "true" <==> forall i | 0 <= i < 4 :: Lower(v)[i] == "true"[i];
    } else {
      assert |Lower(v)| != |"true"|;
    }
    assert env.None? ==> Lower(v)[0] == 'f';
  }

  /** A slot the submission may take: the course's content, on the target date, free capacity. */
  function IsCandidate(content: Option<string>, targetDate: string): Slot -> bool {
    (s: Slot) => s.content == content && StartsWith(s.time.GetOr(""), targetDate) && s.CapacityLeft() > 0
  }

  /** The answer of `submit_schedule_change_impl` on the document `db`, and the record it appends. */
  function Submit(db: Db, studentName: string, targetDate: string, directSuccess: bool, timestamp: string): (r: SubmitOutcome)
    ensures r.record.Some? <==> r.response.result != Failed
    ensures r.response.result == Failed <==>
      r.response.message == StudentNotFound || r.response.message == SlotNotFoundOrFull
    ensures r.response.result == Failed ==> r.response.audit.None? && r.response.updatedSchedule.None?
    ensures r.response.message == StudentNotFound <==>
      forall i | 0 <= i < |db.Courses()| :: db.Courses()[i].studentName != Some(studentName)
    ensures r.response.result != Failed ==>
      r.response.result == (if directSuccess then Success else PendingAudit) && r.response.updatedSchedule.Some?
    ensures r.response.result == PendingAudit ==>
      r.response.audit == Some(Audit(PendingAuditEtaSeconds)) && r.response.message == RequestSubmitted
    ensures r.response.result == Success ==> r.response.audit.None? && r.response.message == ScheduleChanged
    ensures r.record.Some? ==>
      && r.record.value.studentName == studentName
      && r.record.value.status == r.response.result
      && r.record.value.timestamp == timestamp
  {
    match FirstMatch(db.Courses(), StudentNameIs(studentName))
    case None => SubmitOutcome(SubmitResponse(Failed, StudentNotFound, None, None), None)
    case Some(course) =>
      var candidates := Filter(db.Slots(), IsCandidate(course.content, targetDate));
      if |candidates| == 0 then SubmitOutcome(SubmitResponse(Failed, SlotNotFoundOrFull, None, None), None)
      else
        var slot := candidates[0];
        var status := if directSuccess then Success else PendingAudit;
        var audit := if directSuccess then None else Some(Audit(PendingAuditEtaSeconds));
        SubmitOutcome(
          SubmitResponse(status, MessageFor(status), audit,
                         Some(UpdatedSchedule(slot.time, slot.teacher, slot.location.GetOr("")))),
          Some(Request(studentName, slot.slotId, status, timestamp)))
  }

  /** The submission takes the first slot of the store that has the course's content, lies on
      the target date and has free capacity, and copies its id, time, teacher and location. */
  lemma SubmitUsesFirstCandidate(db: Db, studentName: string, targetDate: string, directSuccess: bool, timestamp: string)
    requires FirstMatch(db.Courses(), StudentNameIs(studentName)).Some?
    ensures var course := FirstMatch(db.Courses(), StudentNameIs(studentName)).value;
            var r := Submit(db, studentName, targetDate, directSuccess, timestamp);
            var k := FirstIndex(db.Slots(), IsCandidate(course.content, targetDate));
            && (r.response.message == SlotNotFoundOrFull <==> k.None?)
            && (k.Some? ==>
                  var slot := db.Slots()[k.value];
                  && slot.content == course.content
                  && StartsWith(slot.time.GetOr(""), targetDate)
                  && slot.CapacityLeft() > 0
                  && r.record.value.slotId == slot.slotId
                  && r.response.updatedSchedule == Some(UpdatedSchedule(slot.time, slot.teacher, slot.location.GetOr(""))))
  {
    var course := FirstMatch(db.Courses(), StudentNameIs(studentName)).value;
    FilterHead(db.Slots(), IsCandidate(course.content, targetDate));
  }

  /** The document after appending the record, if there is one. */
  function ApplyRecord(db: Db, record: Option<Request>): (r: Db)
    ensures r.courses == db.courses && r.slots == db.slots
    ensures r.Requests() == db.Requests() + (if record.Some? then [record.value] else [])
    ensures record.None? ==> r == db
  {
    match record
    case None => db
    case Some(x) => WithRequest(db, x)
  }

  /** `submit_schedule_change_impl` on the store; `env` is the value of SCHEDULE_DIRECT_SUCCESS
      and `timestamp` the clock reading used for the record. */
  method SubmitScheduleChange(store: Store, studentName: string, targetDate: string,
                              env: Option<string>, timestamp: string)
    returns (r: Result<SubmitResponse, StorageError>)
    modifies store
    ensures old(store.file).None? ==> r == Err(DbNotFound) && store.file == old(store.file)
    ensures old(store.file).Some? ==>
      var out := Submit(old(store.file).value, studentName, targetDate, DirectSuccessEnabled(env), timestamp);
      r == Ok(out.response) && store.file == Some(ApplyRecord(old(store.file).value, out.record))
  {
    var found := store.FindCourseByStudentName(studentName);
    if found.Err? {
      return Err(found.error);
    }
    ghost var db := store.file.value;
    FirstMatchUnique(db.Courses(), StudentNameIs(studentName), found.value);
    if found.value.None? {
      return Ok(SubmitResponse(Failed, StudentNotFound, None, None));
    }
    var course := found.value.value;

    var candidates := Filter(store.GetSlots().value, IsCandidate(course.content, targetDate));
    if |candidates| == 0 {
      return Ok(SubmitResponse(Failed, SlotNotFoundOrFull, None, None));
    }
    var targetSlot := candidates[0];

    var directSuccess := DirectSuccessEnabled(env);
    var resultStatus: Status;
    var auditInfo: Option<Audit>;
    if directSuccess {
      resultStatus := Success;
      auditInfo := None;
    } else {
      resultStatus := PendingAudit;
      auditInfo := Some(Audit(PendingAuditEtaSeconds));
    }

    var record := Request(studentName, targetSlot.slotId, resultStatus, timestamp);
    var appended := store.AppendRequest(record);
    assert appended == Ok(());

    var messageText := MessageFor(resultStatus);
    return Ok(SubmitResponse(resultStatus, messageText, auditInfo,
                             Some(UpdatedSchedule(targetSlot.time, targetSlot.teacher, targetSlot.location.GetOr("")))));
  }

  // ---------------------------------------------------------------------------
  // How the query and the submission relate

  /** When the query finds the target date AVAILABLE, a submission for a student of that course
      succeeds, and on the very slot the query judged. */
  lemma AvailableImpliesSubmitSucceeds(db: Db, courseName: string, studentName: string, targetDate: string,
                                       directSuccess: bool, timestamp: string)
    requires FirstMatch(db.Courses(), ContentIs(courseName)).Some?
    requires FirstMatch(db.Courses(), StudentNameIs(studentName)).Some?
    requires FirstMatch(db.Courses(), StudentNameIs(studentName)).value.content == Some(courseName)
    requires Query(db, courseName, targetDate).requested.isAvailable
    ensures var k := FirstIndex(db.Slots(), OnTargetDate(courseName, targetDate));
            var r := Submit(db, studentName, targetDate, directSuccess, timestamp);
            && k.Some? && r.response.result != Failed
            && r.record.value.slotId == db.Slots()[k.value].slotId
  {
    var slots := db.Slots();
    var p := OnTargetDate(courseName, targetDate);
    var q := IsCandidate(Some(courseName), targetDate);
    RequestedDecidedByFirstSlot(db, courseName, targetDate);
    var k := FirstIndex(slots, p).value;
    assert q(slots[k]);
    assert forall j | 0 <= j < k :: !q(slots[j]) by {
      forall j | 0 <= j < k ensures !q(slots[j]) {
        assert !p(slots[j]);
      }
    }
    FirstIndexUnique(slots, q, k);
    SubmitUsesFirstCandidate(db, studentName, targetDate, directSuccess, timestamp);
  }

  /** A store where the first slot of the date is full and a later one on the same date is free. */
  function FullFirstSlotDb(): Db {
    Db(Some([Course(Some("K1"), Some("Amy"), Some("Mr.Li"), Some("Math"))]),
       Some([FullMorningSlot(), FreeAfternoonSlot()]),
       None)
  }

  function FullMorningSlot(): Slot {
    Slot(Some("S1"), Some("2024-05-01 09:00"), Some("Mr.Li"), Some("Math"), Some("R1"), Some(2), Some(2))
  }

  function FreeAfternoonSlot(): Slot {
    Slot(Some("S2"), Some("2024-05-01 15:00"), Some("Ms.Wu"), Some("Math"), None, Some(3), None)
  }

  /** On that store the query answers FULL, judging by the first slot of the date alone, and
      offers nothing: the only free slot is on the target date, which alternatives exclude. */
  lemma FullFirstSlotQuery()
    ensures Query(FullFirstSlotDb(), "Math", "2024-05-01") ==
            QueryResult(Requested(false, Full, "2024-05-01"), [])
  {
    var db := FullFirstSlotDb();
    var s1, s2 := FullMorningSlot(), FreeAfternoonSlot();
    assert db.Slots() == [s1, s2] && [s1, s2][1..] == [s2];
    assert ContentIs("Math")(db.Courses()[0]);
    assert FirstMatch(db.Courses(), ContentIs("Math")).Some?;
    assert StartsWith("2024-05-01 09:00", "2024-05-01");
    assert StartsWith("2024-05-01 15:00", "2024-05-01");
    assert OnTargetDate("Math", "2024-05-01")(s1) && OnTargetDate("Math", "2024-05-01")(s2);
    assert Filter([s2], OnTargetDate("Math", "2024-05-01")) == [s2];
    assert Filter(db.Slots(), OnTargetDate("Math", "2024-05-01")) == [s1, s2];
    assert !IsAlternative("Math", "2024-05-01")(s1) && !IsAlternative("Math", "2024-05-01")(s2);
    assert Filter([s2], IsAlternative("Math", "2024-05-01")) == [];
    assert AlternativeSource(db.Slots(), "Math", "2024-05-01") == [];
  }

  /** On the same store a submission for the same date books the free afternoon slot, so the
      query's FULL does not mean a change to that date is refused. */
  lemma FullFirstSlotSubmit()
    ensures Submit(FullFirstSlotDb(), "Amy", "2024-05-01", false, "2024-04-30T10:00:00").record ==
            Some(Request("Amy", Some("S2"), PendingAudit, "2024-04-30T10:00:00"))
  {
    var db := FullFirstSlotDb();
    var s1, s2 := FullMorningSlot(), FreeAfternoonSlot();
    assert db.Slots() == [s1, s2] && [s1, s2][1..] == [s2];
    assert StudentNameIs("Amy")(db.Courses()[0]);
    assert FirstMatch(db.Courses(), StudentNameIs("Amy")) == Some(db.Courses()[0]);
    assert StartsWith("2024-05-01 15:00", "2024-05-01");
    assert !IsCandidate(Some("Math"), "2024-05-01")(s1) && IsCandidate(Some("Math"), "2024-05-01")(s2);
    assert Filter([s2], IsCandidate(Some("Math"), "2024-05-01")) == [s2];
    assert Filter(db.Slots(), IsCandidate(Some("Math"), "2024-05-01")) == [s2];
  }
}

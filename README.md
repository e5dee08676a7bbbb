# Schedule shift: a verified model of the reschedule core

The schedule-shift server helps a student move a class to another date. It offers two
operations over a small JSON record store that holds courses, bookable slots and a log of
requests:

- **Availability query** (`query_available_slots_impl`). It finds the course by its content
  label and judges the target date by the course's first slot on that date: available with
  free capacity, full without, not found when there is no slot. When the date is not
  available, it offers up to three other-day slots of the same content that have free
  capacity. These are ordered by day distance from the target date, and ties keep store
  order.
- **Submission** (`submit_schedule_change_impl`). It finds the course by the student's name,
  then takes the first slot of that content on the target date that has free capacity. It
  appends a request record with status SUCCESS or PENDING_AUDIT (chosen by the
  `SCHEDULE_DIRECT_SUCCESS` environment toggle) and answers with the slot's time, teacher and
  location. PENDING_AUDIT carries an estimated wait of 180 seconds.

The model has five modules:

- `Wrappers`: `Option` and `Result`.
- `Seqs`: first-match search, order-preserving filter, and a stable sort by an integer key.
  These are the Python list idioms the server relies on.
- `Calendar`: the fixed `"%Y-%m-%d %H:%M"` time format as a well-formedness predicate. Each
  date gets the day number Python's `date.toordinal()` gives it, and the lemmas prove that
  number identifies the date.
- `Storage`: storage.py. The db file is a `Store` object whose `file` field holds the loaded
  document, or `None` when the file does not exist. The readers are functions of that field;
  `AppendRequest` is the one method that changes it.
- `McpServer`: mcp_server.py. Each operation is a pure function of the loaded document
  (`Query`, `Submit`), and the properties are proved about those functions. The methods
  `QueryAvailableSlots` and `SubmitScheduleChange` do the work step by step on the store and
  are proved to compute those functions, including the new file contents.

A dictionary field read with `.get(key)` is an `Option`, so a missing key is `None`. Two
missing values compare equal, exactly as `None == None` does in Python.

Two consequences of the code are proved as lemmas:

- An AVAILABLE answer guarantees that a submission for the same course and date succeeds on
  the very slot the query judged (`AvailableImpliesSubmitSucceeds`).
- The converse fails. `FullFirstSlotQuery` and `FullFirstSlotSubmit` exhibit a store where
  the first slot of the date is full and a later one is free. The query answers FULL and
  offers no alternatives, while the submission books the later slot.

## Model

| member | source | states |
|---|---|---|
| Storage.Store.Load | storage.py:13-17 | The document is returned exactly when the db file exists; a missing file gives `StorageError` (DbNotFound). |
| Storage.Store.GetCourses | storage.py:26-27 | StorageError iff the file is missing; otherwise the stored course list, or the empty list when the document has no "courses" key. |
| Storage.Store.GetSlots | storage.py:30-31 | StorageError iff the file is missing; otherwise the stored slot list, or empty when "slots" is absent. |
| Storage.Store.GetRequests | storage.py:34-35 | StorageError iff the file is missing; otherwise the stored request log, or empty when "requests" is absent. |
| Storage.Store.FindCourseByKey | storage.py:38-42 | StorageError on a missing file; otherwise the result is the first course whose course_key equals the key, or None exactly when no course has it. |
| Storage.Store.FindSlotById | storage.py:45-49 | StorageError on a missing file; otherwise the first slot with that slot_id, or None exactly when none has it. |
| Storage.Store.FindCourseByStudentName | mcp_server.py:7 | The imported lookup by student name: StorageError on a missing file, else the first course whose student_name matches, or None when none does. |
| Storage.WithRequest | storage.py:53-55 | `setdefault("requests", []).append(record)`: the log becomes present; it is the old log (empty when absent) with the record added last; everything before it is unchanged; courses and slots are unchanged. |
| Storage.Store.AppendRequest | storage.py:52-56 | A missing file raises StorageError and nothing is written; otherwise the file now holds the old document with the record appended to its request log and nothing else changed. |
| Seqs.FirstMatch | storage.py:39-42 | A `for … if … return` search: the result is an element satisfying the test with none before it satisfying it, or None exactly when no element does. |
| Seqs.Filter | mcp_server.py:90-93 | A list comprehension: the result is no longer than the input, holds only input elements that pass, and holds every input element that passes. |
| Seqs.FilterHead | mcp_server.py:94 | `xs[0] if xs else None` over a comprehension: the filtered list is non-empty iff some element passes, and its head is the first passing element. |
| Seqs.SortByKey | mcp_server.py:125-130 | `sorted(key=…)`: a permutation of the input, of the same length, with keys non-decreasing. |
| Seqs.SortStable | mcp_server.py:125-130 | Python's sort is stable: for every key value, the elements with that key appear in the output in their input order. |
| Calendar.DateOrdinalInjective | mcp_server.py:17-19 | Two well-formed dates with the same day number are the same date, so the day arithmetic done on parsed times tells different days apart. |
| Calendar.DayDistanceOtherDay | mcp_server.py:123-129 | A well-formed time that does not start with a well-formed date lies at least one whole day from it. |
| McpServer.MatchScore | mcp_server.py:35-61 | `_calculate_match_score`: -1000 exactly when the same teacher is required and differs; otherwise 100 for same teacher and content, 50 for same content when it is preferred, 25 for same teacher only, 0 otherwise; paired with the slot's parsed time. |
| McpServer.MatchScoreMonotone | mcp_server.py:50-57 | A slot that matches the original teacher and content wherever another slot does scores at least as high. |
| McpServer.FindSlotByTime | mcp_server.py:27-32 | StorageError on a missing file; otherwise the first slot whose time equals the string exactly, or None when none does. |
| McpServer.FindCourseByContent | mcp_server.py:74-78 | The loop with `break` finds the first course whose content is the course name, or None exactly when there is none. |
| McpServer.Query | mcp_server.py:74-151 | The answer echoes the target date. It is available iff the reason is AVAILABLE. The reason is COURSE_NOT_FOUND iff no course has that content. Alternatives are empty when the course is unknown or the date available, so any alternatives come with FULL or NOT_FOUND. There are at most 3, each of the course's content, with capacity left > 0, on another date than the target, and marked same_content. |
| McpServer.RequestedDecidedByFirstSlot | mcp_server.py:90-110 | For a known course: NOT_FOUND iff no slot of the content is on the target date; AVAILABLE iff the first such slot has capacity − booked > 0; FULL iff it has not. |
| McpServer.LaterSlotsNotConsulted | mcp_server.py:90-110 | Slots after the first one of the content on the target date can be changed or added without changing the requested-date verdict. |
| McpServer.ChosenAreAlternatives | mcp_server.py:119-133 | At most 3 slots are kept, and every kept slot is one of the filtered alternatives. |
| McpServer.ChosenSlotsNearestFirst | mcp_server.py:119-133 | As many alternatives are kept as exist, up to 3. They are drawn from the filtered slots without repetition, in non-decreasing day distance from the target date, and no left-out alternative is nearer than any kept one. |
| McpServer.ChosenSlotsStable | mcp_server.py:125-133 | Among kept slots at equal day distance, store order is kept, and they are the earliest such alternatives in the store. |
| McpServer.AlternativesDescribeChosenSlots | mcp_server.py:132-145 | One entry per kept slot, in order. Each reports the slot's id, time, teacher, content, capacity − booked (missing counts 0) and location (missing is ""), and same_teacher iff the slot's teacher equals the course's. |
| McpServer.AlternativesOnOtherDays | mcp_server.py:119-129 | Whenever the sort's parses succeed, every alternative has a well-formed time at least one day away from the target date. |
| McpServer.BuildAlternatives | mcp_server.py:132-145 | The result loop builds exactly the annotated list of the kept slots. |
| McpServer.QueryAvailableSlots | mcp_server.py:65-151 | The step-by-step query on the store gives StorageError when the file is missing, and otherwise exactly `Query` of the loaded document. |
| McpServer.DirectSuccessSpellings | mcp_server.py:204 | The toggle is on iff the variable is set to a four-letter value that spells "true" in any mix of letter case; unset means off. |
| McpServer.Submit | mcp_server.py:176-233 | A record is produced iff the result is not FAILED. FAILED comes with STUDENT_NOT_FOUND or SLOT_NOT_FOUND_OR_FULL and no audit or schedule, and STUDENT_NOT_FOUND iff no course has the student's name. Success is SUCCESS when the toggle is on and PENDING_AUDIT otherwise, always with an updated schedule. PENDING_AUDIT has audit eta 180 and the submitted message; SUCCESS has no audit and the changed message. The record carries the student, the result status and the timestamp. |
| McpServer.SubmitUsesFirstCandidate | mcp_server.py:186-232 | For a known student: SLOT_NOT_FOUND_OR_FULL iff no slot has the course's content, the target date and free capacity. Otherwise the first such slot is taken; its id goes in the record and its time, teacher and location in the answer. |
| McpServer.ApplyRecord | mcp_server.py:213-219 | Courses and slots are unchanged; the request log grows by exactly the record when there is one, and the document is unchanged when there is none. |
| McpServer.SubmitScheduleChange | mcp_server.py:169-233 | On a missing file: StorageError and the file is untouched. Otherwise the answer is `Submit` on the loaded document with the toggle read from the environment value, and the file now holds the document with that submission's record, if any, appended. |
| McpServer.AvailableImpliesSubmitSucceeds | mcp_server.py:186-192 | If the query finds the date AVAILABLE for the content of the student's course, the submission succeeds on that same first slot of the date. |
| McpServer.FullFirstSlotQuery | mcp_server.py:90-124 | On a store whose first slot of the date is full and whose later slot that day is free, the query answers FULL with no alternatives. |
| McpServer.FullFirstSlotSubmit | mcp_server.py:186-192 | On that same store the submission for the date books the later free slot (PENDING_AUDIT). |

## Left out

- JSON reading and writing (`json.load`, `_save_db`, directory creation, UTF-8): the file is modelled as the document it holds. Unreadable or malformed files, and write failures, are not modelled; a missing file is the only storage error.
- JSON values other than a missing key: a field present as `null`, or of an unexpected type, is not modelled. Python would raise on some of these (e.g. `None.startswith`).
- Concurrency: two submissions that load and save the file at once can lose a record. The model runs one call at a time.
- The clock: `datetime.now().isoformat()` is the `timestamp` parameter. The environment variable is the `env` parameter.
- DirectSuccessEnabled: lowers ASCII letters only, where Python's `.lower()` is Unicode-wide. No non-ASCII character lower-cases to a letter of "true", so the verdict is the same.
- McpServer.QueryAvailableSlots: its precondition demands the zero-padded `YYYY-MM-DD HH:MM` form for every time the sort parses, and for the target date. Python's `strptime` also accepts unpadded fields. A time it cannot parse raises `ValueError` in Python; the model excludes such inputs instead of modelling the exception.
- McpServer.MatchScore: the time half is the number of minutes since the start of the day numbering. It is not a `datetime`, but it orders times the same way; it likewise requires a well-formed time.
- McpServer.MatchScore: nothing in the server calls `_calculate_match_score`. Alternatives are ordered by whole-day distance alone, not by score and then time. The model follows the code.
- `_format_time` is defined but never called, and is not modelled. `original_date` is accepted and ignored, as in the code.
- `find_course_by_student_name` is imported by mcp_server.py but not defined in storage.py. `Storage.Store.FindCourseByStudentName` assumes it is a first-match search on `student_name`, like `find_course_by_key`.
- Keyed submission (course key plus a verification secret, VERIFICATION_MISMATCH, SLOT_FULL): the code has only the name-based submission, so only that is modelled.
- The constant `"status": "ok"` field of both answers is not modelled. The message texts are the constructors RequestSubmitted, ScheduleChanged and SubmissionFailed.
- Python truthiness: `if not course` and `if target_slot` are modelled as None tests. A dictionary matched on a key is never empty, so the two agree.
- No check that `0 <= booked <= capacity`: the code does not enforce it, and the model allows any integers.
- The FastMCP tool wrappers, app.py, api_formatter.py, run_mcp_server.py, diagnose_mcp.py and test_mcp.py: protocol and HTTP glue that delegates to the modelled functions.

/** The record store of storage.py: one JSON document with three collections (courses, slots,
    requests), loaded whole on every call and written back whole on an append. A key read with
    `d.get(key)` is an Option, so a missing key and a present one stay apart. */
module Storage {
  import opened Wrappers
  import opened Seqs

  /** A course record as the server reads it. */
  datatype Course = Course(
    courseKey: Option<string>,
    studentName: Option<string>,
    teacher: Option<string>,
    content: Option<string>)

  /** A bookable slot. */
  datatype Slot = Slot(
    slotId: Option<string>,
    time: Option<string>,
    teacher: Option<string>,
    content: Option<string>,
    location: Option<string>,
    capacity: Option<int>,
    booked: Option<int>)
  {
    /** `capacity - booked`, each 0 when missing. */
    function CapacityLeft(): int {
      capacity.GetOr(0) - booked.GetOr(0)
    }
  }

  /** The outcome codes of a submission; a stored request carries SUCCESS or PENDING_AUDIT. */
  datatype Status = Failed | Success | PendingAudit

  /** One entry of the request log. */
  datatype Request = Request(studentName: string, slotId: Option<string>, status: Status, timestamp: string)

  /** The loaded document; a collection key may be missing. */
  datatype Db = Db(courses: Option<seq<Course>>, slots: Option<seq<Slot>>, requests: Option<seq<Request>>)
  {
    function Courses(): seq<Course> {
      courses.GetOr([])
    }

    function Slots(): seq<Slot> {
      slots.GetOr([])
    }

    function Requests(): seq<Request> {
      requests.GetOr([])
    }
  }

  /** `StorageError`: the db file does not exist. */
  datatype StorageError = DbNotFound

  /** The document after `db.setdefault("requests", []).append(record)`. */
  function WithRequest(db: Db, record: Request): (r: Db)
    ensures r.requests.Some?
    ensures r.Requests() == db.Requests() + [record]
    ensures |r.Requests()| == |db.Requests()| + 1 && r.Requests()[|db.Requests()|] == record
    ensures r.Requests()[..|db.Requests()|] == db.Requests()
    ensures r.courses == db.courses && r.slots == db.slots
  {
    match db.requests
    case None => db.(requests := Some([record]))
    case Some(rs) => db.(requests := Some(rs + [record]))
  }

  function CourseKeyIs(courseKey: string): Course -> bool {
    (c: Course) => c.courseKey == Some(courseKey)
  }

  function StudentNameIs(studentName: string): Course -> bool {
    (c: Course) => c.studentName == Some(studentName)
  }

  function SlotIdIs(slotId: string): Slot -> bool {
    (s: Slot) => s.slotId == Some(slotId)
  }

  /** The db file. Every operation loads it afresh; only AppendRequest writes it. */
  class Store {
    /** The document in the file, or None when the file does not exist. */
    var file: Option<Db>

    constructor (file: Option<Db>)
      ensures this.file == file
    {
      this.file := file;
    }

    /** `_load_db()`: the document, or StorageError when the file is missing. */
    function Load(): (r: Result<Db, StorageError>)
      reads this
      ensures r.Err? <==> file.None?
      ensures r.Ok? ==> r.value == file.value
    {
      match file
      case None => Err(DbNotFound)
      case Some(db) => Ok(db)
    }

    /** `get_courses()`: an empty list when the document has no courses. */
    function GetCourses(): (r: Result<seq<Course>, StorageError>)
      reads this
      ensures r.Err? <==> file.None?
      ensures file.Some? && file.value.courses.None? ==> r == Ok([])
      ensures file.Some? && file.value.courses.Some? ==> r == Ok(file.value.courses.value)
    {
      match Load()
      case Err(e) => Err(e)
      case Ok(db) => Ok(db.Courses())
    }

    /** `get_slots()`: an empty list when the document has no slots. */
    function GetSlots(): (r: Result<seq<Slot>, StorageError>)
      reads this
      ensures r.Err? <==> file.None?
      ensures file.Some? && file.value.slots.None? ==> r == Ok([])
      ensures file.Some? && file.value.slots.Some? ==> r == Ok(file.value.slots.value)
    {
      match Load()
      case Err(e) => Err(e)
      case Ok(db) => Ok(db.Slots())
    }

    /** `get_requests()`: an empty list when the document has no request log. */
    function GetRequests(): (r: Result<seq<Request>, StorageError>)
      reads this
      ensures r.Err? <==> file.None?
      ensures file.Some? && file.value.requests.None? ==> r == Ok([])
      ensures file.Some? && file.value.requests.Some? ==> r == Ok(file.value.requests.value)
    {
      match Load()
      case Err(e) => Err(e)
      case Ok(db) => Ok(db.Requests())
    }

    /** `find_course_by_key`: the first course whose course_key is `courseKey`. */
    method FindCourseByKey(courseKey: string) returns (r: Result<Option<Course>, StorageError>)
      ensures file.None? ==> r == Err(DbNotFound)
      ensures file.Some? ==> r.Ok? && IsFirstMatch(file.value.Courses(), CourseKeyIs(courseKey), r.value)
    {
      var loaded := GetCourses();
      if loaded.Err? {
        return Err(loaded.error);
      }
      var courses := loaded.value;
      var i := 0;
      while i < |courses|
        invariant 0 <= i <= |courses|
        invariant forall j | 0 <= j < i :: courses[j].courseKey != Some(courseKey)
      {
        if courses[i].courseKey == Some(courseKey) {
          return Ok(Some(courses[i]));
        }
        i := i + 1;
      }
      return Ok(None);
    }

    /** The lookup by student name that the server imports; storage.py does not define it, so
        this is an assumed first-match search on the course's student_name. */
    method FindCourseByStudentName(studentName: string) returns (r: Result<Option<Course>, StorageError>)
      ensures file.None? ==> r == Err(DbNotFound)
      ensures file.Some? ==> r.Ok? && IsFirstMatch(file.value.Courses(), StudentNameIs(studentName), r.value)
    {
      var loaded := GetCourses();
      if loaded.Err? {
        return Err(loaded.error);
      }
      var courses := loaded.value;
      var i := 0;
      while i < |courses|
        invariant 0 <= i <= |courses|
        invariant forall j | 0 <= j < i :: courses[j].studentName != Some(studentName)
      {
        if courses[i].studentName == Some(studentName) {
          return Ok(Some(courses[i]));
        }
        i := i + 1;
      }
      return Ok(None);
    }

    /** `find_slot_by_id`: the first slot whose slot_id is `slotId`. */
    method FindSlotById(slotId: string) returns (r: Result<Option<Slot>, StorageError>)
      ensures file.None? ==> r == Err(DbNotFound)
      ensures file.Some? ==> r.Ok? && IsFirstMatch(file.value.Slots(), SlotIdIs(slotId), r.value)
    {
      var loaded := GetSlots();
      if loaded.Err? {
        return Err(loaded.error);
      }
      var slots := loaded.value;
      var i := 0;
      while i < |slots|
        invariant 0 <= i <= |slots|
        invariant forall j | 0 <= j < i :: slots[j].slotId != Some(slotId)
      {
        if slots[i].slotId == Some(slotId) {
          return Ok(Some(slots[i]));
        }
        i := i + 1;
      }
      return Ok(None);
    }

    /** `append_request`: load, add `record` to the request log (creating it when missing) and
        write the document back. A missing file raises before anything is written. */
    method AppendRequest(record: Request) returns (r: Result<(), StorageError>)
      modifies this
      ensures old(file).None? ==> r == Err(DbNotFound) && file == old(file)
      ensures old(file).Some? ==> r == Ok(()) && file == Some(WithRequest(old(file).value, record))
    {
      var loaded := Load();
      if loaded.Err? {
        return Err(loaded.error);
      }
      var db := loaded.value;
      var requests := db.requests.GetOr([]);
      db := db.(requests := Some(requests + [record]));
      file := Some(db);
      return Ok(());
    }
  }
}

/** The attendance tracker: the mark buttons record the checked attendees as present or absent in
    a pending batch, and saving turns the batch into records placed above the earlier history. */
module Attendance {

  datatype Attendee = Attendee(id: int, name: string)

  /** One saved line of the history: who, "Present" or "Absent", and on which date. */
  datatype Record = Record(name: string, status: string, date: string)

  const Attendees: seq<Attendee> := [
    Attendee(1, "Arun"),
    Attendee(2, "Beran"),
    Attendee(3, "Zeus"),
    Attendee(4, "Hope"),
    Attendee(5, "Eren")
  ]

  /** The ids of a list of attendees. */
  function IdsOf(list: seq<Attendee>): set<int>
    decreases |list|
  {
    if list == [] then {} else IdsOf(list[..|list| - 1]) + {list[|list| - 1].id}
  }

  ghost predicate DistinctIds(list: seq<Attendee>) {
    forall i, j :: 0 <= i < j < |list| ==> list[i].id != list[j].id
  }

  lemma {:induction false} IdsOfMember(list: seq<Attendee>, id: int)
    ensures id in IdsOf(list) <==> exists a :: a in list && a.id == id
    decreases |list|
  {
    if list != [] {
      var init := list[..|list| - 1];
      IdsOfMember(init, id);
      assert list == init + [list[|list| - 1]];
      if id in IdsOf(init) {
        var a :| a in init && a.id == id;
        assert a in list;
      }
    }
  }

  lemma AttendeeIdsAreOneToFive()
    ensures IdsOf(Attendees) == {1, 2, 3, 4, 5}
    ensures DistinctIds(Attendees)
  {
    assert Attendees[..1][..0] == [];
    assert IdsOf(Attendees[..1]) == {1};
    assert Attendees[..2][..1] == Attendees[..1];
    assert IdsOf(Attendees[..2]) == {1, 2};
    assert Attendees[..3][..2] == Attendees[..2];
    assert IdsOf(Attendees[..3]) == {1, 2, 3};
    assert Attendees[..4][..3] == Attendees[..3];
    assert IdsOf(Attendees[..4]) == {1, 2, 3, 4};
    assert Attendees[..4] == Attendees[..|Attendees| - 1];
  }

  function Status(present: bool): (s: string)
    ensures s == "Present" || s == "Absent"
  {
    if present then "Present" else "Absent"
  }

  /** The batch after checking the ticked attendees of `list` in order, each set to `present`. */
  function MarkList(data: map<int, bool>, list: seq<Attendee>, checked: set<int>, present: bool): map<int, bool>
    decreases |list|
  {
    if list == [] then data
    else
      var before := MarkList(data, list[..|list| - 1], checked, present);
      var a := list[|list| - 1];
      if a.id in checked then before[a.id := present] else before
  }

  /** A mark button sets exactly the ticked attendees to `present` and leaves every other entry as
      it was. */
  lemma {:induction false} MarkListEffect(data: map<int, bool>, list: seq<Attendee>, checked: set<int>, present: bool, id: int)
    ensures id in MarkList(data, list, checked, present) <==> id in data || (id in checked && id in IdsOf(list))
    ensures id in MarkList(data, list, checked, present) ==>
      MarkList(data, list, checked, present)[id] == if id in checked && id in IdsOf(list) then present else data[id]
    decreases |list|
  {
    if list != [] {
      MarkListEffect(data, list[..|list| - 1], checked, present, id);
    }
  }

  /** The records a save creates from the batch `data`, one per attendee of `list` in the batch, in
      list order. */
  function RecordsOf(list: seq<Attendee>, data: map<int, bool>, date: string): seq<Record>
    decreases |list|
  {
    if list == [] then []
    else
      var a := list[|list| - 1];
      RecordsOf(list[..|list| - 1], data, date)
        + (if a.id in data then [Record(a.name, Status(data[a.id]), date)] else [])
  }

  /** With distinct ids, the last attendee's id is new to the ones before it. */
  lemma DistinctLastFresh(list: seq<Attendee>)
    requires list != [] && DistinctIds(list)
    ensures DistinctIds(list[..|list| - 1])
    ensures list[|list| - 1].id !in IdsOf(list[..|list| - 1])
  {
    var init := list[..|list| - 1];
    var a := list[|list| - 1];
    IdsOfMember(init, a.id);
    forall b | b in init
      ensures b.id != a.id
    {
      var j :| 0 <= j < |init| && init[j] == b;
      assert list[j] == b;
    }
  }

  /** One record per batch entry: with distinct ids the records number the entries the batch holds
      for the listed attendees. */
  lemma {:induction false} RecordsOfCount(list: seq<Attendee>, data: map<int, bool>, date: string)
    requires DistinctIds(list)
    ensures |RecordsOf(list, data, date)| == |data.Keys * IdsOf(list)|
    decreases |list|
  {
    if list != [] {
      var init := list[..|list| - 1];
      var a := list[|list| - 1];
      DistinctLastFresh(list);
      RecordsOfCount(init, data, date);
      var before := data.Keys * IdsOf(init);
      assert IdsOf(list) == IdsOf(init) + {a.id};
      if a.id in data {
        assert data.Keys * IdsOf(list) == before + {a.id};
        assert |before + {a.id}| == |before| + 1;
      } else {
        assert data.Keys * IdsOf(list) == before;
      }
    }
  }

  /** Every record names a listed attendee whose batch entry it reports: "Present" exactly when the
      entry is true, dated `date`. */
  lemma {:induction false} RecordsOfSound(list: seq<Attendee>, data: map<int, bool>, date: string, r: Record)
    requires r in RecordsOf(list, data, date)
    ensures exists a :: (a in list && a.id in data && r == Record(a.name, Status(data[a.id]), date)
                         && (r.status == "Present" <==> data[a.id]))
    decreases |list|
  {
    var init := list[..|list| - 1];
    var a := list[|list| - 1];
    assert list == init + [a];
    if r in RecordsOf(init, data, date) {
      RecordsOfSound(init, data, date, r);
      var b :| b in init && b.id in data && r == Record(b.name, Status(data[b.id]), date);
      assert b in list;
    } else {
      assert r == Record(a.name, Status(data[a.id]), date);
    }
  }

  /** And every batch entry of a listed attendee gets its record. */
  lemma {:induction false} RecordsOfComplete(list: seq<Attendee>, data: map<int, bool>, date: string, a: Attendee)
    requires a in list && a.id in data
    ensures Record(a.name, Status(data[a.id]), date) in RecordsOf(list, data, date)
    decreases |list|
  {
    var init := list[..|list| - 1];
    assert list == init + [list[|list| - 1]];
    if a != list[|list| - 1] {
      RecordsOfComplete(init, data, date, a);
    }
  }

  /** An empty batch yields no records. */
  lemma {:induction false} RecordsOfNothing(list: seq<Attendee>, date: string)
    ensures RecordsOf(list, map[], date) == []
    decreases |list|
  {
    if list != [] {
      RecordsOfNothing(list[..|list| - 1], date);
    }
  }

  class AttendanceTracker {
    var attendanceData: map<int, bool>
    var selectedDate: string
    var savedAttendance: seq<Record>

    /** The batch only ever holds attendee ids, so every key has a name to look up. */
    ghost predicate Valid()
      reads this
    {
      attendanceData.Keys <= IdsOf(Attendees)
    }

    /** The page opens with an empty batch and history, dated today. */
    constructor (today: string)
      ensures Valid()
      ensures attendanceData == map[] && savedAttendance == [] && selectedDate == today
    {
      attendanceData := map[];
      selectedDate := today;
      savedAttendance := [];
    }

    /** The lines of the summary: the saved history, then any entries still pending. */
    function Summary(): seq<Record>
      reads this
    {
      savedAttendance + RecordsOf(Attendees, attendanceData, selectedDate)
    }

    /** The date picker's change handler. */
    method SetDate(value: string)
      modifies this`selectedDate
      ensures selectedDate == value
    {
      selectedDate := value;
    }

    /** The attendee loop of a mark button: every ticked attendee's entry becomes `present`. */
    method Mark(checked: set<int>, present: bool)
      requires Valid()
      modifies this`attendanceData
      ensures Valid()
      ensures attendanceData == MarkList(old(attendanceData), Attendees, checked, present)
    {
      ghost var start := attendanceData;
      for i := 0 to |Attendees|
        invariant attendanceData == MarkList(start, Attendees[..i], checked, present)
        invariant attendanceData.Keys <= IdsOf(Attendees)
      {
        assert Attendees[..i + 1][..i] == Attendees[..i];
        var attendee := Attendees[i];
        if attendee.id in checked {
          IdsOfMember(Attendees, attendee.id);
          attendanceData := attendanceData[attendee.id := present];
        }
      }
      assert Attendees[..|Attendees|] == Attendees;
    }

    /** Turns the batch into records above the earlier history and empties the batch. */
    method SaveAttendance()
      requires Valid()
      modifies this`attendanceData, this`savedAttendance
      ensures Valid()
      ensures savedAttendance == RecordsOf(Attendees, old(attendanceData), selectedDate) + old(savedAttendance)
      ensures |savedAttendance| == |old(attendanceData)| + |old(savedAttendance)|
      ensures attendanceData == map[]
    {
      var newAttendance: seq<Record> := [];
      for i := 0 to |Attendees|
        invariant newAttendance == RecordsOf(Attendees[..i], attendanceData, selectedDate)
      {
        assert Attendees[..i + 1][..i] == Attendees[..i];
        var attendee := Attendees[i];
        if attendee.id in attendanceData {
          newAttendance := newAttendance + [Record(attendee.name, Status(attendanceData[attendee.id]), selectedDate)];
        }
      }
      assert Attendees[..|Attendees|] == Attendees;
      AttendeeIdsAreOneToFive();
      RecordsOfCount(Attendees, attendanceData, selectedDate);
      assert attendanceData.Keys * IdsOf(Attendees) == attendanceData.Keys;
      savedAttendance := newAttendance + savedAttendance;
      attendanceData := map[];
    }

    /** The mark-present button: record the ticked attendees as present and save. */
    method OnMarkPresent(checked: set<int>)
      requires Valid()
      modifies this`attendanceData, this`savedAttendance
      ensures Valid() && attendanceData == map[]
      ensures savedAttendance ==
        RecordsOf(Attendees, MarkList(old(attendanceData), Attendees, checked, true), selectedDate) + old(savedAttendance)
      ensures Summary() == savedAttendance
    {
      Mark(checked, true);
      SaveAttendance();
      RecordsOfNothing(Attendees, selectedDate);
    }

    /** The mark-absent button: the same with absent. */
    method OnMarkAbsent(checked: set<int>)
      requires Valid()
      modifies this`attendanceData, this`savedAttendance
      ensures Valid() && attendanceData == map[]
      ensures savedAttendance ==
        RecordsOf(Attendees, MarkList(old(attendanceData), Attendees, checked, false), selectedDate) + old(savedAttendance)
      ensures Summary() == savedAttendance
    {
      Mark(checked, false);
      SaveAttendance();
      RecordsOfNothing(Attendees, selectedDate);
    }
  }

  /** Every saved record names someone on the attendee list. */
  lemma RecordNamesAttendee(data: map<int, bool>, date: string, r: Record)
    requires r in RecordsOf(Attendees, data, date)
    ensures r.name in {"Arun", "Beran", "Zeus", "Hope", "Eren"}
    ensures r.date == date
  {
    RecordsOfSound(Attendees, data, date, r);
  }
}

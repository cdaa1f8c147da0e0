/** The attendance sheet of `components/attendance-tracker.tsx`: a chosen day, a
    present/absent flag per referee id, and the save that emits one record per
    flag. Types are the component's own; a `yyyy-MM-dd` string is the day number
    it names, and the record ids that `uuidv4()` draws are passed in. */
module AttendanceTracker {
  import opened Lists

  datatype Referee = Referee(id: string, name: string, category: string)

  datatype AttendanceRecord = AttendanceRecord(id: string, refereeId: string, date: int, present: bool)

  /** The record is the one the sheet looks for: that referee, that day. */
  predicate IsRecordFor(refereeId: string, day: int, rec: AttendanceRecord)
  {
    rec.refereeId == refereeId && rec.date == day
  }

  /** Position `i` holds the first record for the referee on the day. */
  predicate FirstRecordAt(attendance: seq<AttendanceRecord>, refereeId: string, day: int, i: int)
  {
    0 <= i < |attendance| && IsRecordFor(refereeId, day, attendance[i])
    && forall j :: 0 <= j < i ==> !IsRecordFor(refereeId, day, attendance[j])
  }

  /** `attendance.find(...)?.present ?? false`: the flag of the first record for
      the referee on the day, or absent when the log has none. */
  function StoredStatus(attendance: seq<AttendanceRecord>, refereeId: string, day: int): (present: bool)
    ensures present <==> exists i {:trigger FirstRecordAt(attendance, refereeId, day, i)} ::
                           FirstRecordAt(attendance, refereeId, day, i) && attendance[i].present
  {
    if attendance == [] then false
    else if IsRecordFor(refereeId, day, attendance[0]) then
      assert FirstRecordAt(attendance, refereeId, day, 0);
      attendance[0].present
    else
      var p := StoredStatus(attendance[1..], refereeId, day);
      assert p <==> exists i {:trigger FirstRecordAt(attendance, refereeId, day, i)} ::
                      FirstRecordAt(attendance, refereeId, day, i) && attendance[i].present by {
        if p {
          var i :| FirstRecordAt(attendance[1..], refereeId, day, i) && attendance[1..][i].present;
          assert forall j :: 1 <= j < i + 1 ==> attendance[j] == attendance[1..][j - 1];
          assert FirstRecordAt(attendance, refereeId, day, i + 1);
        }
        if exists i {:trigger FirstRecordAt(attendance, refereeId, day, i)} ::
             FirstRecordAt(attendance, refereeId, day, i) && attendance[i].present {
          var i :| FirstRecordAt(attendance, refereeId, day, i) && attendance[i].present;
          assert i != 0;
          assert FirstRecordAt(attendance[1..], refereeId, day, i - 1);
        }
      }
      p
  }

  /** The referee ids of a list of records, in order. */
  function RefereeIds(recs: seq<AttendanceRecord>): (ids: seq<string>)
    ensures |ids| == |recs| && forall i :: 0 <= i < |recs| ==> ids[i] == recs[i].refereeId
  {
    if recs == [] then [] else RefereeIds(recs[..|recs| - 1]) + [recs[|recs| - 1].refereeId]
  }

  /** What a checkbox shows: `status[id] || false`. */
  function Displayed(status: map<string, bool>, refereeId: string): bool
  {
    refereeId in status && status[refereeId]
  }

  /** The map after `toggleAttendance`: the key gets the negation of what it
      held, a missing key becoming `true` (`!undefined`); no other key moves. */
  function Toggled(status: map<string, bool>, refereeId: string): (r: map<string, bool>)
    ensures r.Keys == status.Keys + {refereeId}
    ensures Displayed(r, refereeId) != Displayed(status, refereeId)
    ensures forall k :: k in status && k != refereeId ==> r[k] == status[k]
  {
    status[refereeId := !Displayed(status, refereeId)]
  }

  /** Ticking a box twice shows what it showed before, and other boxes keep theirs. */
  lemma ToggleTwiceRestoresDisplay(status: map<string, bool>, refereeId: string)
    ensures Displayed(Toggled(Toggled(status, refereeId), refereeId), refereeId) == Displayed(status, refereeId)
    ensures forall k :: k != refereeId ==> Displayed(Toggled(Toggled(status, refereeId), refereeId), k) == Displayed(status, k)
  {
  }

  class Tracker {
    /** The component's props. */
    const referees: seq<Referee>
    const attendance: seq<AttendanceRecord>
    /** Its state: the chosen day and the per-referee flags. */
    var date: int
    var status: map<string, bool>

    /** Mounting the sheet: today is chosen and no flag is set yet. */
    constructor (referees: seq<Referee>, attendance: seq<AttendanceRecord>, today: int)
      ensures this.referees == referees && this.attendance == attendance
      ensures date == today && status == map[]
    {
      this.referees := referees;
      this.attendance := attendance;
      date := today;
      status := map[];
    }

    /** `handleDateChange`: a cleared picker changes nothing; a day rebuilds the
        map with one key per referee id, holding what the log says for that day. */
    method HandleDateChange(newDate: Option<int>)
      modifies this`date, this`status
      ensures newDate.None? ==> date == old(date) && status == old(status)
      ensures newDate.Some? ==> date == newDate.value
      ensures newDate.Some? ==> status.Keys == set r | r in referees :: r.id
      ensures newDate.Some? ==> forall id :: id in status ==> status[id] == StoredStatus(attendance, id, newDate.value)
    {
      if newDate.None? {
        return;
      }
      var day := newDate.value;
      date := day;
      var sheet: map<string, bool> := map[];
      for i := 0 to |referees|
        invariant forall id :: id in sheet <==> exists j :: 0 <= j < i && referees[j].id == id
        invariant forall id :: id in sheet ==> sheet[id] == StoredStatus(attendance, id, day)
      {
        var id := referees[i].id;
        sheet := sheet[id := StoredStatus(attendance, id, day)];
      }
      assert sheet.Keys == set r | r in referees :: r.id by {
        forall id | id in sheet
          ensures id in set r | r in referees :: r.id
        {
          var j :| 0 <= j < |referees| && referees[j].id == id;
          assert referees[j] in referees;
        }
        forall r | r in referees
          ensures r.id in sheet
        {
          var j :| 0 <= j < |referees| && referees[j] == r;
        }
      }
      status := sheet;
    }

    /** `toggleAttendance`: flips the one key. */
    method ToggleAttendance(refereeId: string)
      modifies this`status
      ensures status == Toggled(old(status), refereeId)
    {
      status := status[refereeId := !(refereeId in status && status[refereeId])];
    }

    /** `saveAttendance`: one record per entry of the map, carrying the chosen
        day and that entry's flag, under the next fresh id. The entries are
        visited in an order the model leaves open. */
    method SaveAttendance(freshIds: seq<string>) returns (emitted: seq<AttendanceRecord>)
      requires |freshIds| == |status|
      ensures |emitted| == |status|
      ensures forall i :: 0 <= i < |emitted| ==>
        emitted[i].id == freshIds[i] && emitted[i].date == date
        && emitted[i].refereeId in status && emitted[i].present == status[emitted[i].refereeId]
      ensures forall i, j :: 0 <= i < j < |emitted| ==> emitted[i].refereeId != emitted[j].refereeId
      ensures forall id :: id in status <==> id in RefereeIds(emitted)
    {
      emitted := [];
      var left := status.Keys;
      while left != {}
        invariant left <= status.Keys
        invariant |emitted| + |left| == |status|
        invariant forall i :: 0 <= i < |emitted| ==>
          emitted[i].id == freshIds[i] && emitted[i].date == date
          && emitted[i].refereeId in status.Keys - left && emitted[i].present == status[emitted[i].refereeId]
        invariant forall i, j :: 0 <= i < j < |emitted| ==> emitted[i].refereeId != emitted[j].refereeId
        invariant forall id :: id in status.Keys - left <==> id in RefereeIds(emitted)
        decreases |left|
      {
        var id :| id in left;
        var rec := AttendanceRecord(freshIds[|emitted|], id, date, status[id]);
        assert RefereeIds(emitted + [rec]) == RefereeIds(emitted) + [id];
        emitted := emitted + [rec];
        left := left - {id};
      }
    }
  }
}

/** The application store of `app/page.tsx`: four collections and the handlers
    that replace them. The types are the ones `app/page.tsx` declares (an
    assignment there has one `refereeId`; an attendance record has `isPresent`).
    A `yyyy-MM-dd` date string is represented by the day number it names. */
module Store {
  import opened Lists

  datatype Referee = Referee(id: string, name: string, email: string, phone: string)

  datatype AttendanceRecord = AttendanceRecord(refereeId: string, date: int, isPresent: bool)

  datatype Championship = Championship(id: string, name: string, startDate: int, endDate: int)

  datatype Assignment = Assignment(
    id: string,
    refereeId: string,
    championshipId: string,
    matchDate: int,
    role: string)

  // The predicates the handlers' `filter` and `map` arrows test, named so that
  // `Filter` and `Replace` can take them.

  predicate RefereeIs(id: string, r: Referee) { r.id == id }
  predicate RefereeIsNot(id: string, r: Referee) { r.id != id }
  predicate ChampionshipIs(id: string, c: Championship) { c.id == id }
  predicate ChampionshipIsNot(id: string, c: Championship) { c.id != id }
  predicate AssignmentIs(id: string, a: Assignment) { a.id == id }
  predicate AssignmentIsNot(id: string, a: Assignment) { a.id != id }
  predicate RecordOfOtherReferee(id: string, a: AttendanceRecord) { a.refereeId != id }
  predicate AssignmentOfOtherReferee(id: string, a: Assignment) { a.refereeId != id }
  predicate AssignmentOfOtherChampionship(id: string, a: Assignment) { a.championshipId != id }

  /** Two attendance records are about the same referee on the same day. */
  predicate SameKey(a: AttendanceRecord, b: AttendanceRecord)
  {
    a.refereeId == b.refereeId && a.date == b.date
  }

  /** The attendance log holds at most one record per (referee, day). */
  predicate KeysUnique(s: seq<AttendanceRecord>)
  {
    forall i, j :: 0 <= i < j < |s| ==> !SameKey(s[i], s[j])
  }

  /** `attendance.findIndex(...)`: the first position holding a record with the
      key of `rec`, or -1 when there is none. */
  function FindIndex(s: seq<AttendanceRecord>, rec: AttendanceRecord): (i: int)
    ensures -1 <= i < |s|
    ensures i == -1 <==> forall j :: 0 <= j < |s| ==> !SameKey(s[j], rec)
    ensures 0 <= i ==> SameKey(s[i], rec) && forall j :: 0 <= j < i ==> !SameKey(s[j], rec)
  {
    if s == [] then -1
    else if SameKey(s[0], rec) then 0
    else
      var k := FindIndex(s[1..], rec);
      if k < 0 then -1 else k + 1
  }

  /** `handleAddAttendance`'s new list: the first record with the key of `rec`
      is replaced in place, or `rec` is appended when there is none. */
  function Upsert(s: seq<AttendanceRecord>, rec: AttendanceRecord): (r: seq<AttendanceRecord>)
    ensures rec in r
    ensures |r| == if exists j :: 0 <= j < |s| && SameKey(s[j], rec) then |s| else |s| + 1
    ensures forall j :: 0 <= j < |s| && !SameKey(s[j], rec) ==> j < |r| && r[j] == s[j]
    ensures forall a :: a in r ==> a == rec || a in s
    ensures forall j :: 0 <= j < |s| ==> r[j] == (if j == FindIndex(s, rec) then rec else s[j])
    ensures FindIndex(s, rec) == -1 ==> r[|s|] == rec
  {
    var i := FindIndex(s, rec);
    if 0 <= i then
      var r := s[i := rec];
      assert r[i] == rec;
      r
    else s + [rec]
  }

  /** The upsert keeps the log free of two records for one (referee, day). */
  lemma UpsertKeepsKeysUnique(s: seq<AttendanceRecord>, rec: AttendanceRecord)
    requires KeysUnique(s)
    ensures KeysUnique(Upsert(s, rec))
  {
    var i := FindIndex(s, rec);
    var r := Upsert(s, rec);
    if 0 <= i {
      forall j, k | 0 <= j < k < |r|
        ensures !SameKey(r[j], r[k])
      {
        if j == i {
          assert SameKey(s[i], rec);
        } else if k == i {
          assert SameKey(s[i], rec);
        }
      }
    }
  }

  /** With a unique log, the upsert leaves exactly one record with the key of
      `rec`, and it is `rec`: asking for that referee on that day after the save
      gives back what was saved. */
  lemma UpsertStoresRecord(s: seq<AttendanceRecord>, rec: AttendanceRecord)
    requires KeysUnique(s)
    ensures var r := Upsert(s, rec);
      0 <= FindIndex(r, rec) && r[FindIndex(r, rec)] == rec
  {
    var r := Upsert(s, rec);
    UpsertKeepsKeysUnique(s, rec);
    var i := FindIndex(s, rec);
    var p := if 0 <= i then i else |s|;
    assert r[p] == rec;
    assert SameKey(r[p], rec);
  }

  /** The saves of one attendance sheet applied one after the other. */
  function UpsertAll(s: seq<AttendanceRecord>, recs: seq<AttendanceRecord>): (r: seq<AttendanceRecord>)
    ensures |s| <= |r| <= |s| + |recs|
    ensures forall a :: a in r ==> a in s || a in recs
  {
    if recs == [] then s else Upsert(UpsertAll(s, recs[..|recs| - 1]), recs[|recs| - 1])
  }

  /** Saving a sheet whose records have distinct keys (one per referee, all for
      one day) into a unique log stores every record of the sheet and keeps the
      log unique. */
  lemma {:induction false} UpsertAllStoresSheet(s: seq<AttendanceRecord>, recs: seq<AttendanceRecord>)
    requires KeysUnique(s) && KeysUnique(recs)
    ensures KeysUnique(UpsertAll(s, recs))
    ensures forall rec :: rec in recs ==> rec in UpsertAll(s, recs)
  {
    if recs != [] {
      var init := recs[..|recs| - 1];
      var last := recs[|recs| - 1];
      assert KeysUnique(init);
      UpsertAllStoresSheet(s, init);
      var before := UpsertAll(s, init);
      UpsertKeepsKeysUnique(before, last);
      forall rec | rec in recs
        ensures rec in UpsertAll(s, recs)
      {
        if rec != last {
          assert rec in init;
          var j :| 0 <= j < |before| && before[j] == rec;
          var q :| 0 <= q < |init| && init[q] == rec;
          assert !SameKey(recs[q], recs[|recs| - 1]);
          assert Upsert(before, last)[j] == rec;
        }
      }
    }
  }

  /** The sheet's saves as the running application performs them: every call
      of the handler upserts into the same `attendance` value it read before the
      first save, and each replaces the whole log, so the last one is what
      stays. */
  function StaleSave(s: seq<AttendanceRecord>, recs: seq<AttendanceRecord>): (r: seq<AttendanceRecord>)
    ensures |s| <= |r| <= |s| + 1
    ensures recs == [] ==> r == s
    ensures recs != [] ==> recs[|recs| - 1] in r && forall a :: a in r ==> a in s || a == recs[|recs| - 1]
  {
    if recs == [] then s else Upsert(s, recs[|recs| - 1])
  }

  /** With the stale read, a sheet of several referees keeps only its last
      record: every earlier record whose key the log did not hold is lost,
      although the sequential save stores it (`UpsertAllStoresSheet`). */
  lemma StaleSaveLosesEarlierRecords(s: seq<AttendanceRecord>, recs: seq<AttendanceRecord>, k: int)
    requires KeysUnique(recs)
    requires 0 <= k < |recs| - 1
    requires forall a :: a in s ==> !SameKey(a, recs[k])
    ensures recs[k] !in StaleSave(s, recs)
  {
    assert !SameKey(recs[k], recs[|recs| - 1]);
  }

  /** A concrete sheet: two referees marked on the same day in an empty log.
      The stale save keeps only the second record; the sequential save keeps
      both. */
  lemma TwoRefereeSheetLosesOne()
    ensures var first := AttendanceRecord("1", 0, true);
      var second := AttendanceRecord("2", 0, false);
      StaleSave([], [first, second]) == [second]
      && first in UpsertAll([], [first, second])
  {
    var first := AttendanceRecord("1", 0, true);
    var second := AttendanceRecord("2", 0, false);
    assert [first, second][..1] == [first];
    assert [first][..0] == [];
    assert UpsertAll([], [first]) == [first];
    assert UpsertAll([], [first, second]) == [first, second];
  }

  /** A filtered log is still unique. */
  lemma {:induction false} SublistKeepsKeysUnique(r: seq<AttendanceRecord>, s: seq<AttendanceRecord>)
    requires IsSublist(r, s) && KeysUnique(s)
    ensures KeysUnique(r)
    decreases |s|
  {
    if r != [] {
      var s' := s[..|s| - 1];
      assert KeysUnique(s');
      if r[|r| - 1] == s[|s| - 1] && IsSublist(r[..|r| - 1], s') {
        var r' := r[..|r| - 1];
        SublistKeepsKeysUnique(r', s');
        SublistMembers(r', s');
        forall j, k | 0 <= j < k < |r|
          ensures !SameKey(r[j], r[k])
        {
          if k == |r| - 1 {
            assert r[j] in r';
            var q :| 0 <= q < |s'| && s'[q] == r[j];
            assert s[q] == r[j];
          } else {
            assert r[j] == r'[j] && r[k] == r'[k];
          }
        }
      } else {
        SublistKeepsKeysUnique(r, s');
      }
    }
  }

  /** The single in-memory store of the application. */
  class Store {
    var referees: seq<Referee>
    var attendance: seq<AttendanceRecord>
    var championships: seq<Championship>
    var assignments: seq<Assignment>

    /** The state the screen starts in, before anything is loaded. */
    constructor ()
      ensures referees == [] && attendance == [] && championships == [] && assignments == []
      ensures KeysUnique(attendance)
    {
      referees, attendance, championships, assignments := [], [], [], [];
    }

    /** `handleAddReferee`: appended at the end, with no check of the id. */
    method AddReferee(referee: Referee)
      modifies this`referees
      ensures referees == old(referees) + [referee]
    {
      referees := referees + [referee];
    }

    /** `handleUpdateReferee`: every referee with the id becomes `updated`. */
    method UpdateReferee(id: string, updated: Referee)
      modifies this`referees
      ensures referees == Replace(RefereeIs, id, old(referees), updated)
    {
      referees := Replace(RefereeIs, id, referees, updated);
    }

    /** `handleDeleteReferee`: the referee goes, and so do its attendance records
        and the assignments whose `refereeId` is its id. */
    method DeleteReferee(id: string)
      modifies this`referees, this`attendance, this`assignments
      ensures referees == Filter(RefereeIsNot, id, old(referees))
      ensures attendance == Filter(RecordOfOtherReferee, id, old(attendance))
      ensures assignments == Filter(AssignmentOfOtherReferee, id, old(assignments))
      ensures forall r :: r in referees ==> r.id != id
      ensures forall a :: a in attendance ==> a.refereeId != id
      ensures forall a :: a in assignments ==> a.refereeId != id
      ensures old(KeysUnique(attendance)) ==> KeysUnique(attendance)
    {
      referees := Filter(RefereeIsNot, id, referees);
      ghost var before := attendance;
      attendance := Filter(RecordOfOtherReferee, id, attendance);
      if KeysUnique(before) {
        SublistKeepsKeysUnique(attendance, before);
      }
      assignments := Filter(AssignmentOfOtherReferee, id, assignments);
    }

    /** `handleAddAttendance`: the upsert keyed on (referee, day). */
    method AddAttendance(rec: AttendanceRecord)
      modifies this`attendance
      ensures attendance == Upsert(old(attendance), rec)
      ensures old(KeysUnique(attendance)) ==> KeysUnique(attendance)
    {
      var i := FindIndex(attendance, rec);
      if 0 <= i {
        attendance := attendance[i := rec];
      } else {
        attendance := attendance + [rec];
      }
      if old(KeysUnique(attendance)) {
        UpsertKeepsKeysUnique(old(attendance), rec);
      }
    }

    /** `handleAddChampionship`: appended at the end. */
    method AddChampionship(championship: Championship)
      modifies this`championships
      ensures championships == old(championships) + [championship]
    {
      championships := championships + [championship];
    }

    /** `handleUpdateChampionship`: every championship with the id becomes `updated`. */
    method UpdateChampionship(id: string, updated: Championship)
      modifies this`championships
      ensures championships == Replace(ChampionshipIs, id, old(championships), updated)
    {
      championships := Replace(ChampionshipIs, id, championships, updated);
    }

    /** `handleDeleteChampionship`: the championship goes with its assignments;
        referees and attendance are not touched. */
    method DeleteChampionship(id: string)
      modifies this`championships, this`assignments
      ensures championships == Filter(ChampionshipIsNot, id, old(championships))
      ensures assignments == Filter(AssignmentOfOtherChampionship, id, old(assignments))
      ensures forall c :: c in championships ==> c.id != id
      ensures forall a :: a in assignments ==> a.championshipId != id
    {
      championships := Filter(ChampionshipIsNot, id, championships);
      assignments := Filter(AssignmentOfOtherChampionship, id, assignments);
    }

    /** `handleAddAssignment`: appended at the end. */
    method AddAssignment(assignment: Assignment)
      modifies this`assignments
      ensures assignments == old(assignments) + [assignment]
    {
      assignments := assignments + [assignment];
    }

    /** `handleUpdateAssignment`: every assignment with the id becomes `updated`. */
    method UpdateAssignment(id: string, updated: Assignment)
      modifies this`assignments
      ensures assignments == Replace(AssignmentIs, id, old(assignments), updated)
    {
      assignments := Replace(AssignmentIs, id, assignments, updated);
    }

    /** `handleDeleteAssignment`: exactly the assignments with that id go. */
    method DeleteAssignment(id: string)
      modifies this`assignments
      ensures assignments == Filter(AssignmentIsNot, id, old(assignments))
      ensures forall a :: a in old(assignments) ==> (a in assignments <==> a.id != id)
    {
      assignments := Filter(AssignmentIsNot, id, assignments);
    }
  }

  /** Deleting a referee removes every one of its records from the log and no
      record of anyone else: a record survives exactly when it is another
      referee's. */
  lemma DeleteRefereeCascade(attendance: seq<AttendanceRecord>, assignments: seq<Assignment>, id: string)
    ensures forall a :: a in Filter(RecordOfOtherReferee, id, attendance)
                  <==> a in attendance && a.refereeId != id
    ensures forall a :: a in Filter(AssignmentOfOtherReferee, id, assignments)
                  <==> a in assignments && a.refereeId != id
    ensures |Filter(RecordOfOtherReferee, id, attendance)| == |attendance|
        <==> forall a :: a in attendance ==> a.refereeId != id
  {
    FilterCountsDrops(RecordOfOtherReferee, id, attendance);
  }

  /** The filter keeps the full length exactly when it drops nothing. */
  lemma {:induction false} FilterCountsDrops(keep: (string, AttendanceRecord) -> bool, k: string, s: seq<AttendanceRecord>)
    ensures |Filter(keep, k, s)| == |s| <==> forall x :: x in s ==> keep(k, x)
  {
    if s != [] {
      var s' := s[..|s| - 1];
      assert s == s' + [s[|s| - 1]];
      FilterCountsDrops(keep, k, s');
    }
  }

  /** Updating with an id nobody has leaves the collection as it was. */
  lemma UpdateUnknownIdChangesNothing(referees: seq<Referee>, id: string, updated: Referee)
    requires forall r :: r in referees ==> r.id != id
    ensures Replace(RefereeIs, id, referees, updated) == referees
  {
    ReplaceNoMatch(RefereeIs, id, referees, updated);
  }
}

/** The validation rules of `components/assignment-manager.tsx`: the conflict
    checker (`checkDuplicateReferees`) and the 30-day attendance eligibility
    filter (`eligibleReferees`), on values. The component's own types are used.
    A `yyyy-MM-dd` date is the day number it names; a match time is an opaque
    string compared for equality. */
module AssignmentChecks {
  import opened Lists

  datatype Referee = Referee(id: string, name: string, category: string)

  datatype Championship = Championship(id: string, name: string)

  datatype AttendanceRecord = AttendanceRecord(id: string, refereeId: string, date: int, present: bool)

  /** What the checker reads of an assignment: its id, championship, day, time
      and the referee id of each slot, in slot order ("" for an unfilled slot). */
  datatype Booking = Booking(
    id: string,
    championshipId: string,
    matchDate: int,
    matchTime: string,
    slotIds: seq<string>)

  /** One message of the checker, by its variable parts: the "asignado múltiples
      veces" error, and the "ya está asignado el mismo día y hora" warning. */
  datatype Conflict =
    | Duplicate(refereeId: string, refereeName: string)
    | Clash(refereeId: string, refereeName: string, date: int, time: string, championshipName: string)

  /** `STATIC_REFEREES`, placed before the referees the store passes in. */
  function StaticReferees(): (r: seq<Referee>)
    ensures |r| == 3
    ensures forall i :: 0 <= i < 3 ==> r[i].id != "" && r[i].name != ""
    ensures forall i, j :: 0 <= i < j < 3 ==> r[i].id != r[j].id
  {
    [Referee("1", "Arbitro 1", "Nacional"), Referee("2", "Arbitro 2", "Regional"), Referee("3", "Arbitro 3", "FIFA")]
  }

  /** `referees.find(r => r.id === id)`. */
  function FindReferee(referees: seq<Referee>, id: string): (r: Option<Referee>)
    ensures r.None? <==> forall x :: x in referees ==> x.id != id
    ensures r.Some? ==> r.value in referees && r.value.id == id
    ensures r.Some? ==> exists i :: 0 <= i < |referees| && referees[i] == r.value
                          && forall j :: 0 <= j < i ==> referees[j].id != id
  {
    if referees == [] then None
    else if referees[0].id == id then Some(referees[0])
    else FindReferee(referees[1..], id)
  }

  /** `championships.find(c => c.id === id)`. */
  function FindChampionship(championships: seq<Championship>, id: string): (r: Option<Championship>)
    ensures r.None? <==> forall x :: x in championships ==> x.id != id
    ensures r.Some? ==> r.value in championships && r.value.id == id
    ensures r.Some? ==> exists i :: 0 <= i < |championships| && championships[i] == r.value
                          && forall j :: 0 <= j < i ==> championships[j].id != id
  {
    if championships == [] then None
    else if championships[0].id == id then Some(championships[0])
    else FindChampionship(championships[1..], id)
  }

  /** Position `i` holds the first referee with the id. */
  predicate FirstRefereeAt(referees: seq<Referee>, id: string, i: int)
  {
    0 <= i < |referees| && referees[i].id == id && forall j :: 0 <= j < i ==> referees[j].id != id
  }

  /** Position `i` holds the first championship with the id. */
  predicate FirstChampionshipAt(championships: seq<Championship>, id: string, i: int)
  {
    0 <= i < |championships| && championships[i].id == id && forall j :: 0 <= j < i ==> championships[j].id != id
  }

  /** `referee?.name || id`: the name, or the id when the referee is unknown or
      has an empty name. */
  function RefereeLabel(referees: seq<Referee>, id: string): (shown: string)
    ensures (forall x :: x in referees ==> x.id != id) ==> shown == id
    ensures shown != id ==> exists x :: x in referees && x.id == id && x.name == shown
    ensures forall i {:trigger FirstRefereeAt(referees, id, i)} :: FirstRefereeAt(referees, id, i) ==>
              shown == if referees[i].name != "" then referees[i].name else id
  {
    match FindReferee(referees, id)
    case Some(r) => if r.name != "" then r.name else id
    case None => id
  }

  /** `champ?.name || 'Sin nombre'`. */
  function ChampionshipLabel(championships: seq<Championship>, id: string): (shown: string)
    ensures (forall x :: x in championships ==> x.id != id) ==> shown == "Sin nombre"
    ensures shown != "Sin nombre" ==> exists x :: x in championships && x.id == id && x.name == shown
    ensures forall i {:trigger FirstChampionshipAt(championships, id, i)} :: FirstChampionshipAt(championships, id, i) ==>
              shown == if championships[i].name != "" then championships[i].name else "Sin nombre"
  {
    match FindChampionship(championships, id)
    case Some(c) => if c.name != "" then c.name else "Sin nombre"
    case None => "Sin nombre"
  }

  predicate Differs(a: string, b: string) { a != b }

  /** `referees.map(r => r.id).filter(id => id !== "")`: the filled slots' ids. */
  function FilledIds(slotIds: seq<string>): (r: seq<string>)
    ensures forall id :: id in r <==> id in slotIds && id != ""
  {
    Filter(Differs, "", slotIds)
  }

  /** Dropping the unfilled slots does not change how often a filled id occurs. */
  lemma {:induction false} FilledCount(slotIds: seq<string>, id: string)
    requires id != ""
    ensures multiset(FilledIds(slotIds))[id] == multiset(slotIds)[id]
  {
    if slotIds != [] {
      var init := slotIds[..|slotIds| - 1];
      assert slotIds == init + [slotIds[|slotIds| - 1]];
      FilledCount(init, id);
    }
  }

  /** The ids in order of first occurrence: the key order of a JavaScript `Map`
      filled by `set` calls. */
  function Distinct(ids: seq<string>): (r: seq<string>)
    ensures forall x :: x in r <==> x in ids
    ensures forall i, j :: 0 <= i < j < |r| ==> r[i] != r[j]
  {
    if ids == [] then []
    else
      var d := Distinct(ids[..|ids| - 1]);
      assert ids == ids[..|ids| - 1] + [ids[|ids| - 1]];
      if ids[|ids| - 1] in d then d else d + [ids[|ids| - 1]]
  }

  /** The keys keep the order in which the ids first occur: whenever key `i`
      precedes key `j`, key `i` already occurs before any occurrence of key `j`. */
  lemma {:induction false} DistinctKeepsFirstOccurrenceOrder(ids: seq<string>)
    ensures forall i, j, q :: 0 <= i < j < |Distinct(ids)| && 0 <= q < |ids| && ids[q] == Distinct(ids)[j]
                           ==> Distinct(ids)[i] in ids[..q]
  {
    if ids != [] {
      var init := ids[..|ids| - 1];
      var x := ids[|ids| - 1];
      assert ids == init + [x];
      DistinctKeepsFirstOccurrenceOrder(init);
      var d := Distinct(init);
      var r := Distinct(ids);
      forall i, j, q | 0 <= i < j < |r| && 0 <= q < |ids| && ids[q] == r[j]
        ensures r[i] in ids[..q]
      {
        if q < |init| {
          assert ids[..q] == init[..q] && init[q] == ids[q];
          if j < |d| {
            assert r[i] == d[i] && r[j] == d[j];
            assert d[i] in init[..q];
          } else {
            assert false;
          }
        } else {
          assert ids[..q] == init;
          assert r[i] == d[i] && d[i] in d;
        }
      }
    }
  }

  /** No key occurs twice. */
  predicate KeysDistinct(keys: seq<string>)
  {
    forall i, j :: 0 <= i < j < |keys| ==> keys[i] != keys[j]
  }

  /** No two messages name the same referee. */
  predicate ReportsDistinct(r: seq<Conflict>)
  {
    forall i, j :: 0 <= i < j < |r| ==> r[i].refereeId != r[j].refereeId
  }

  /** The duplicate errors for the keys, in key order: one per key that occurs
      more than once in `ids`. */
  function DuplicateReports(keys: seq<string>, ids: seq<string>, referees: seq<Referee>): (r: seq<Conflict>)
    ensures forall m :: m in r ==>
              m.Duplicate? && m.refereeId in keys && multiset(ids)[m.refereeId] > 1
              && m.refereeName == RefereeLabel(referees, m.refereeId)
    ensures forall id :: id in keys && multiset(ids)[id] > 1 ==> Duplicate(id, RefereeLabel(referees, id)) in r
    ensures KeysDistinct(keys) ==> ReportsDistinct(r)
  {
    if keys == [] then []
    else
      var init := keys[..|keys| - 1];
      var id := keys[|keys| - 1];
      assert keys == init + [id];
      DuplicateReports(init, ids, referees)
        + if multiset(ids)[id] > 1 then [Duplicate(id, RefereeLabel(referees, id))] else []
  }

  /** Key `a` stands before key `b` in `keys`. */
  predicate KeyPrecedes(keys: seq<string>, a: string, b: string)
  {
    exists p, q :: 0 <= p < q < |keys| && keys[p] == a && keys[q] == b
  }

  /** A key order survives one more key at the end, and every earlier key
      precedes that new key. */
  lemma KeyPrecedesExtend(keys: seq<string>, x: string, a: string, b: string)
    ensures KeyPrecedes(keys, a, b) ==> KeyPrecedes(keys + [x], a, b)
    ensures a in keys ==> KeyPrecedes(keys + [x], a, x)
  {
    var k := keys + [x];
    if KeyPrecedes(keys, a, b) {
      var p, q :| 0 <= p < q < |keys| && keys[p] == a && keys[q] == b;
      assert k[p] == a && k[q] == b;
    }
    if a in keys {
      var p :| 0 <= p < |keys| && keys[p] == a;
      assert k[p] == a && k[|keys|] == x;
    }
  }

  /** The reports come in key order: of two reports, the earlier one names a
      key that stands before the later one's. */
  lemma {:induction false} DuplicateReportsFollowKeys(keys: seq<string>, ids: seq<string>, referees: seq<Referee>)
    ensures forall i, j :: 0 <= i < j < |DuplicateReports(keys, ids, referees)| ==>
              KeyPrecedes(keys, DuplicateReports(keys, ids, referees)[i].refereeId,
                          DuplicateReports(keys, ids, referees)[j].refereeId)
  {
    if keys != [] {
      var init := keys[..|keys| - 1];
      var id := keys[|keys| - 1];
      assert keys == init + [id];
      DuplicateReportsFollowKeys(init, ids, referees);
      var d := DuplicateReports(init, ids, referees);
      var r := DuplicateReports(keys, ids, referees);
      assert r == d + if multiset(ids)[id] > 1 then [Duplicate(id, RefereeLabel(referees, id))] else [];
      forall i, j | 0 <= i < j < |r|
        ensures KeyPrecedes(keys, r[i].refereeId, r[j].refereeId)
      {
        assert r[i] == d[i];
        if j < |d| {
          assert r[j] == d[j];
          KeyPrecedesExtend(init, id, d[i].refereeId, d[j].refereeId);
        } else {
          assert r[j].refereeId == id;
          assert d[i] in d;
          KeyPrecedesExtend(init, id, d[i].refereeId, id);
        }
      }
    }
  }

  predicate Among(ids: seq<string>, id: string) { id in ids }

  /** The stored assignment `e` is left out of the clash check: the edit of the
      assignment with the same id. */
  predicate Skipped(current: Booking, isEditing: bool, e: Booking)
  {
    isEditing && e.id == current.id
  }

  /** Same calendar day and the identical time string. */
  predicate SameSlotTime(current: Booking, e: Booking)
  {
    e.matchDate == current.matchDate && e.matchTime == current.matchTime
  }

  /** The warning naming referee `id` against the stored assignment `e`. */
  function ClashWith(current: Booking, id: string, e: Booking, referees: seq<Referee>, championships: seq<Championship>): Conflict
  {
    Clash(id, RefereeLabel(referees, id), current.matchDate, current.matchTime,
          ChampionshipLabel(championships, e.championshipId))
  }

  /** The warnings against one stored assignment: one per filled slot of the
      current assignment, in slot order, whose id is also in a slot of `e`. */
  function SlotClashes(current: Booking, filled: seq<string>, e: Booking,
                       referees: seq<Referee>, championships: seq<Championship>): (r: seq<Conflict>)
    ensures var shared := Filter(Among, e.slotIds, filled);
      |r| == |shared| && forall k :: 0 <= k < |r| ==> r[k] == ClashWith(current, shared[k], e, referees, championships)
  {
    if filled == [] then []
    else
      var init := filled[..|filled| - 1];
      var id := filled[|filled| - 1];
      SlotClashes(current, init, e, referees, championships)
        + if id in e.slotIds then [ClashWith(current, id, e, referees, championships)] else []
  }

  /** What the messages against one stored assignment are about: shared filled
      ids, and none exactly when the two share no filled id. */
  lemma SlotClashesMembers(current: Booking, filled: seq<string>, e: Booking,
                           referees: seq<Referee>, championships: seq<Championship>)
    ensures var now := SlotClashes(current, filled, e, referees, championships);
      (forall m :: m in now ==> m.Clash? && m.refereeId in filled && m.refereeId in e.slotIds)
      && (now == [] <==> forall id :: id in filled ==> id !in e.slotIds)
  {
    var now := SlotClashes(current, filled, e, referees, championships);
    var shared := Filter(Among, e.slotIds, filled);
    forall m | m in now
      ensures m.Clash? && m.refereeId in filled && m.refereeId in e.slotIds
    {
      var k :| 0 <= k < |now| && now[k] == m;
      assert shared[k] in shared;
    }
    if !(forall id :: id in filled ==> id !in e.slotIds) {
      var id :| id in filled && id in e.slotIds;
      assert id in shared;
    }
  }

  /** The warnings against every stored assignment that is not skipped and falls
      on the same day and time, in store order. */
  function Clashes(current: Booking, filled: seq<string>, isEditing: bool, existing: seq<Booking>,
                   referees: seq<Referee>, championships: seq<Championship>): (r: seq<Conflict>)
    ensures forall m :: m in r ==>
              m.Clash? && m.refereeId in filled
              && exists e :: e in existing && !Skipped(current, isEditing, e) && SameSlotTime(current, e) && m.refereeId in e.slotIds
    ensures r == [] <==> forall e, id ::
              (e in existing && !Skipped(current, isEditing, e) && SameSlotTime(current, e) && id in filled)
              ==> id !in e.slotIds
  {
    if existing == [] then []
    else
      var init := existing[..|existing| - 1];
      var e := existing[|existing| - 1];
      assert existing == init + [e];
      var before := Clashes(current, filled, isEditing, init, referees, championships);
      if !Skipped(current, isEditing, e) && SameSlotTime(current, e) then
        var now := SlotClashes(current, filled, e, referees, championships);
        SlotClashesMembers(current, filled, e, referees, championships);
        before + now
      else
        before
  }

  /** `checkDuplicateReferees` as a value: the duplicate errors in first-occurrence
      order, followed by the clash warnings. */
  function Conflicts(current: Booking, isEditing: bool, existing: seq<Booking>,
                     referees: seq<Referee>, championships: seq<Championship>): (r: seq<Conflict>)
    ensures forall m :: m in r ==> m.refereeId != "" && m.refereeId in current.slotIds
  {
    var filled := FilledIds(current.slotIds);
    DuplicateReports(Distinct(filled), filled, referees)
      + Clashes(current, filled, isEditing, existing, referees, championships)
  }

  /** The first loop of `checkDuplicateReferees`: the counting `Map`, as a map
      plus the order its keys were inserted in. */
  method CountReferees(filled: seq<string>) returns (counts: map<string, nat>, order: seq<string>)
    ensures order == Distinct(filled)
    ensures forall x :: x in counts <==> x in filled
    ensures forall x :: x in counts ==> counts[x] == multiset(filled)[x]
  {
    counts := map[];
    order := [];
    for i := 0 to |filled|
      invariant order == Distinct(filled[..i])
      invariant forall x :: x in counts <==> x in filled[..i]
      invariant forall x :: x in counts ==> counts[x] == multiset(filled[..i])[x]
    {
      var id := filled[i];
      assert filled[..i + 1] == filled[..i] + [id];
      if id in counts {
        counts := counts[id := counts[id] + 1];
      } else {
        counts := counts[id := 1];
        order := order + [id];
      }
    }
    assert filled[..|filled|] == filled;
  }

  /** The second loop: one error per key counted more than once, in key order. */
  method ReportDuplicates(counts: map<string, nat>, order: seq<string>, filled: seq<string>, referees: seq<Referee>)
    returns (errors: seq<Conflict>)
    requires forall x :: x in order ==> x in counts && counts[x] == multiset(filled)[x]
    ensures errors == DuplicateReports(order, filled, referees)
  {
    errors := [];
    for j := 0 to |order|
      invariant errors == DuplicateReports(order[..j], filled, referees)
    {
      var id := order[j];
      assert id in order;
      assert counts[id] == multiset(filled)[id];
      DuplicateReportsStep(order, j, filled, referees);
      if counts[id] > 1 {
        errors := errors + [Duplicate(id, RefereeLabel(referees, id))];
      }
    }
    assert order[..|order|] == order;
  }

  /** One more key adds at most its own report at the end. */
  lemma DuplicateReportsStep(keys: seq<string>, j: int, ids: seq<string>, referees: seq<Referee>)
    requires 0 <= j < |keys|
    ensures DuplicateReports(keys[..j + 1], ids, referees)
         == DuplicateReports(keys[..j], ids, referees)
            + if multiset(ids)[keys[j]] > 1 then [Duplicate(keys[j], RefereeLabel(referees, keys[j]))] else []
  {
    assert keys[..j + 1][..j] == keys[..j];
  }

  /** The inner loop of the third: the filled ids that also sit in a slot of `e`. */
  method ReportSlotClashes(current: Booking, filled: seq<string>, e: Booking,
                           referees: seq<Referee>, championships: seq<Championship>)
    returns (warnings: seq<Conflict>)
    ensures warnings == SlotClashes(current, filled, e, referees, championships)
  {
    warnings := [];
    for q := 0 to |filled|
      invariant warnings == SlotClashes(current, filled[..q], e, referees, championships)
    {
      var id := filled[q];
      assert filled[..q + 1][..q] == filled[..q];
      if id in e.slotIds {
        warnings := warnings + [ClashWith(current, id, e, referees, championships)];
      }
    }
    assert filled[..|filled|] == filled;
  }

  /** The third loop: the stored assignments on the same day and time, except
      the one being edited. */
  method ReportClashes(current: Booking, filled: seq<string>, isEditing: bool, existing: seq<Booking>,
                       referees: seq<Referee>, championships: seq<Championship>)
    returns (warnings: seq<Conflict>)
    ensures warnings == Clashes(current, filled, isEditing, existing, referees, championships)
  {
    warnings := [];
    for k := 0 to |existing|
      invariant warnings == Clashes(current, filled, isEditing, existing[..k], referees, championships)
    {
      var e := existing[k];
      assert existing[..k + 1][..k] == existing[..k];
      if !(isEditing && e.id == current.id) && e.matchDate == current.matchDate && e.matchTime == current.matchTime {
        var more := ReportSlotClashes(current, filled, e, referees, championships);
        warnings := warnings + more;
      }
    }
    assert existing[..|existing|] == existing;
  }

  /** `checkDuplicateReferees`: the duplicate errors in first-occurrence order,
      then the clash warnings. */
  method CheckDuplicateReferees(current: Booking, isEditing: bool, existing: seq<Booking>,
                                referees: seq<Referee>, championships: seq<Championship>)
    returns (errors: seq<Conflict>)
    ensures errors == Conflicts(current, isEditing, existing, referees, championships)
  {
    var filled := FilledIds(current.slotIds);
    var counts, order := CountReferees(filled);
    var duplicates := ReportDuplicates(counts, order, filled, referees);
    var warnings := ReportClashes(current, filled, isEditing, existing, referees, championships);
    errors := duplicates + warnings;
  }

  /** No filled id occurs in two slots. */
  predicate NoRepeatedReferee(slotIds: seq<string>)
  {
    forall id :: id != "" && id in slotIds ==> multiset(slotIds)[id] == 1
  }

  /** Some stored assignment that is not skipped, on the same day and time,
      shares a filled referee id with the current one. */
  predicate HasClash(current: Booking, isEditing: bool, existing: seq<Booking>)
  {
    exists e, id :: e in existing && !Skipped(current, isEditing, e) && SameSlotTime(current, e)
                 && id != "" && id in current.slotIds && id in e.slotIds
  }

  /** The referee `id` is named by a duplicate error exactly when it is filled in
      and occupies more than one slot. */
  lemma DuplicateReportedIff(current: Booking, isEditing: bool, existing: seq<Booking>,
                             referees: seq<Referee>, championships: seq<Championship>, id: string)
    ensures Duplicate(id, RefereeLabel(referees, id)) in Conflicts(current, isEditing, existing, referees, championships)
        <==> id != "" && multiset(current.slotIds)[id] > 1
    ensures (exists m :: m in Conflicts(current, isEditing, existing, referees, championships) && m.Duplicate? && m.refereeId == id)
        <==> id != "" && multiset(current.slotIds)[id] > 1
  {
    var filled := FilledIds(current.slotIds);
    var r := Conflicts(current, isEditing, existing, referees, championships);
    var dups := DuplicateReports(Distinct(filled), filled, referees);
    var clashes := Clashes(current, filled, isEditing, existing, referees, championships);
    if id != "" {
      FilledCount(current.slotIds, id);
    }
    if id != "" && multiset(current.slotIds)[id] > 1 {
      assert id in filled;
      assert Duplicate(id, RefereeLabel(referees, id)) in dups;
    }
    if exists m :: m in r && m.Duplicate? && m.refereeId == id {
      var m :| m in r && m.Duplicate? && m.refereeId == id;
      assert m in dups;
    }
  }

  /** Each referee is named by at most one duplicate error. */
  lemma OneDuplicateReportPerReferee(current: Booking, isEditing: bool, existing: seq<Booking>,
                                     referees: seq<Referee>, championships: seq<Championship>)
    ensures var r := Conflicts(current, isEditing, existing, referees, championships);
      forall i, j :: 0 <= i < j < |r| && r[i].Duplicate? && r[j].Duplicate? ==> r[i].refereeId != r[j].refereeId
  {
    var filled := FilledIds(current.slotIds);
    var dups := DuplicateReports(Distinct(filled), filled, referees);
    var clashes := Clashes(current, filled, isEditing, existing, referees, championships);
    var r := dups + clashes;
    assert KeysDistinct(Distinct(filled));
    assert ReportsDistinct(dups);
    forall i, j | 0 <= i < j < |r| && r[i].Duplicate? && r[j].Duplicate?
      ensures r[i].refereeId != r[j].refereeId
    {
      assert j < |dups|;
      assert r[i] == dups[i] && r[j] == dups[j];
    }
  }

  /** The checker is silent exactly when no filled referee occupies two slots and
      no clash exists. */
  lemma ConflictsEmptyIff(current: Booking, isEditing: bool, existing: seq<Booking>,
                          referees: seq<Referee>, championships: seq<Championship>)
    ensures Conflicts(current, isEditing, existing, referees, championships) == []
        <==> NoRepeatedReferee(current.slotIds) && !HasClash(current, isEditing, existing)
  {
    var filled := FilledIds(current.slotIds);
    var dups := DuplicateReports(Distinct(filled), filled, referees);
    var clashes := Clashes(current, filled, isEditing, existing, referees, championships);
    assert Conflicts(current, isEditing, existing, referees, championships) == dups + clashes;
    if !NoRepeatedReferee(current.slotIds) {
      var id :| id != "" && id in current.slotIds && multiset(current.slotIds)[id] != 1;
      DuplicateReportedIff(current, isEditing, existing, referees, championships, id);
    }
    if dups != [] {
      var m := dups[0];
      assert m in dups;
      DuplicateReportedIff(current, isEditing, existing, referees, championships, m.refereeId);
    }
    if HasClash(current, isEditing, existing) {
      var e, id :| e in existing && !Skipped(current, isEditing, e) && SameSlotTime(current, e)
                 && id != "" && id in current.slotIds && id in e.slotIds;
      assert id in filled;
    }
  }

  /** Re-saving an edited assignment that was stored unchanged never clashes with
      its own stored version. */
  lemma EditNeverClashesWithItself(current: Booking, referees: seq<Referee>, championships: seq<Championship>)
    requires NoRepeatedReferee(current.slotIds)
    ensures Conflicts(current, true, [current], referees, championships) == []
  {
    ConflictsEmptyIff(current, true, [current], referees, championships);
  }

  /** In add mode nothing is skipped: an assignment with a filled slot clashes
      with an identical stored copy of itself. */
  lemma AddClashesWithStoredCopy(current: Booking, referees: seq<Referee>, championships: seq<Championship>)
    requires exists id :: id != "" && id in current.slotIds
    ensures Conflicts(current, false, [current], referees, championships) != []
  {
    var id :| id != "" && id in current.slotIds;
    assert current in [current];
    assert HasClash(current, false, [current]);
    ConflictsEmptyIff(current, false, [current], referees, championships);
  }

  /** Two slots holding the same filled id give one duplicate error. */
  lemma TwoSlotsOneDuplicate(id: string, referees: seq<Referee>)
    requires id != ""
    ensures var filled := FilledIds([id, id]);
      DuplicateReports(Distinct(filled), filled, referees) == [Duplicate(id, RefereeLabel(referees, id))]
  {
    FilledPair(id);
    assert [id, id][..1] == [id] && [id][..0] == [];
    assert Distinct([id]) == [id];
    assert Distinct([id, id]) == [id];
    assert multiset([id, id])[id] == 2;
  }

  /** Two slots holding one filled id are both filled. */
  lemma FilledPair(id: string)
    requires id != ""
    ensures FilledIds([id, id]) == [id, id]
  {
    assert [id, id][..1] == [id] && [id][..0] == [];
    assert Filter(Differs, "", [id]) == [id];
  }

  /** Both of two slots holding `id` clash with a stored assignment holding `id`. */
  lemma PairClashes(current: Booking, e: Booking, id: string,
                    referees: seq<Referee>, championships: seq<Championship>)
    requires id in e.slotIds
    ensures SlotClashes(current, [id, id], e, referees, championships)
         == [ClashWith(current, id, e, referees, championships), ClashWith(current, id, e, referees, championships)]
  {
    assert [id, id][..1] == [id] && [id][..0] == [];
    var c := ClashWith(current, id, e, referees, championships);
    assert SlotClashes(current, [id], e, referees, championships) == [c];
  }

  /** Both slots of `[id, id]` clash with a stored assignment holding `id`. */
  lemma TwoSlotsClashTwice(current: Booking, e: Booking, id: string,
                           referees: seq<Referee>, championships: seq<Championship>)
    requires id != "" && id in e.slotIds && SameSlotTime(current, e)
    ensures Clashes(current, FilledIds([id, id]), false, [e], referees, championships)
         == [ClashWith(current, id, e, referees, championships), ClashWith(current, id, e, referees, championships)]
  {
    FilledPair(id);
    PairClashes(current, e, id, referees, championships);
    assert [e][..0] == [];
  }

  /** A referee in two slots of the current assignment who also plays in a
      clashing stored assignment is reported once as a duplicate and warned
      about once per slot. */
  lemma RepeatedRefereeClashesTwice(current: Booking, e: Booking, id: string,
                                    referees: seq<Referee>, championships: seq<Championship>)
    requires current.slotIds == [id, id] && id != "" && id in e.slotIds
    requires SameSlotTime(current, e)
    ensures Conflicts(current, false, [e], referees, championships)
         == [Duplicate(id, RefereeLabel(referees, id)), ClashWith(current, id, e, referees, championships),
             ClashWith(current, id, e, referees, championships)]
  {
    TwoSlotsOneDuplicate(id, referees);
    TwoSlotsClashTwice(current, e, id, referees, championships);
  }

  // ---------------------------------------------------------------------------
  // Eligibility

  /** Milliseconds in a day: `subDays(today, 30)` moves back 30 of these. */
  const MsPerDay: int := 86400000

  /** `recordDate >= thirtyDaysAgo && recordDate <= today`, where the record's
      `yyyy-MM-dd` is read as the midnight that starts its day and `now` is the
      current instant in milliseconds. */
  predicate InWindow(day: int, now: int)
  {
    now - 30 * MsPerDay <= day * MsPerDay <= now
  }

  /** The window in whole days: the 30 days up to and including today, and the
      day 30 days back only when `now` is exactly midnight. */
  lemma WindowInDays(day: int, now: int)
    ensures InWindow(day, now) <==>
      (now / MsPerDay - 30 < day <= now / MsPerDay)
      || (now % MsPerDay == 0 && day == now / MsPerDay - 30)
  {
    var q, m := now / MsPerDay, now % MsPerDay;
    assert now == q * MsPerDay + m && 0 <= m < MsPerDay;
    assert day * MsPerDay <= now <==> day <= q by {
      if day <= q {
        assert day * MsPerDay <= q * MsPerDay;
      } else {
        assert day * MsPerDay >= (q + 1) * MsPerDay;
      }
    }
    assert now - 30 * MsPerDay <= day * MsPerDay <==> (day > q - 30 || (m == 0 && day == q - 30)) by {
      if day > q - 30 {
        assert day * MsPerDay >= (q - 29) * MsPerDay;
      } else if day == q - 30 {
      } else {
        assert day * MsPerDay <= (q - 31) * MsPerDay;
      }
    }
  }

  /** Present and total counts of one referee's records inside the window. */
  datatype Tally = Tally(present: nat, total: nat)

  function TallyOf(attendance: seq<AttendanceRecord>, refereeId: string, now: int): (t: Tally)
    ensures t.present <= t.total <= |attendance|
  {
    if attendance == [] then Tally(0, 0)
    else
      var t := TallyOf(attendance[..|attendance| - 1], refereeId, now);
      var rec := attendance[|attendance| - 1];
      if rec.refereeId == refereeId && InWindow(rec.date, now) then
        Tally(t.present + (if rec.present then 1 else 0), t.total + 1)
      else t
  }

  /** The attendance log and the instant the window ends at. */
  datatype Window = Window(attendance: seq<AttendanceRecord>, now: int)

  /** No record in the window, or at least 70% present: `present / total >= 0.7`
      stated on integers. */
  predicate IsEligible(w: Window, r: Referee)
  {
    var t := TallyOf(w.attendance, r.id, w.now);
    t.total == 0 || 10 * t.present >= 7 * t.total
  }

  /** `eligibleReferees`: the eligible referees, in list order. */
  function EligibleReferees(referees: seq<Referee>, attendance: seq<AttendanceRecord>, now: int): (r: seq<Referee>)
    ensures IsSublist(r, referees)
    ensures forall x :: x in r <==> x in referees && IsEligible(Window(attendance, now), x)
  {
    Filter(IsEligible, Window(attendance, now), referees)
  }

  /** The first loop of `eligibleReferees`: a zero tally for every referee id. */
  method ZeroStats(referees: seq<Referee>) returns (stats: map<string, Tally>)
    ensures forall r :: r in referees ==> r.id in stats
    ensures forall id :: id in stats ==> stats[id] == Tally(0, 0)
  {
    stats := map[];
    for i := 0 to |referees|
      invariant forall j :: 0 <= j < i ==> referees[j].id in stats
      invariant forall id :: id in stats ==> stats[id] == Tally(0, 0)
    {
      stats := stats[referees[i].id := Tally(0, 0)];
    }
  }

  /** The second loop: every record inside the window counts for its referee
      when the referee has an entry; other records are skipped. */
  method CountWindow(stats0: map<string, Tally>, attendance: seq<AttendanceRecord>, now: int)
    returns (stats: map<string, Tally>)
    requires forall id :: id in stats0 ==> stats0[id] == Tally(0, 0)
    ensures stats.Keys == stats0.Keys
    ensures forall id :: id in stats ==> stats[id] == TallyOf(attendance, id, now)
  {
    stats := stats0;
    for j := 0 to |attendance|
      invariant stats.Keys == stats0.Keys
      invariant forall id :: id in stats ==> stats[id] == TallyOf(attendance[..j], id, now)
    {
      var rec := attendance[j];
      assert attendance[..j + 1][..j] == attendance[..j];
      if InWindow(rec.date, now) && rec.refereeId in stats {
        var t := stats[rec.refereeId];
        stats := stats[rec.refereeId := Tally(t.present + (if rec.present then 1 else 0), t.total + 1)];
      }
    }
    assert attendance[..|attendance|] == attendance;
  }

  /** `eligibleReferees`: tallies per referee id from the log, then the filter. */
  method CollectEligibleReferees(referees: seq<Referee>, attendance: seq<AttendanceRecord>, now: int)
    returns (eligible: seq<Referee>)
    ensures eligible == EligibleReferees(referees, attendance, now)
  {
    var zero := ZeroStats(referees);
    var stats := CountWindow(zero, attendance, now);
    eligible := [];
    for k := 0 to |referees|
      invariant eligible == EligibleReferees(referees[..k], attendance, now)
    {
      assert referees[..k + 1][..k] == referees[..k];
      var t := stats[referees[k].id];
      if t.total == 0 || 10 * t.present >= 7 * t.total {
        eligible := eligible + [referees[k]];
      }
    }
    assert referees[..|referees|] == referees;
  }

  /** A referee with no record in the window is eligible. */
  lemma NoRecordsMeansEligible(referees: seq<Referee>, attendance: seq<AttendanceRecord>, now: int, r: Referee)
    requires r in referees
    requires forall rec :: rec in attendance && rec.refereeId == r.id ==> !InWindow(rec.date, now)
    ensures r in EligibleReferees(referees, attendance, now)
  {
    NoRecordsTallyZero(attendance, r.id, now);
  }

  lemma {:induction false} NoRecordsTallyZero(attendance: seq<AttendanceRecord>, refereeId: string, now: int)
    requires forall rec :: rec in attendance && rec.refereeId == refereeId ==> !InWindow(rec.date, now)
    ensures TallyOf(attendance, refereeId, now).total == 0
  {
    if attendance != [] {
      var init := attendance[..|attendance| - 1];
      assert attendance == init + [attendance[|attendance| - 1]];
      NoRecordsTallyZero(init, refereeId, now);
    }
  }

  /** A new record that is about nobody in the list, or outside the window,
      changes no one's eligibility. */
  lemma IrrelevantRecordIgnored(referees: seq<Referee>, attendance: seq<AttendanceRecord>,
                                rec: AttendanceRecord, now: int)
    requires (forall r :: r in referees ==> r.id != rec.refereeId) || !InWindow(rec.date, now)
    ensures EligibleReferees(referees, attendance + [rec], now) == EligibleReferees(referees, attendance, now)
  {
    assert (attendance + [rec])[..|attendance|] == attendance;
    FilterAgrees(IsEligible, Window(attendance + [rec], now), Window(attendance, now), referees);
  }

  /** A present record never makes an eligible referee ineligible. */
  lemma PresentRecordKeepsEligible(referees: seq<Referee>, attendance: seq<AttendanceRecord>,
                                   rec: AttendanceRecord, now: int)
    requires rec.present
    ensures forall r :: r in EligibleReferees(referees, attendance, now)
                    ==> r in EligibleReferees(referees, attendance + [rec], now)
  {
    assert (attendance + [rec])[..|attendance|] == attendance;
  }

  /** Five records of a referee inside the window, three of them present:
      60% is below the threshold, so the referee is not offered. */
  lemma ThreeOfFiveIsIneligible(referees: seq<Referee>, attendance: seq<AttendanceRecord>, now: int, r: Referee)
    requires |attendance| == 5
    requires forall i :: 0 <= i < 5 ==> attendance[i].refereeId == r.id && InWindow(attendance[i].date, now)
    requires forall i :: 0 <= i < 5 ==> (attendance[i].present <==> i < 3)
    ensures r !in EligibleReferees(referees, attendance, now)
  {
    assert attendance[..1][..0] == [];
    assert TallyOf(attendance[..1], r.id, now) == Tally(1, 1);
    assert attendance[..2][..1] == attendance[..1];
    assert TallyOf(attendance[..2], r.id, now) == Tally(2, 2);
    assert attendance[..3][..2] == attendance[..2];
    assert TallyOf(attendance[..3], r.id, now) == Tally(3, 3);
    assert attendance[..4][..3] == attendance[..3];
    assert TallyOf(attendance[..4], r.id, now) == Tally(3, 4);
    assert attendance[..4] == attendance[..|attendance| - 1];
    assert TallyOf(attendance, r.id, now) == Tally(3, 5);
  }
}

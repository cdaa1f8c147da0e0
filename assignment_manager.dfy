/** The state of `components/assignment-manager.tsx`: the add form, the edit
    form, the picked match day, the slot handlers that change them, the submit
    handlers that the conflict checker gates, and the list filter.

    A slot (`{ id, role }`) is an object that the handlers change in place, and
    that several assignments can share after the shallow copies the component
    makes, so it is a class; an assignment is a value that holds slot
    references. */
module AssignmentManager {
  import opened Lists
  import opened Text
  import opened AssignmentChecks

  class Slot {
    var id: string
    var role: string

    constructor (id: string, role: string)
      ensures this.id == id && this.role == role
    {
      this.id := id;
      this.role := role;
    }
  }

  datatype Assignment = Assignment(
    id: string,
    championshipId: string,
    matchName: string,
    matchDate: int,
    matchTime: string,
    location: string,
    notes: string,
    referees: seq<Slot>)

  /** The role a slot added by hand gets. */
  const AddedRole := "Cuarto Árbitro"

  /** The roles of the three slots of `DEFAULT_ASSIGNMENT`. */
  function DefaultRoles(): seq<string>
  {
    ["Árbitro Principal", "Árbitro Asistente 1", "Árbitro Asistente 2"]
  }

  /** The match time of `DEFAULT_ASSIGNMENT`. */
  const DefaultTime := "15:00"

  /** The referee ids the slots hold now, in slot order. */
  function SlotIds(slots: seq<Slot>): (ids: seq<string>)
    reads slots
    ensures |ids| == |slots| && forall i :: 0 <= i < |slots| ==> ids[i] == slots[i].id
  {
    if slots == [] then [] else SlotIds(slots[..|slots| - 1]) + [slots[|slots| - 1].id]
  }

  /** What the conflict checker reads of an assignment, now. */
  function BookingOf(a: Assignment): (b: Booking)
    reads a.referees
    ensures b.id == a.id && b.championshipId == a.championshipId
    ensures b.matchDate == a.matchDate && b.matchTime == a.matchTime
    ensures b.slotIds == SlotIds(a.referees)
  {
    Booking(a.id, a.championshipId, a.matchDate, a.matchTime, SlotIds(a.referees))
  }

  /** The slot objects of one assignment. */
  function SlotSet(a: Assignment): set<Slot>
  {
    set s | s in a.referees
  }

  /** Every slot object the assignments hold. */
  function AllSlots(assignments: seq<Assignment>): (slots: set<Slot>)
    ensures forall i :: 0 <= i < |assignments| ==> SlotSet(assignments[i]) <= slots
  {
    if assignments == [] then {}
    else
      AllSlots(assignments[..|assignments| - 1])
        + SlotSet(assignments[|assignments| - 1])
  }

  /** `prev.referees.filter((_, i) => i !== index)`. */
  function RemoveAt<T>(s: seq<T>, index: int): (r: seq<T>)
    ensures 0 <= index < |s| ==> r == s[..index] + s[index + 1..]
    ensures !(0 <= index < |s|) ==> r == s
  {
    if s == [] then []
    else if index == 0 then s[1..]
    else [s[0]] + RemoveAt(s[1..], index - 1)
  }

  /** The Select's "NONE" entry clears the slot. */
  function Chosen(refereeId: string): (id: string)
    ensures refereeId == "NONE" ==> id == ""
    ensures refereeId != "NONE" ==> id == refereeId
  {
    if refereeId == "NONE" then "" else refereeId
  }

  /** The search matches the lower-cased name of the referee some slot holds;
      a slot whose id names no referee matches nothing. */
  predicate SlotNamed(referees: seq<Referee>, term: string, id: string)
  {
    match FindReferee(referees, id)
    case Some(r) => Contains(Lower(r.name), term)
    case None => false
  }

  /** `matchesSearch && matchesChampionship` for one assignment. */
  predicate AssignmentMatches(referees: seq<Referee>, searchTerm: string, selected: string, a: Assignment)
    reads a.referees
  {
    var t := Lower(searchTerm);
    (Contains(Lower(a.matchName), t) || Contains(Lower(a.location), t)
     || exists i :: 0 <= i < |a.referees| && SlotNamed(referees, t, a.referees[i].id))
    && (selected == "all" || a.championshipId == selected)
  }

  /** `filteredAssignments`: the assignments the search and the championship
      selector keep, in list order. */
  function FilteredAssignments(assignments: seq<Assignment>, referees: seq<Referee>,
                               searchTerm: string, selected: string): (r: seq<Assignment>)
    reads AllSlots(assignments)
    ensures IsSublist(r, assignments)
    ensures forall a | a in r :: a in assignments && AssignmentMatches(referees, searchTerm, selected, a)
    ensures forall a | a in assignments :: AssignmentMatches(referees, searchTerm, selected, a) ==> a in r
    ensures forall a | a in assignments ::
              multiset(r)[a] == if AssignmentMatches(referees, searchTerm, selected, a) then multiset(assignments)[a] else 0
    ensures selected != "all" ==> forall a | a in r :: a.championshipId == selected
  {
    if assignments == [] then []
    else
      var init := assignments[..|assignments| - 1];
      var a := assignments[|assignments| - 1];
      assert assignments == init + [a];
      var rest := FilteredAssignments(init, referees, searchTerm, selected);
      assert multiset(assignments) == multiset(init) + multiset{a};
      if AssignmentMatches(referees, searchTerm, selected, a) then
        assert multiset(rest + [a]) == multiset(rest) + multiset{a};
        rest + [a]
      else rest
  }

  /** With the selector on "all" and an empty search box every assignment shows. */
  lemma {:induction false} ShowAllKeepsEverything(assignments: seq<Assignment>, referees: seq<Referee>)
    ensures FilteredAssignments(assignments, referees, "", "all") == assignments
  {
    if assignments != [] {
      var init := assignments[..|assignments| - 1];
      var a := assignments[|assignments| - 1];
      assert assignments == init + [a];
      ContainsEmpty(Lower(a.matchName));
      ShowAllKeepsEverything(init, referees);
    }
  }

  /** Three new empty slots with the default roles: the slots of
      `DEFAULT_ASSIGNMENT` as the module builds them when it loads, and the
      slots the corrected reset builds. */
  method NewDefaultSlots() returns (slots: seq<Slot>)
    ensures |slots| == 3 && forall i :: 0 <= i < 3 ==>
              fresh(slots[i]) && slots[i].id == "" && slots[i].role == DefaultRoles()[i]
    ensures forall i, j :: 0 <= i < j < 3 ==> slots[i] != slots[j]
  {
    var s0 := new Slot("", "Árbitro Principal");
    var s1 := new Slot("", "Árbitro Asistente 1");
    var s2 := new Slot("", "Árbitro Asistente 2");
    slots := [s0, s1, s2];
  }

  /** The component: its props, the shared default slots, and its state. */
  class Manager {
    const propReferees: seq<Referee>
    const championships: seq<Championship>
    const attendance: seq<AttendanceRecord>
    /** The stored assignments, as the checker reads them. */
    const assignments: seq<Booking>
    /** The slot objects of `DEFAULT_ASSIGNMENT`, and the day it was built on. */
    const defaultSlots: seq<Slot>
    const defaultDate: int
    var newAssignment: Assignment
    var editing: Option<Assignment>
    var matchDate: int

    /** `[...STATIC_REFEREES, ...propReferees]`. */
    function Referees(): (r: seq<Referee>)
      ensures |r| == |StaticReferees()| + |propReferees|
      ensures r[..|StaticReferees()|] == StaticReferees() && r[|StaticReferees()|..] == propReferees
    {
      StaticReferees() + propReferees
    }

    /** `{...DEFAULT_ASSIGNMENT}`: a shallow copy, holding the default slot objects. */
    function Default(): (a: Assignment)
      ensures a.id == a.championshipId == a.matchName == a.location == a.notes == ""
      ensures a.matchDate == defaultDate && a.matchTime == DefaultTime && a.referees == defaultSlots
    {
      Assignment("", "", "", defaultDate, DefaultTime, "", "", defaultSlots)
    }

    /** A handler's `isEditing && editingAssignment` test: the edit form is the
        target only when it is open. */
    predicate Editing(isEditing: bool)
      reads this
    {
      isEditing && editing.Some?
    }

    /** The form a handler works on. */
    function Form(isEditing: bool): (a: Assignment)
      reads this
      ensures Editing(isEditing) ==> a == editing.value
      ensures !Editing(isEditing) ==> a == newAssignment
    {
      if Editing(isEditing) then editing.value else newAssignment
    }

    /** Mounting: the add form is a shallow copy of `DEFAULT_ASSIGNMENT`, no
        edit is open, and today is the picked day. `DEFAULT_ASSIGNMENT` is built
        once, when the module loads, so its slot objects and its day are
        parameters: a later mount gets the same slots, with whatever ids the
        handlers of an earlier mount wrote into them. */
    constructor (propReferees: seq<Referee>, championships: seq<Championship>,
                 attendance: seq<AttendanceRecord>, assignments: seq<Booking>,
                 defaultSlots: seq<Slot>, defaultDate: int, today: int)
      ensures this.propReferees == propReferees && this.championships == championships
      ensures this.attendance == attendance && this.assignments == assignments
      ensures this.defaultSlots == defaultSlots && this.defaultDate == defaultDate
      ensures matchDate == today
      ensures newAssignment == Default() && editing == None
    {
      this.propReferees := propReferees;
      this.championships := championships;
      this.attendance := attendance;
      this.assignments := assignments;
      this.defaultSlots := defaultSlots;
      this.defaultDate := defaultDate;
      matchDate := today;
      newAssignment := Assignment("", "", "", defaultDate, DefaultTime, "", "", defaultSlots);
      editing := None;
    }

    /** `handleAddRefereeToAssignment`: a new empty slot with the fourth
        official's role goes at the end of the target form; nothing else moves. */
    method AddRefereeSlot(isEditing: bool) returns (slot: Slot)
      modifies this`newAssignment, this`editing
      ensures fresh(slot) && slot.id == "" && slot.role == AddedRole
      ensures old(Editing(isEditing)) ==>
        editing == Some(old(editing.value).(referees := old(editing.value.referees) + [slot]))
        && newAssignment == old(newAssignment)
      ensures !old(Editing(isEditing)) ==>
        newAssignment == old(newAssignment).(referees := old(newAssignment.referees) + [slot])
        && editing == old(editing)
    {
      slot := new Slot("", AddedRole);
      if isEditing && editing.Some? {
        editing := Some(editing.value.(referees := editing.value.referees + [slot]));
      } else {
        newAssignment := newAssignment.(referees := newAssignment.referees + [slot]);
      }
    }

    /** `handleRemoveRefereeFromAssignment`: slot `index` leaves the target
        form and the others keep their order; an index out of range changes
        nothing. */
    method RemoveRefereeSlot(index: int, isEditing: bool)
      modifies this`newAssignment, this`editing
      ensures Form(isEditing).referees == RemoveAt(old(Form(isEditing).referees), index)
      ensures Form(isEditing) == old(Form(isEditing)).(referees := Form(isEditing).referees)
      ensures Editing(isEditing) == old(Editing(isEditing))
      ensures old(Editing(isEditing)) ==> newAssignment == old(newAssignment)
      ensures !old(Editing(isEditing)) ==> editing == old(editing)
    {
      if isEditing && editing.Some? {
        editing := Some(editing.value.(referees := RemoveAt(editing.value.referees, index)));
      } else {
        newAssignment := newAssignment.(referees := RemoveAt(newAssignment.referees, index));
      }
    }

    /** `handleRoleChange`: writes the role into slot `index` itself, the object
        that the form shares with whatever else holds it. */
    method ChangeRole(index: int, role: string, isEditing: bool)
      requires 0 <= index < |Form(isEditing).referees|
      modifies Form(isEditing).referees[index]
      ensures Form(isEditing).referees[index].role == role
      ensures Form(isEditing).referees[index].id == old(Form(isEditing).referees[index].id)
    {
      var slot := Form(isEditing).referees[index];
      slot.role := role;
    }

    /** `handleRefereeChange` as written: the chosen id is written into slot
        `index` itself, and only then is the form checked. The messages are
        those of the checker on the changed form. Whether or not they are
        empty, the form's value is the one it had (the same slot objects) and
        the slot keeps the chosen id. */
    method ChangeReferee(index: int, refereeId: string, isEditing: bool) returns (errors: seq<Conflict>)
      requires 0 <= index < |Form(isEditing).referees|
      modifies Form(isEditing).referees[index]
      ensures Form(isEditing).referees[index].id == Chosen(refereeId)
      ensures Form(isEditing).referees[index].role == old(Form(isEditing).referees[index].role)
      ensures errors == Conflicts(BookingOf(Form(isEditing)), Editing(isEditing), assignments,
                                  Referees(), championships)
    {
      var slot := Form(isEditing).referees[index];
      slot.id := Chosen(refereeId);
      assert slot.role == old(slot.role);
      var b := BookingOf(Form(isEditing));
      errors := CheckDuplicateReferees(b, Editing(isEditing), assignments, Referees(), championships);
      assert b == BookingOf(Form(isEditing));
    }

    /** Puts `slot` at position `index` of the target form. */
    method PutSlot(index: int, slot: Slot, isEditing: bool)
      requires 0 <= index < |Form(isEditing).referees|
      modifies this`newAssignment, this`editing
      ensures Editing(isEditing) == old(Editing(isEditing))
      ensures Form(isEditing) == old(Form(isEditing)).(referees := old(Form(isEditing)).referees[index := slot])
      ensures old(Editing(isEditing)) ==> newAssignment == old(newAssignment)
      ensures !old(Editing(isEditing)) ==> editing == old(editing)
    {
      var form := Form(isEditing);
      var updated := form.(referees := form.referees[index := slot]);
      if isEditing && editing.Some? {
        editing := Some(updated);
      } else {
        newAssignment := updated;
      }
    }

    /** `handleRefereeChange` corrected: the change is checked on the form as
        it would be, and only a clean change is made, by putting a new slot
        object with the chosen id and the old role at `index`. A rejected change
        leaves everything as it was, and no slot object is ever written. */
    method ChangeRefereeChecked(index: int, refereeId: string, isEditing: bool) returns (errors: seq<Conflict>)
      requires 0 <= index < |Form(isEditing).referees|
      modifies this`newAssignment, this`editing
      ensures var before := old(BookingOf(Form(isEditing)));
        errors == Conflicts(before.(slotIds := before.slotIds[index := Chosen(refereeId)]),
                            old(Editing(isEditing)), assignments, Referees(), championships)
      ensures errors != [] ==> newAssignment == old(newAssignment) && editing == old(editing)
      ensures errors == [] ==>
        Editing(isEditing) == old(Editing(isEditing))
        && |Form(isEditing).referees| == |old(Form(isEditing)).referees|
        && Form(isEditing) == old(Form(isEditing)).(referees := old(Form(isEditing)).referees[index := Form(isEditing).referees[index]])
        && fresh(Form(isEditing).referees[index])
        && Form(isEditing).referees[index].id == Chosen(refereeId)
        && Form(isEditing).referees[index].role == old(Form(isEditing).referees[index].role)
      ensures errors == [] && old(Editing(isEditing)) ==> newAssignment == old(newAssignment)
      ensures errors == [] && !old(Editing(isEditing)) ==> editing == old(editing)
    {
      var b := BookingOf(Form(isEditing));
      var tentative := b.(slotIds := b.slotIds[index := Chosen(refereeId)]);
      errors := CheckDuplicateReferees(tentative, Editing(isEditing), assignments, Referees(), championships);
      if errors != [] {
        return;
      }
      var slot := new Slot(Chosen(refereeId), Form(isEditing).referees[index].role);
      PutSlot(index, slot, isEditing);
    }

    /** The calendars' `onSelect`: a cleared picker changes nothing; a day
        becomes the picked day and the target form's match day. */
    method PickDate(date: Option<int>, isEditing: bool)
      modifies this`newAssignment, this`editing, this`matchDate
      ensures date.None? ==> newAssignment == old(newAssignment) && editing == old(editing) && matchDate == old(matchDate)
      ensures date.Some? ==> matchDate == date.value
      ensures date.Some? && isEditing ==>
        newAssignment == old(newAssignment)
        && editing == (if old(editing).Some? then Some(old(editing).value.(matchDate := date.value)) else None)
      ensures date.Some? && !isEditing ==>
        newAssignment == old(newAssignment).(matchDate := date.value) && editing == old(editing)
    {
      if date.None? {
        return;
      }
      matchDate := date.value;
      if isEditing {
        if editing.Some? {
          editing := Some(editing.value.(matchDate := date.value));
        }
      } else {
        newAssignment := newAssignment.(matchDate := date.value);
      }
    }

    /** `startEdit`: a shallow copy of the stored assignment becomes the edit
        form (the same slot objects) and its day the picked day. */
    method StartEdit(a: Assignment)
      modifies this`editing, this`matchDate
      ensures editing == Some(a) && matchDate == a.matchDate
      ensures newAssignment == old(newAssignment)
    {
      editing := Some(a);
      matchDate := a.matchDate;
    }

    /** `handleAddSubmit` as written: the add form is checked in add mode; on
        any message nothing is emitted and nothing changes. Otherwise the form
        goes out under a fresh id with the picked day, and the form is reset to
        the shallow copy of `DEFAULT_ASSIGNMENT`, whose slots are the default
        slot objects, however the handlers changed them. */
    method AddSubmit(freshId: string, today: int) returns (errors: seq<Conflict>, emitted: Option<Assignment>)
      modifies this`newAssignment, this`matchDate
      ensures errors == Conflicts(old(BookingOf(newAssignment)), false, assignments, Referees(), championships)
      ensures emitted.Some? <==> errors == []
      ensures emitted.None? ==> newAssignment == old(newAssignment) && matchDate == old(matchDate)
      ensures emitted.Some? ==>
        emitted.value == old(newAssignment).(id := freshId, matchDate := old(matchDate))
        && newAssignment == Default() && matchDate == today
    {
      var b := BookingOf(newAssignment);
      errors := CheckDuplicateReferees(b, false, assignments, Referees(), championships);
      if errors != [] {
        emitted := None;
        return;
      }
      emitted := Some(newAssignment.(id := freshId, matchDate := matchDate));
      newAssignment := Default();
      matchDate := today;
    }

    /** `handleAddSubmit` corrected: as above, but the reset form gets three
        new empty slots with the default roles, so it shares no slot with the
        assignment just emitted. */
    method AddSubmitFreshForm(freshId: string, today: int) returns (errors: seq<Conflict>, emitted: Option<Assignment>)
      modifies this`newAssignment, this`matchDate
      ensures errors == Conflicts(old(BookingOf(newAssignment)), false, assignments, Referees(), championships)
      ensures emitted.Some? <==> errors == []
      ensures emitted.None? ==> newAssignment == old(newAssignment) && matchDate == old(matchDate)
      ensures emitted.Some? ==>
        emitted.value == old(newAssignment).(id := freshId, matchDate := old(matchDate))
        && newAssignment == Default().(referees := newAssignment.referees) && matchDate == today
        && |newAssignment.referees| == 3
        && forall i :: 0 <= i < 3 ==>
             fresh(newAssignment.referees[i]) && newAssignment.referees[i].id == ""
             && newAssignment.referees[i].role == DefaultRoles()[i]
    {
      var b := BookingOf(newAssignment);
      errors := CheckDuplicateReferees(b, false, assignments, Referees(), championships);
      if errors != [] {
        emitted := None;
        return;
      }
      emitted := Some(newAssignment.(id := freshId, matchDate := matchDate));
      var slots := NewDefaultSlots();
      newAssignment := Default().(referees := slots);
      matchDate := today;
    }

    /** `handleEditSubmit`: with no edit open nothing happens; otherwise the
        edit form is checked in edit mode, and when clean it goes out under its
        own id with the picked day and the edit closes. */
    method EditSubmit() returns (errors: seq<Conflict>, emitted: Option<(string, Assignment)>)
      modifies this`editing
      ensures old(editing).None? ==> errors == [] && emitted.None? && editing == None
      ensures old(editing).Some? ==>
        errors == Conflicts(old(BookingOf(editing.value)), true, assignments, Referees(), championships)
      ensures emitted.Some? <==> old(editing).Some? && errors == []
      ensures emitted.Some? ==>
        emitted.value == (old(editing).value.id, old(editing).value.(matchDate := matchDate)) && editing == None
      ensures emitted.None? ==> editing == old(editing)
    {
      if editing.None? {
        return [], None;
      }
      var e := editing.value;
      errors := CheckDuplicateReferees(BookingOf(e), true, assignments, Referees(), championships);
      if errors != [] {
        emitted := None;
        return;
      }
      emitted := Some((e.id, e.(matchDate := matchDate)));
      editing := None;
    }
  }

  /** Two slots holding referee "1" are rejected, whatever else is stored. */
  lemma PickingOneRefereeTwiceIsRejected(b: Booking, isEditing: bool, existing: seq<Booking>,
                                         referees: seq<Referee>, championships: seq<Championship>)
    requires b.slotIds == ["1", "1", ""]
    ensures Conflicts(b, isEditing, existing, referees, championships) != []
  {
    assert multiset(b.slotIds)["1"] == 2;
    DuplicateReportedIff(b, isEditing, existing, referees, championships, "1");
  }

  /** One filled slot and nothing stored: no message. */
  lemma SinglePickIsClean(b: Booking, referees: seq<Referee>, championships: seq<Championship>)
    requires b.slotIds == ["1", "", ""]
    ensures Conflicts(b, false, [], referees, championships) == []
  {
    assert multiset(b.slotIds)["1"] == 1;
    ConflictsEmptyIff(b, false, [], referees, championships);
  }

  /** A new add form, nothing stored, with referee "1" picked for the first slot. */
  method FormWithOnePick() returns (m: Manager)
    ensures fresh(m) && m.assignments == [] && m.championships == [] && m.propReferees == []
    ensures m.newAssignment == m.Default() && m.matchDate == 0 && m.editing == None
    ensures |m.defaultSlots| == 3 && forall i :: 0 <= i < 3 ==> fresh(m.defaultSlots[i])
    ensures forall i, j :: 0 <= i < j < 3 ==> m.defaultSlots[i] != m.defaultSlots[j]
    ensures m.defaultSlots[0].id == "1" && m.defaultSlots[1].id == "" && m.defaultSlots[2].id == ""
  {
    var slots := NewDefaultSlots();
    m := new Manager([], [], [], [], slots, 0, 0);
    var errors := m.ChangeReferee(0, "1", false);
  }

  /** A second mount of the component starts with the referee picked in the
      first one: both copies of `DEFAULT_ASSIGNMENT` hold the same slots. */
  method SecondMountKeepsPick() returns (second: Manager)
    ensures second.editing == None
    ensures SlotIds(second.newAssignment.referees) == ["1", "", ""]
  {
    var first := FormWithOnePick();
    second := new Manager([], [], [], [], first.defaultSlots, first.defaultDate, 1);
    assert second.newAssignment.referees == first.defaultSlots;
  }

  /** A change that the checker rejects stays in the form: on a new add form,
      picking referee "1" for the first two slots reports the duplicate and
      leaves both slots holding "1". */
  method RejectedChangeStays() returns (m: Manager, errors: seq<Conflict>)
    ensures errors != []
    ensures SlotIds(m.newAssignment.referees) == ["1", "1", ""]
  {
    m := FormWithOnePick();
    var slots := m.newAssignment.referees;
    assert slots == m.defaultSlots;
    errors := m.ChangeReferee(1, "1", false);
    assert m.newAssignment.referees == slots && |slots| == 3;
    assert slots[0].id == "1" && slots[1].id == "1" && slots[2].id == "";
    assert SlotIds(slots) == ["1", "1", ""];
    PickingOneRefereeTwiceIsRejected(BookingOf(m.Form(false)), m.Editing(false), m.assignments, m.Referees(), m.championships);
  }

  /** After a clean add, the reset form is not blank: it holds the slot objects
      of the assignment just emitted, with the referees picked for it. */
  method ResetFormKeepsReferees() returns (m: Manager, emitted: Option<Assignment>)
    ensures emitted.Some?
    ensures m.newAssignment.referees == emitted.value.referees
    ensures SlotIds(m.newAssignment.referees) == ["1", "", ""]
  {
    m := FormWithOnePick();
    assert SlotIds(m.newAssignment.referees) == ["1", "", ""];
    SinglePickIsClean(BookingOf(m.newAssignment), m.Referees(), []);
    var errors;
    errors, emitted := m.AddSubmit("a1", 0);
  }

  /** With the corrected submit the reset form is blank again. */
  method ResetFormIsBlank() returns (m: Manager, emitted: Option<Assignment>)
    ensures emitted.Some?
    ensures SlotIds(emitted.value.referees) == ["1", "", ""]
    ensures SlotIds(m.newAssignment.referees) == ["", "", ""]
  {
    m := FormWithOnePick();
    var picked := m.newAssignment.referees;
    assert SlotIds(picked) == ["1", "", ""];
    SinglePickIsClean(BookingOf(m.newAssignment), m.Referees(), m.championships);
    var errors;
    errors, emitted := m.AddSubmitFreshForm("a1", 0);
    assert emitted.value.referees == picked;
    assert |m.newAssignment.referees| == 3 && m.newAssignment.referees[0].id == ""
        && m.newAssignment.referees[1].id == "" && m.newAssignment.referees[2].id == "";
  }
}

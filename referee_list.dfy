/** The referee registry screen: its search filter and the record its "add" form
    submits. Types are the component's own (`components/referee-list.tsx`). */
module RefereeList {
  import opened Lists
  import opened Text

  datatype Referee = Referee(
    id: string,
    name: string,
    phone: string,
    email: string,
    category: string,
    active: bool)

  /** A referee answers the search when the lower-cased term occurs in its
      lower-cased name, e-mail or category; the phone is not searched. */
  predicate RefereeMatches(searchTerm: string, r: Referee)
  {
    var t := Lower(searchTerm);
    Contains(Lower(r.name), t) || Contains(Lower(r.email), t) || Contains(Lower(r.category), t)
  }

  /** `filteredReferees`: the referees that answer the search, in list order. */
  function FilteredReferees(referees: seq<Referee>, searchTerm: string): (r: seq<Referee>)
    ensures IsSublist(r, referees)
    ensures forall x :: x in r <==> x in referees && RefereeMatches(searchTerm, x)
  {
    Filter(RefereeMatches, searchTerm, referees)
  }

  /** An empty search box shows every referee. */
  lemma EmptySearchKeepsAll(referees: seq<Referee>)
    ensures FilteredReferees(referees, "") == referees
  {
    forall x | x in referees
      ensures RefereeMatches("", x)
    {
      ContainsEmpty(Lower(x.name));
    }
    FilterKeepsAll(RefereeMatches, "", referees);
  }

  /** Filtering the shown list again with the same term shows the same list. */
  lemma FilterRefereesIdempotent(referees: seq<Referee>, searchTerm: string)
    ensures FilteredReferees(FilteredReferees(referees, searchTerm), searchTerm)
         == FilteredReferees(referees, searchTerm)
  {
    FilterIdempotent(RefereeMatches, searchTerm, referees);
  }

  /** Typing more narrows the list: when `shorter` is a piece of `longer`, the
      referees shown for `longer` are an order-preserving sub-list of those shown
      for `shorter`, and are what filtering that list by `longer` gives. */
  lemma LongerTermNarrows(referees: seq<Referee>, shorter: string, longer: string)
    requires Contains(longer, shorter)
    ensures IsSublist(FilteredReferees(referees, longer), FilteredReferees(referees, shorter))
    ensures FilteredReferees(referees, longer)
         == FilteredReferees(FilteredReferees(referees, shorter), longer)
  {
    LowerContains(longer, shorter);
    forall x | x in referees && RefereeMatches(longer, x)
      ensures RefereeMatches(shorter, x)
    {
      var lt, st := Lower(longer), Lower(shorter);
      if Contains(Lower(x.name), lt) {
        ContainsTransitive(st, lt, Lower(x.name));
      } else if Contains(Lower(x.email), lt) {
        ContainsTransitive(st, lt, Lower(x.email));
      } else {
        ContainsTransitive(st, lt, Lower(x.category));
      }
    }
    FilterNarrower(RefereeMatches, shorter, longer, referees);
  }

  /** The state of the "add" form when the dialog first opens and after a submit. */
  function BlankForm(): (f: Referee)
    ensures f.name == f.phone == f.email == f.id == ""
    ensures f.category == "Nacional" && f.active
  {
    Referee("", "", "", "", "Nacional", true)
  }

  /** `handleAddSubmit`: the record handed to `onAddReferee` and the reset form.
      The record is the form with its id replaced by the fresh one. */
  function AddSubmit(form: Referee, freshId: string): (out: (Referee, Referee))
    ensures out.0.id == freshId
    ensures out.0.(id := form.id) == form
    ensures out.1 == BlankForm()
  {
    (form.(id := freshId), BlankForm())
  }
}

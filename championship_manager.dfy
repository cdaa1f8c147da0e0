/** The championship registry screen: its search filter and the records its add
    and edit forms submit. Dates are day numbers (the `yyyy-MM-dd` strings of
    the source name one day each); the date pickers are parameters. */
module ChampionshipManager {
  import opened Lists
  import opened Text

  datatype Championship = Championship(
    id: string,
    name: string,
    location: string,
    startDate: int,
    endDate: int,
    description: string)

  /** A championship answers the search when the lower-cased term occurs in its
      lower-cased name, location or description. */
  predicate ChampionshipMatches(searchTerm: string, c: Championship)
  {
    var t := Lower(searchTerm);
    Contains(Lower(c.name), t) || Contains(Lower(c.location), t) || Contains(Lower(c.description), t)
  }

  /** `filteredChampionships`: the championships that answer the search, in order. */
  function FilteredChampionships(championships: seq<Championship>, searchTerm: string): (r: seq<Championship>)
    ensures IsSublist(r, championships)
    ensures forall c :: c in r <==> c in championships && ChampionshipMatches(searchTerm, c)
  {
    Filter(ChampionshipMatches, searchTerm, championships)
  }

  /** An empty search box shows every championship. */
  lemma EmptySearchKeepsAll(championships: seq<Championship>)
    ensures FilteredChampionships(championships, "") == championships
  {
    forall c | c in championships
      ensures ChampionshipMatches("", c)
    {
      ContainsEmpty(Lower(c.name));
    }
    FilterKeepsAll(ChampionshipMatches, "", championships);
  }

  /** Filtering the shown list again with the same term shows the same list. */
  lemma FilterChampionshipsIdempotent(championships: seq<Championship>, searchTerm: string)
    ensures FilteredChampionships(FilteredChampionships(championships, searchTerm), searchTerm)
         == FilteredChampionships(championships, searchTerm)
  {
    FilterIdempotent(ChampionshipMatches, searchTerm, championships);
  }

  /** `handleAddSubmit`: the form's fields under a fresh id, with the dates taken
      from the two pickers. Nothing checks that the start precedes the end. */
  function AddSubmit(form: Championship, freshId: string, startPick: int, endPick: int): (c: Championship)
    ensures c.id == freshId && c.startDate == startPick && c.endDate == endPick
    ensures c.name == form.name && c.location == form.location && c.description == form.description
  {
    form.(id := freshId, startDate := startPick, endDate := endPick)
  }

  /** `handleEditSubmit`: with no championship being edited nothing is emitted;
      otherwise the edited championship keeps its id and takes the pickers'
      dates, and the pair (id, record) is what `onUpdateChampionship` receives. */
  function EditSubmit(editing: Option<Championship>, startPick: int, endPick: int): (out: Option<(string, Championship)>)
    ensures editing.None? <==> out.None?
    ensures editing.Some? ==>
      out.value.0 == editing.value.id && out.value.1.id == editing.value.id
      && out.value.1.(startDate := editing.value.startDate, endDate := editing.value.endDate) == editing.value
      && out.value.1.startDate == startPick && out.value.1.endDate == endPick
  {
    match editing
    case None => None
    case Some(e) => Some((e.id, e.(startDate := startPick, endDate := endPick)))
  }

  /** Neither submit compares the pickers: a championship that ends before it
      starts is added, and an edit can give a stored championship such a range. */
  lemma ReversedRangeAccepted(form: Championship, freshId: string, editing: Option<Championship>,
                              startPick: int, endPick: int)
    requires endPick < startPick
    ensures var c := AddSubmit(form, freshId, startPick, endPick);
      c.endDate < c.startDate
    ensures editing.Some? ==>
      var out := EditSubmit(editing, startPick, endPick);
      out.Some? && out.value.1.endDate < out.value.1.startDate
  {
  }
}

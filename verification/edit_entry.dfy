/** The edit-entry page: the entry is looked up by the route's id; a
    missing entry sends the user back to the dashboard and renders nothing,
    and a found one is edited with a type derived from its template id. */
module EditEntry {
  import opened Optional
  import opened Types
  import Text
  import JournalStore
  import JournalCard

  /** What the page does. */
  datatype View = Redirect | Blank | Editing(entry: Entry, ttype: TemplateType)

  /** `state.entries.find(e => e.id === id)`; without a route id nothing
      matches. */
  function EntryFor(entries: seq<Entry>, id: Option<string>): (r: Option<Entry>)
    ensures id.None? ==> r.None?
    ensures id.Some? ==> r == JournalStore.EntryById(entries, id.value)
  {
    match id
    case None => None
    case Some(s) => JournalStore.EntryById(entries, s)
  }

  /** `entry?.templateId === '1' ? 'sod' : 'eod'`. */
  function EditType(e: Entry): (t: TemplateType)
    ensures t == Sod <==> JournalCard.HasTemplate(e, "1")
  {
    if e.templateId == Some("1") then Sod else Eod
  }

  /** The page: redirect when a truthy id finds no entry, nothing at all
      when there is neither an entry nor a truthy id, the form otherwise. */
  function Render(entries: seq<Entry>, id: Option<string>): (v: View)
    ensures v.Editing? <==> EntryFor(entries, id).Some?
    ensures v.Redirect? <==> Text.Truthy(id) && EntryFor(entries, id).None?
    ensures v.Editing? ==> v.entry == EntryFor(entries, id).value && v.ttype == EditType(v.entry)
  {
    var e := EntryFor(entries, id);
    if e.Some? then Editing(e.value, EditType(e.value))
    else if Text.Truthy(id) then Redirect
    else Blank
  }

  /** The form edits the first entry with the route's id, and a route id
      names an existing entry exactly when the form is shown. */
  lemma RenderFindsEntry(entries: seq<Entry>, id: string)
    ensures Render(entries, Some(id)).Editing? <==> JournalStore.HasEntry(entries, id)
    ensures Render(entries, Some(id)).Editing? ==>
      exists i :: 0 <= i < |entries| && entries[i] == Render(entries, Some(id)).entry && entries[i].id == id
        && forall j :: 0 <= j < i ==> entries[j].id != id
  {
  }

  /** An evening card edits as an evening entry, and only a morning
      template id edits as a morning one; every other template id, and none,
      edits as evening. */
  lemma EditTypeMatchesCard(e: Entry)
    ensures JournalCard.IsEvening(e) ==> EditType(e) == Eod
    ensures e.templateId.None? ==> EditType(e) == Eod
    ensures EditType(e) == Sod ==> !JournalCard.IsEvening(e)
  {
  }
}

/** The new-entry page: the `type` query parameter is validated into a
    template type, and the page's title follows the validated type. */
module NewEntry {
  import opened Optional
  import opened Types
  import CalendarView

  /** `typeParam === 'sod' || typeParam === 'eod' ? typeParam : 'sod'`; a
      missing parameter is `None`. */
  function ValidatedType(typeParam: Option<string>): (t: TemplateType)
    ensures typeParam == Some("sod") ==> t == Sod
    ensures typeParam == Some("eod") ==> t == Eod
    ensures typeParam != Some("sod") && typeParam != Some("eod") ==> t == Sod
  {
    match typeParam
    case None => Sod
    case Some(s) => ParseTemplateType(s).GetOr(Sod)
  }

  /** Validating is idempotent: the validated type, written back as a
      parameter, validates to itself; and each type's own name is kept. */
  lemma ValidatedTypeStable(typeParam: Option<string>, t: TemplateType)
    ensures ValidatedType(Some(TemplateTypeName(ValidatedType(typeParam)))) == ValidatedType(typeParam)
    ensures ValidatedType(Some(TemplateTypeName(t))) == t
  {
  }

  /** The link the calendar builds for a selected day opens the page for
      the type it was built for. */
  lemma CalendarLinkType(selected: Option<int>, dayOf: int -> string, t: TemplateType)
    requires selected.Some?
    ensures CalendarView.CreateEntryLink(selected, dayOf, t).value
      == "/entry/new?type=" + TemplateTypeName(t) + "&date=" + dayOf(selected.value)
    ensures ValidatedType(Some(TemplateTypeName(t))) == t
  {
  }

  /** `document.title`, chosen by the validated type alone. */
  function PageTitle(t: TemplateType): (title: string)
    ensures t == Sod <==> title == "New Morning Journal Entry | Echo of Self"
    ensures t == Eod <==> title == "New Evening Journal Entry | Echo of Self"
  {
    var morning, evening := "New Morning Journal Entry | Echo of Self", "New Evening Journal Entry | Echo of Self";
    assert morning[4] != evening[4];
    match t
    case Sod => morning
    case Eod => evening
  }
}

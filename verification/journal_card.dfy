/** One entry as a card: morning or evening by template id, a preview of
    the first answer cut at 100 characters, and a label per rated
    category. Also the template-id tests the dashboard and the calendar
    filter by. */
module JournalCard {
  import opened Optional
  import opened Types
  import Records
  import Text

  /** `entry.templateId === id`; a null template id matches nothing. */
  predicate HasTemplate(e: Entry, id: string) {
    e.templateId == Some(id)
  }

  /** The filter `entry => entry.templateId === id`. */
  function WithTemplate(id: string): Entry -> bool {
    (e: Entry) => HasTemplate(e, id)
  }

  /** `entry.templateId === '2'`. */
  predicate IsEvening(e: Entry) {
    HasTemplate(e, "2")
  }

  function Title(e: Entry): (t: string)
    ensures t == "Evening Reflection" <==> IsEvening(e)
    ensures t == "Morning Reflection" <==> !IsEvening(e)
  {
    if IsEvening(e) then "Evening Reflection" else "Morning Reflection"
  }

  /** `Object.values(entry.answers)[0]?.value || ''`: the value of the first
      answer in enumeration order, empty without answers. */
  function FirstAnswerValue(answers: Records.Record<Answer>): (v: string)
    ensures answers == [] ==> v == ""
    ensures answers != [] ==> v == answers[0].value.value
  {
    if answers == [] then "" else answers[0].value.value
  }

  /** The card's preview. */
  function Preview(e: Entry): string {
    Text.Truncate(FirstAnswerValue(e.answers), 100)
  }

  /** The preview is the first answer when it has at most 100 characters,
      otherwise its first 100 followed by "..."; it is never longer than
      103 and, without the dots, always a prefix of the answer. */
  lemma PreviewShape(e: Entry)
    ensures var v, p := FirstAnswerValue(e.answers), Preview(e);
      && |p| <= 103
      && (|v| <= 100 ==> p == v)
      && (|v| > 100 ==> p == v[..100] + "...")
      && Text.StartsWith(v, if |v| > 100 then p[..100] else p)
  {
  }

  /** The label shown for a rating's category id. */
  function CategoryLabel(categoryId: string): (name: string)
    ensures categoryId == "1" <==> name == "Energy"
    ensures categoryId == "2" <==> name == "Mood"
    ensures categoryId == "3" <==> name == "Productivity"
    ensures categoryId == "4" <==> name == "Stress"
    ensures categoryId !in {"1", "2", "3", "4"} <==> name == "Satisfaction"
  {
    if categoryId == "1" then "Energy"
    else if categoryId == "2" then "Mood"
    else if categoryId == "3" then "Productivity"
    else if categoryId == "4" then "Stress"
    else "Satisfaction"
  }
}

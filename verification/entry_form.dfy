/** The journal entry form: it picks the template and the rating
    categories for a morning or evening entry, keeps the answers and the
    ratings as plain objects keyed by question id and by category id, loads
    them from the entry being edited, lets the user add custom questions,
    and on submit hands the answers and the ratings (as an array) to the
    store. */
module EntryForm {
  import opened Optional
  import opened Types
  import Records
  import Text
  import Seqs
  import JournalStore

  /** The test `t => t.type === type`. */
  function TemplateOfType(ttype: TemplateType): Template -> bool {
    (t: Template) => t.ttype == ttype
  }

  /** `templates.find(t => t.type === type) || templates[0]`: the first
      template of the type, else the first template; none when there are no
      templates at all. */
  function SelectTemplate(ts: seq<Template>, ttype: TemplateType): (r: Option<Template>)
    ensures r.None? <==> ts == []
    ensures r.Some? ==> r.value in ts
    ensures (exists i :: 0 <= i < |ts| && ts[i].ttype == ttype) ==> r.Some? && r.value.ttype == ttype
    ensures (forall i :: 0 <= i < |ts| ==> ts[i].ttype != ttype) && ts != [] ==> r == Some(ts[0])
  {
    var i := Seqs.FirstIndex(ts, TemplateOfType(ttype));
    if i < |ts| then Some(ts[i]) else if ts != [] then Some(ts[0]) else None
  }

  function CategoryOfType(ttype: TemplateType): Category -> bool {
    (c: Category) => c.ctype == ttype
  }

  /** `categories.filter(c => c.type === type)`. */
  function CategoriesFor(cs: seq<Category>, ttype: TemplateType): (r: seq<Category>)
    ensures |r| <= |cs|
  {
    Seqs.Filter(cs, CategoryOfType(ttype))
  }

  /** The form rates exactly the categories of its type, in their order. */
  lemma CategoriesForExact(cs: seq<Category>, ttype: TemplateType, c: Category)
    ensures c in CategoriesFor(cs, ttype) <==> c in cs && c.ctype == ttype
    ensures (forall i :: 0 <= i < |cs| ==> cs[i].ctype == ttype) ==> CategoriesFor(cs, ttype) == cs
  {
    Seqs.FilterMembership(cs, CategoryOfType(ttype), c);
    if forall i :: 0 <= i < |cs| ==> cs[i].ctype == ttype {
      Seqs.FilterAllPass(cs, CategoryOfType(ttype));
    }
  }

  // ------------------------------------------------------------------ ratings

  function RatingField(r: Rating): Records.Field<int> {
    Records.Field(r.category, r.value)
  }

  function RatingFields(rs: seq<Rating>): (fs: seq<Records.Field<int>>)
    ensures |fs| == |rs| && forall i :: 0 <= i < |rs| ==> fs[i] == RatingField(rs[i])
  {
    seq(|rs|, i requires 0 <= i < |rs| => RatingField(rs[i]))
  }

  /** The edit-load loop: `ratingValues[r.category] = r.value` for each
      rating of the entry, in order. The result is the record built by those
      assignments: well formed, and holding for each category the value of
      its last rating. */
  method LoadRatings(rs: seq<Rating>) returns (values: Records.Record<int>)
    ensures values == Records.FromFields(RatingFields(rs))
    ensures Records.WellFormed(values)
  {
    values := [];
    var i := 0;
    while i < |rs|
      invariant 0 <= i <= |rs|
      invariant values == Records.FromFields(RatingFields(rs[..i]))
    {
      var fs := RatingFields(rs[..i + 1]);
      assert fs[..i] == RatingFields(rs[..i]);
      values := Records.Put(values, rs[i].category, rs[i].value);
      i := i + 1;
    }
    assert rs[..i] == rs;
    Records.FromFieldsGet(RatingFields(rs), "");
  }

  /** The value of the last rating of category `k`. */
  function LastRatingOf(rs: seq<Rating>, k: string): Option<int> {
    if rs == [] then None
    else if rs[|rs| - 1].category == k then Some(rs[|rs| - 1].value)
    else LastRatingOf(rs[..|rs| - 1], k)
  }

  lemma {:induction false} LastRatingOfFields(rs: seq<Rating>, k: string)
    ensures Records.LastValue(RatingFields(rs), k) == LastRatingOf(rs, k)
  {
    if rs != [] {
      assert RatingFields(rs)[..|rs| - 1] == RatingFields(rs[..|rs| - 1]);
      LastRatingOfFields(rs[..|rs| - 1], k);
    }
  }

  /** After the edit-load, each category shows the value of its last rating
      in the entry: a later rating overwrites an earlier one. */
  lemma LoadedRatingIsLast(rs: seq<Rating>, k: string)
    ensures Records.Get(Records.FromFields(RatingFields(rs)), k) == LastRatingOf(rs, k)
  {
    Records.FromFieldsGet(RatingFields(rs), k);
    LastRatingOfFields(rs, k);
  }

  /** `Object.entries(ratings).map(([category, value]) => ({category, value}))`:
      one item per key, in the object's enumeration order. */
  function RatingsArray(ratings: Records.Record<int>): (a: seq<RatingInput>)
    ensures |a| == |ratings|
    ensures forall i :: 0 <= i < |a| ==> a[i].category == Records.Keys(ratings)[i] && a[i].value == ratings[i].value
  {
    seq(|ratings|, i requires 0 <= i < |ratings| => RatingInput(ratings[i].key, ratings[i].value))
  }

  /** Submitting the ratings and loading the stored entry back for editing
      gives the form the same ratings object: the map-to-array conversion
      and the edit-load loop are inverse. */
  lemma RatingsRoundTrip(ratings: Records.Record<int>, ids: seq<string>, times: seq<int>)
    requires Records.WellFormed(ratings)
    requires |ids| == |ratings| && |times| == |ratings|
    ensures Records.FromFields(RatingFields(JournalStore.StampRatings(RatingsArray(ratings), ids, times))) == ratings
  {
    var stored := JournalStore.StampRatings(RatingsArray(ratings), ids, times);
    assert RatingFields(stored) == ratings;
    Records.FromFieldsRoundTrip(ratings);
  }

  /** `ratings[category.id] || 5`: the value shown for a category, 5 when it
      has none or when it is 0. */
  function DisplayedRating(ratings: Records.Record<int>, categoryId: string): (v: int)
    ensures v != 0
    ensures Records.Get(ratings, categoryId).None? ==> v == 5
    ensures v == 5 || Records.Get(ratings, categoryId) == Some(v)
  {
    match Records.Get(ratings, categoryId)
    case None => 5
    case Some(x) => if x == 0 then 5 else x
  }

  /** `handleRatingChange`: only that category's value changes. */
  function RatingChanged(ratings: Records.Record<int>, categoryId: string, value: int): Records.Record<int> {
    Records.Put(ratings, categoryId, value)
  }

  lemma RatingChangedEffect(ratings: Records.Record<int>, categoryId: string, value: int, other: string)
    ensures Records.Get(RatingChanged(ratings, categoryId, value), categoryId) == Some(value)
    ensures other != categoryId ==>
      Records.Get(RatingChanged(ratings, categoryId, value), other) == Records.Get(ratings, other)
  {
    Records.PutGet(ratings, categoryId, value);
    if other != categoryId {
      Records.PutOther(ratings, categoryId, value, other);
    }
  }

  // ------------------------------------------------------------------ answers

  /** The test `q => q.id === id`. */
  function QuestionIdIs(id: string): Question -> bool {
    (q: Question) => q.id == id
  }

  /** `questions.find(q => q.id === id)?.text`. */
  function TextOf(qs: seq<Question>, id: string): (r: Option<string>)
    ensures r.Some? ==> exists i :: 0 <= i < |qs| && qs[i].id == id && qs[i].text == r.value
    ensures r.None? <==> forall i :: 0 <= i < |qs| ==> qs[i].id != id
  {
    var i := Seqs.FirstIndex(qs, QuestionIdIs(id));
    if i < |qs| then Some(qs[i].text) else None
  }

  /** The `text` stored with an answer: the template question's text, else
      the custom question's text, else empty; an empty text counts as
      missing at each step (`||`). */
  function AnswerText(templateQs: seq<Question>, customQs: seq<Question>, id: string): (t: string)
    ensures TextOf(templateQs, id).Some? && TextOf(templateQs, id).value != "" ==> t == TextOf(templateQs, id).value
    ensures t != "" ==> t == TextOf(templateQs, id).GetOr("") || t == TextOf(customQs, id).GetOr("")
    ensures TextOf(templateQs, id).None? && TextOf(customQs, id).None? ==> t == ""
  {
    var a := TextOf(templateQs, id).GetOr("");
    if a != "" then a else TextOf(customQs, id).GetOr("")
  }

  /** `handleAnswerChange`: `answers[questionId] = {text, value}`. */
  function AnswerChanged(answers: Records.Record<Answer>, templateQs: seq<Question>, customQs: seq<Question>,
                         questionId: string, value: string): Records.Record<Answer> {
    Records.Put(answers, questionId, Answer(AnswerText(templateQs, customQs, questionId), value))
  }

  /** Changing an answer sets that question's answer and no other. */
  lemma AnswerChangedEffect(answers: Records.Record<Answer>, templateQs: seq<Question>, customQs: seq<Question>,
                            questionId: string, value: string, other: string)
    ensures Records.Get(AnswerChanged(answers, templateQs, customQs, questionId, value), questionId)
         == Some(Answer(AnswerText(templateQs, customQs, questionId), value))
    ensures other != questionId ==>
      Records.Get(AnswerChanged(answers, templateQs, customQs, questionId, value), other) == Records.Get(answers, other)
  {
    var a := Answer(AnswerText(templateQs, customQs, questionId), value);
    Records.PutGet(answers, questionId, a);
    if other != questionId {
      Records.PutOther(answers, questionId, a, other);
    }
  }

  // --------------------------------------------------------- custom questions

  /** The custom question added at clock reading `now` (milliseconds), after
      `templateCount` template and `customCount` custom questions. */
  function CustomQuestion(text: string, now: nat, templateCount: nat, customCount: nat): (q: Question)
    ensures q.text == text && q.qtype == TextInput && q.options == None
    ensures q.order == templateCount + customCount + 1
    ensures Text.StartsWith(q.id, "custom-")
  {
    Question("custom-" + Text.NatToString(now), text, TextInput, templateCount + customCount + 1, None)
  }

  /** Custom questions added at different clock readings get different
      ids. */
  lemma CustomQuestionIdsDiffer(text1: string, text2: string, now1: nat, now2: nat, t: nat, c1: nat, c2: nat)
    requires now1 != now2
    ensures CustomQuestion(text1, now1, t, c1).id != CustomQuestion(text2, now2, t, c2).id
  {
    var p := "custom-";
    var a, b := CustomQuestion(text1, now1, t, c1).id, CustomQuestion(text2, now2, t, c2).id;
    if a == b {
      assert a[|p|..] == Text.NatToString(now1);
      assert b[|p|..] == Text.NatToString(now2);
      Text.NatToStringInjective(now1, now2);
    }
  }

  // ------------------------------------------------------------------- submit

  /** `if (entryId)`: a missing or empty id means a new entry. */
  predicate Editing(entryId: Option<string>) {
    entryId.Some? && entryId.value != ""
  }

  datatype SubmitAction =
    | CallUpdate(entryId: string, answers: Records.Record<Answer>, ratings: seq<RatingInput>)
    | CallCreate(templateId: string, answers: Records.Record<Answer>, ratings: seq<RatingInput>)

  function Submitted(entryId: Option<string>, template: Template, answers: Records.Record<Answer>,
                     ratings: Records.Record<int>): (a: SubmitAction)
    ensures a.CallUpdate? <==> Editing(entryId)
    ensures a.CallUpdate? ==> a.entryId == entryId.value
    ensures a.CallCreate? ==> a.templateId == template.id
    ensures a.answers == answers && a.ratings == RatingsArray(ratings)
  {
    if Editing(entryId) then CallUpdate(entryId.value, answers, RatingsArray(ratings))
    else CallCreate(template.id, answers, RatingsArray(ratings))
  }

  /** The form's state. */
  class Form {
    const template: Template
    const categories: seq<Category>
    const entryId: Option<string>
    var answers: Records.Record<Answer>
    var ratings: Records.Record<int>
    var customQuestions: seq<Question>
    var newQuestion: string
    var dialogOpen: bool

    /** The form renders `template.questions`, so it needs a template. */
    constructor (state: AppState, ttype: TemplateType, id: Option<string>)
      requires state.templates != []
      ensures template == SelectTemplate(state.templates, ttype).value
      ensures categories == CategoriesFor(state.categories, ttype)
      ensures entryId == id
      ensures answers == [] && ratings == [] && customQuestions == [] && newQuestion == "" && !dialogOpen
    {
      template := SelectTemplate(state.templates, ttype).value;
      categories := CategoriesFor(state.categories, ttype);
      entryId := id;
      answers, ratings, customQuestions, newQuestion, dialogOpen := [], [], [], "", false;
    }

    /** The edit-load effect: when editing an entry that exists, its answers
        and its ratings (as an object) replace the form's. */
    method LoadForEdit(entries: seq<Entry>)
      modifies this
      ensures var e := JournalStore.EntryById(entries, entryId.GetOr(""));
        if Editing(entryId) && e.Some? then
          answers == e.value.answers && ratings == Records.FromFields(RatingFields(e.value.ratings))
        else
          answers == old(answers) && ratings == old(ratings)
      ensures customQuestions == old(customQuestions) && newQuestion == old(newQuestion) && dialogOpen == old(dialogOpen)
    {
      if Editing(entryId) {
        var e := JournalStore.EntryById(entries, entryId.value);
        if e.Some? {
          answers := e.value.answers;
          ratings := LoadRatings(e.value.ratings);
        }
      }
    }

    method HandleAnswerChange(questionId: string, value: string)
      modifies this
      ensures answers == AnswerChanged(old(answers), template.questions, customQuestions, questionId, value)
      ensures ratings == old(ratings) && customQuestions == old(customQuestions)
      ensures newQuestion == old(newQuestion) && dialogOpen == old(dialogOpen)
    {
      answers := AnswerChanged(answers, template.questions, customQuestions, questionId, value);
    }

    method HandleRatingChange(categoryId: string, value: int)
      modifies this
      ensures ratings == RatingChanged(old(ratings), categoryId, value)
      ensures answers == old(answers) && customQuestions == old(customQuestions)
      ensures newQuestion == old(newQuestion) && dialogOpen == old(dialogOpen)
    {
      ratings := RatingChanged(ratings, categoryId, value);
    }

    method SetNewQuestion(text: string)
      modifies this
      ensures newQuestion == text
      ensures answers == old(answers) && ratings == old(ratings)
      ensures customQuestions == old(customQuestions) && dialogOpen == old(dialogOpen)
    {
      newQuestion := text;
    }

    /** `handleAddCustomQuestion`; `now` is `Date.now()`. A blank question
        is ignored; otherwise it is appended, the input cleared and the
        dialog closed. */
    method HandleAddCustomQuestion(now: nat)
      modifies this
      ensures Text.Trim(old(newQuestion)) == "" ==>
        customQuestions == old(customQuestions) && newQuestion == old(newQuestion) && dialogOpen == old(dialogOpen)
      ensures Text.Trim(old(newQuestion)) != "" ==>
        && customQuestions == old(customQuestions)
             + [CustomQuestion(old(newQuestion), now, |template.questions|, |old(customQuestions)|)]
        && newQuestion == "" && !dialogOpen
      ensures answers == old(answers) && ratings == old(ratings)
    {
      if Text.Trim(newQuestion) == "" {
        return;
      }
      var q := CustomQuestion(newQuestion, now, |template.questions|, |customQuestions|);
      customQuestions := customQuestions + [q];
      newQuestion := "";
      dialogOpen := false;
    }

    /** `handleSubmit`: update the edited entry (whose `false` for a
        missing id is ignored) or create one from the form's template. The
        fresh ids and clock readings are parameters. */
    method HandleSubmit(store: JournalStore.Store, freshId: string, now: int,
                        ratingIds: seq<string>, ratingTimes: seq<int>) returns (action: SubmitAction)
      requires |ratingIds| == |ratings| && |ratingTimes| == |ratings|
      modifies store
      ensures action == Submitted(entryId, template, answers, ratings)
      ensures action.CallUpdate? ==>
        store.state == JournalStore.WithEntryUpdated(old(store.state), action.entryId, answers,
                         JournalStore.StampRatings(action.ratings, ratingIds, ratingTimes)).1
      ensures action.CallCreate? ==>
        store.state == JournalStore.WithEntryCreated(old(store.state),
                         JournalStore.NewEntry(freshId, template.id, now, answers, action.ratings, ratingIds, ratingTimes))
      ensures store.user == old(store.user)
    {
      action := Submitted(entryId, template, answers, ratings);
      match action
      case CallUpdate(id, a, rs) =>
        var _ := store.UpdateEntry(id, a, rs, ratingIds, ratingTimes);
      case CallCreate(tid, a, rs) =>
        var _ := store.CreateEntry(tid, a, rs, freshId, now, ratingIds, ratingTimes);
    }
  }
}

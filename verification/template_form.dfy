/** The template editor: a draft template whose question list is edited by
    adding, removing and moving questions, each change followed by
    renumbering `order` to the positions, and a submit that validates the
    draft and then either updates the template being edited or adds a new
    one to the store. */
module TemplateForm {
  import opened Optional
  import opened Types
  import Text
  import JournalStore

  /** The question the form adds: empty text, a text question. */
  function BlankQuestion(id: string, order: int): Question {
    Question(id, "", TextInput, order, None)
  }

  /** The form's starting draft: the edited template's fields, or an empty
      name, a morning template and one blank question at order 0. */
  function InitialDraft(initial: Option<Template>, freshId: string): (d: TemplateDraft)
    ensures initial.None? ==> d == TemplateDraft("", Sod, [BlankQuestion(freshId, 0)])
    ensures initial.Some? ==> d == TemplateDraft(initial.value.name, initial.value.ttype, initial.value.questions)
  {
    match initial
    case None => TemplateDraft("", Sod, [BlankQuestion(freshId, 0)])
    case Some(t) => TemplateDraft(t.name, t.ttype, t.questions)
  }

  /** A question with its order cleared: what a question is apart from its
      place in the list. */
  function Unordered(q: Question): Question {
    q.(order := 0)
  }

  function UnorderedAll(qs: seq<Question>): (r: seq<Question>)
    ensures |r| == |qs| && forall i :: 0 <= i < |qs| ==> r[i] == Unordered(qs[i])
  {
    seq(|qs|, i requires 0 <= i < |qs| => Unordered(qs[i]))
  }

  /** `questions.map((q, i) => ({...q, order: i}))`: the orders become the
      positions, nothing else changes. */
  function Renumbered(qs: seq<Question>): (r: seq<Question>)
    ensures |r| == |qs|
    ensures forall i :: 0 <= i < |qs| ==> r[i].order == i && Unordered(r[i]) == Unordered(qs[i])
  {
    seq(|qs|, i requires 0 <= i < |qs| => qs[i].(order := i))
  }

  /** Renumbering does not look at the old orders. */
  lemma RenumberedIgnoresOrders(a: seq<Question>, b: seq<Question>)
    requires UnorderedAll(a) == UnorderedAll(b)
    ensures Renumbered(a) == Renumbered(b)
  {
    assert |a| == |UnorderedAll(a)| == |b|;
    forall i | 0 <= i < |a| ensures Renumbered(a)[i] == Renumbered(b)[i] {
      assert UnorderedAll(a)[i] == UnorderedAll(b)[i];
    }
  }

  /** The destructuring swap of positions `i` and `j`. */
  function Swapped(qs: seq<Question>, i: nat, j: nat): (r: seq<Question>)
    requires i < |qs| && j < |qs|
    ensures |r| == |qs| && r[i] == qs[j] && r[j] == qs[i]
    ensures forall k :: 0 <= k < |qs| && k != i && k != j ==> r[k] == qs[k]
    ensures multiset(r) == multiset(qs)
  {
    qs[i := qs[j]][j := qs[i]]
  }

  /** `moveQuestionUp(index)`: a no-op at the top, otherwise the question
      trades places with the one above it and the list is renumbered. */
  function MovedUp(qs: seq<Question>, index: nat): (r: seq<Question>)
    requires index < |qs|
    ensures |r| == |qs|
    ensures index == 0 ==> r == qs
    ensures index > 0 ==>
      Unordered(r[index - 1]) == Unordered(qs[index]) && Unordered(r[index]) == Unordered(qs[index - 1])
  {
    if index == 0 then qs else Renumbered(Swapped(qs, index - 1, index))
  }

  /** `moveQuestionDown(index)`: a no-op at the bottom, otherwise the
      question trades places with the one below it and the list is
      renumbered. */
  function MovedDown(qs: seq<Question>, index: nat): (r: seq<Question>)
    requires index < |qs|
    ensures |r| == |qs|
    ensures index == |qs| - 1 ==> r == qs
    ensures index < |qs| - 1 ==>
      Unordered(r[index]) == Unordered(qs[index + 1]) && Unordered(r[index + 1]) == Unordered(qs[index])
  {
    if index == |qs| - 1 then qs else Renumbered(Swapped(qs, index, index + 1))
  }

  /** A move that does something leaves the orders at `0..n-1`. */
  lemma MovesRenumber(qs: seq<Question>, index: nat)
    requires index < |qs|
    ensures index > 0 ==> forall i :: 0 <= i < |qs| ==> MovedUp(qs, index)[i].order == i
    ensures index < |qs| - 1 ==> forall i :: 0 <= i < |qs| ==> MovedDown(qs, index)[i].order == i
  {
  }

  /** Renumbering keeps the questions apart from their orders. */
  lemma {:induction false} RenumberedKeepsQuestions(qs: seq<Question>)
    ensures multiset(UnorderedAll(Renumbered(qs))) == multiset(UnorderedAll(qs))
  {
    assert UnorderedAll(Renumbered(qs)) == UnorderedAll(qs);
  }

  /** Swapping two positions of the unordered view is swapping them in the
      list. */
  lemma UnorderedSwapped(qs: seq<Question>, i: nat, j: nat)
    requires i < |qs| && j < |qs|
    ensures UnorderedAll(Swapped(qs, i, j)) == Swapped(UnorderedAll(qs), i, j)
  {
  }

  /** Moving up or down never changes which questions there are, only
      their places and orders. */
  lemma MovesKeepQuestions(qs: seq<Question>, index: nat)
    requires index < |qs|
    ensures multiset(UnorderedAll(MovedUp(qs, index))) == multiset(UnorderedAll(qs))
    ensures multiset(UnorderedAll(MovedDown(qs, index))) == multiset(UnorderedAll(qs))
  {
    if index > 0 {
      var s := Swapped(qs, index - 1, index);
      assert UnorderedAll(Renumbered(s)) == UnorderedAll(s);
      UnorderedSwapped(qs, index - 1, index);
    }
    if index < |qs| - 1 {
      var s := Swapped(qs, index, index + 1);
      assert UnorderedAll(Renumbered(s)) == UnorderedAll(s);
      UnorderedSwapped(qs, index, index + 1);
    }
  }

  /** Moving a question up and then moving it back down restores the list,
      up to the renumbering of the orders. */
  lemma UpThenDown(qs: seq<Question>, index: nat)
    requires 0 < index < |qs|
    ensures MovedDown(MovedUp(qs, index), index - 1) == Renumbered(qs)
  {
    var up := MovedUp(qs, index);
    var back := Swapped(up, index - 1, index);
    assert UnorderedAll(back) == UnorderedAll(qs) by {
      forall k | 0 <= k < |qs| ensures Unordered(back[k]) == Unordered(qs[k]) {
        if k != index - 1 && k != index {
          assert Unordered(up[k]) == Unordered(Swapped(qs, index - 1, index)[k]);
        }
      }
    }
    RenumberedIgnoresOrders(back, qs);
  }

  /** Moving a question down and then back up restores the list, up to the
      renumbering of the orders. */
  lemma DownThenUp(qs: seq<Question>, index: nat)
    requires index + 1 < |qs|
    ensures MovedUp(MovedDown(qs, index), index + 1) == Renumbered(qs)
  {
    var down := MovedDown(qs, index);
    var back := Swapped(down, index, index + 1);
    assert UnorderedAll(back) == UnorderedAll(qs) by {
      forall k | 0 <= k < |qs| ensures Unordered(back[k]) == Unordered(qs[k]) {
        if k != index && k != index + 1 {
          assert Unordered(down[k]) == Unordered(Swapped(qs, index, index + 1)[k]);
        }
      }
    }
    RenumberedIgnoresOrders(back, qs);
  }

  /** `removeQuestion(index)`: `filter((_, i) => i !== index)` then
      renumbering; an index past the end removes nothing. */
  function RemovedAt(qs: seq<Question>, index: nat): (r: seq<Question>)
    ensures index < |qs| ==> |r| == |qs| - 1
    ensures index >= |qs| ==> r == Renumbered(qs)
    ensures forall i :: 0 <= i < |r| ==> r[i].order == i
    ensures forall i :: 0 <= i < |r| ==>
      Unordered(r[i]) == Unordered(if i < index then qs[i] else qs[i + 1])
  {
    if index < |qs| then Renumbered(qs[..index] + qs[index + 1..]) else Renumbered(qs)
  }

  /** `addQuestion`: a blank question whose order is the old length is
      appended. */
  function Appended(qs: seq<Question>, freshId: string): (r: seq<Question>)
    ensures |r| == |qs| + 1 && r[..|qs|] == qs
    ensures r[|qs|].text == "" && r[|qs|].qtype == TextInput && r[|qs|].order == |qs|
  {
    qs + [BlankQuestion(freshId, |qs|)]
  }

  /** `handleQuestionTextChange`. */
  function WithText(qs: seq<Question>, index: nat, text: string): (r: seq<Question>)
    requires index < |qs|
    ensures |r| == |qs| && r[index].text == text
    ensures r[index].(text := qs[index].text) == qs[index]
    ensures forall i :: 0 <= i < |qs| && i != index ==> r[i] == qs[i]
  {
    qs[index := qs[index].(text := text)]
  }

  /** `handleQuestionTypeChange`. */
  function WithType(qs: seq<Question>, index: nat, qtype: QuestionType): (r: seq<Question>)
    requires index < |qs|
    ensures |r| == |qs| && r[index].qtype == qtype
    ensures r[index].(qtype := qs[index].qtype) == qs[index]
    ensures forall i :: 0 <= i < |qs| && i != index ==> r[i] == qs[i]
  {
    qs[index := qs[index].(qtype := qtype)]
  }

  /** The remove button is enabled unless exactly one question is left. */
  predicate CanRemove(qs: seq<Question>) {
    |qs| != 1
  }

  /** Through the buttons, a form that has a question keeps at least one:
      adding grows the list and an enabled remove leaves one or more. */
  lemma ButtonsKeepAQuestion(qs: seq<Question>, index: nat, freshId: string)
    requires |qs| >= 1 && index < |qs|
    ensures |Appended(qs, freshId)| >= 1
    ensures CanRemove(qs) ==> |RemovedAt(qs, index)| >= 1
    ensures |MovedUp(qs, index)| >= 1 && |MovedDown(qs, index)| >= 1
  {
  }

  /** What `handleSubmit` does. */
  datatype SubmitAction =
    | RejectName                  // "Template name is required"
    | RejectQuestions             // "All questions must have text"
    | CallUpdate(t: Template)     // `updateTemplate({...template, id: initialTemplate.id})`
    | CallAdd(draft: TemplateDraft)

  /** `template.questions.some(q => !q.text.trim())`. */
  predicate SomeQuestionBlank(qs: seq<Question>) {
    exists i :: 0 <= i < |qs| && Text.Trim(qs[i].text) == ""
  }

  function Submitted(d: TemplateDraft, initial: Option<Template>): (a: SubmitAction)
    ensures a == RejectName <==> Text.Trim(d.name) == ""
    ensures a == RejectQuestions <==> Text.Trim(d.name) != "" && SomeQuestionBlank(d.questions)
    ensures a.CallUpdate? ==> initial.Some? && a.t == Template(initial.value.id, d.name, d.ttype, d.questions)
    ensures a.CallAdd? ==> initial.None? && a.draft == d
    ensures Text.Trim(d.name) != "" && !SomeQuestionBlank(d.questions) ==> a.CallUpdate? || a.CallAdd?
  {
    if Text.Trim(d.name) == "" then RejectName
    else if SomeQuestionBlank(d.questions) then RejectQuestions
    else match initial
      case Some(t) => CallUpdate(Template(t.id, d.name, d.ttype, d.questions))
      case None => CallAdd(d)
  }

  /** The validation in terms of the text: the name is rejected exactly when
      it is all whitespace, the questions when one of them is. */
  lemma SubmitRejectsBlank(d: TemplateDraft, initial: Option<Template>)
    ensures Submitted(d, initial) == RejectName <==> Text.IsBlank(d.name)
    ensures Submitted(d, initial).CallUpdate? || Submitted(d, initial).CallAdd? <==>
      !Text.IsBlank(d.name) && forall i :: 0 <= i < |d.questions| ==> !Text.IsBlank(d.questions[i].text)
  {
    Text.TrimEmptyIffBlank(d.name);
    forall i | 0 <= i < |d.questions| {
      Text.TrimEmptyIffBlank(d.questions[i].text);
    }
  }

  /** The form's state: the draft being edited and the template it edits,
      if any. */
  class Editor {
    var template: TemplateDraft
    const initialTemplate: Option<Template>

    constructor (initial: Option<Template>, freshId: string)
      ensures initialTemplate == initial
      ensures template == InitialDraft(initial, freshId)
    {
      initialTemplate := initial;
      template := InitialDraft(initial, freshId);
    }

    method HandleTypeChange(t: TemplateType)
      modifies this
      ensures template == old(template).(ttype := t)
    {
      template := template.(ttype := t);
    }

    method HandleNameChange(name: string)
      modifies this
      ensures template == old(template).(name := name)
    {
      template := template.(name := name);
    }

    method HandleQuestionTextChange(index: nat, text: string)
      requires index < |template.questions|
      modifies this
      ensures template == old(template).(questions := WithText(old(template).questions, index, text))
    {
      template := template.(questions := WithText(template.questions, index, text));
    }

    method HandleQuestionTypeChange(index: nat, qtype: QuestionType)
      requires index < |template.questions|
      modifies this
      ensures template == old(template).(questions := WithType(old(template).questions, index, qtype))
    {
      template := template.(questions := WithType(template.questions, index, qtype));
    }

    /** `freshId` is what `uuidv4()` returned. */
    method AddQuestion(freshId: string)
      modifies this
      ensures template == old(template).(questions := Appended(old(template).questions, freshId))
    {
      template := template.(questions := Appended(template.questions, freshId));
    }

    method RemoveQuestion(index: nat)
      modifies this
      ensures template == old(template).(questions := RemovedAt(old(template).questions, index))
    {
      template := template.(questions := RemovedAt(template.questions, index));
    }

    method MoveQuestionUp(index: nat)
      requires index < |template.questions|
      modifies this
      ensures template == old(template).(questions := MovedUp(old(template).questions, index))
    {
      if index == 0 {
        return;
      }
      template := template.(questions := MovedUp(template.questions, index));
    }

    method MoveQuestionDown(index: nat)
      requires index < |template.questions|
      modifies this
      ensures template == old(template).(questions := MovedDown(old(template).questions, index))
    {
      if index == |template.questions| - 1 {
        return;
      }
      template := template.(questions := MovedDown(template.questions, index));
    }

    /** `handleSubmit`: nothing is saved when validation fails; otherwise
        the edited template is replaced, or a new one is added under
        `freshId`. */
    method HandleSubmit(store: JournalStore.Store, freshId: string) returns (action: SubmitAction)
      modifies store
      ensures action == Submitted(template, initialTemplate)
      ensures action == RejectName || action == RejectQuestions ==> store.state == old(store.state)
      ensures action.CallUpdate? ==> store.state == JournalStore.WithTemplateUpdated(old(store.state), action.t)
      ensures action.CallAdd? ==> store.state == JournalStore.WithTemplateAdded(old(store.state), freshId, template)
      ensures store.user == old(store.user)
    {
      action := Submitted(template, initialTemplate);
      match action
      case RejectName =>
      case RejectQuestions =>
      case CallUpdate(t) =>
        store.UpdateTemplate(t);
      case CallAdd(d) =>
        var _ := store.AddTemplate(d, freshId);
    }
  }
}

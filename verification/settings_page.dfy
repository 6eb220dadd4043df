/** The settings page: templates and categories listed in a morning and an
    evening column, a short preview of each template's questions, and the
    confirmed deletes of templates and categories. */
module SettingsPage {
  import opened Types
  import Seqs
  import Text
  import EntryForm
  import JournalStore
  import ConfirmDelete
  import opened Optional

  /** `state.templates.filter(t => t.type === type)`. */
  function TemplatesOfType(ts: seq<Template>, ttype: TemplateType): seq<Template> {
    Seqs.Filter(ts, EntryForm.TemplateOfType(ttype))
  }

  /** The two template columns split the templates: each template is in
      the column of its type and in no other, and together the columns hold
      every template exactly as often as the list does. */
  lemma TemplateColumnsPartition(ts: seq<Template>, t: Template)
    ensures multiset(TemplatesOfType(ts, Sod)) + multiset(TemplatesOfType(ts, Eod)) == multiset(ts)
    ensures |TemplatesOfType(ts, Sod)| + |TemplatesOfType(ts, Eod)| == |ts|
    ensures t in TemplatesOfType(ts, Sod) <==> t in ts && t.ttype == Sod
    ensures t in TemplatesOfType(ts, Eod) <==> t in ts && t.ttype == Eod
  {
    Seqs.FilterPartition(ts, EntryForm.TemplateOfType(Sod), EntryForm.TemplateOfType(Eod));
    Seqs.FilterMembership(ts, EntryForm.TemplateOfType(Sod), t);
    Seqs.FilterMembership(ts, EntryForm.TemplateOfType(Eod), t);
  }

  /** The category columns split the categories the same way. */
  lemma CategoryColumnsPartition(cs: seq<Category>, c: Category)
    ensures multiset(EntryForm.CategoriesFor(cs, Sod)) + multiset(EntryForm.CategoriesFor(cs, Eod)) == multiset(cs)
    ensures |EntryForm.CategoriesFor(cs, Sod)| + |EntryForm.CategoriesFor(cs, Eod)| == |cs|
    ensures c in EntryForm.CategoriesFor(cs, Sod) <==> c in cs && c.ctype == Sod
    ensures c in EntryForm.CategoriesFor(cs, Eod) <==> c in cs && c.ctype == Eod
  {
    Seqs.FilterPartition(cs, EntryForm.CategoryOfType(Sod), EntryForm.CategoryOfType(Eod));
    EntryForm.CategoriesForExact(cs, Sod, c);
    EntryForm.CategoriesForExact(cs, Eod, c);
  }

  /** `template.questions.slice(0, 3)`. */
  function QuestionPreview(qs: seq<Question>): (r: seq<Question>)
    ensures |r| == if |qs| < 3 then |qs| else 3
    ensures forall i :: 0 <= i < |r| ==> r[i] == qs[i]
  {
    if |qs| < 3 then qs else qs[..3]
  }

  /** The "...and n more" line, shown only with more than three
      questions. */
  function MoreLine(qs: seq<Question>): Option<string> {
    if |qs| > 3 then Some("...and " + Text.NatToString(|qs| - 3) + " more") else None
  }

  /** The card accounts for every question once: the listed ones plus the
      number in the "more" line (none when there is no line) make up the
      whole list. */
  lemma PreviewAccountsForAll(qs: seq<Question>)
    ensures MoreLine(qs).None? <==> QuestionPreview(qs) == qs
    ensures MoreLine(qs).Some? ==>
      MoreLine(qs).value == "...and " + Text.NatToString(|qs| - |QuestionPreview(qs)|) + " more"
    ensures QuestionPreview(qs) + qs[|QuestionPreview(qs)|..] == qs
  {
  }

  /** `confirmDeleteTemplate`: deletes exactly the pending template when
      there is a truthy one, then closes the dialog and clears it. */
  method ConfirmDeleteTemplate(dialog: ConfirmDelete.Dialog, store: JournalStore.Store)
    modifies dialog, store
    ensures Text.Truthy(old(dialog.pending)) ==>
      && store.state == JournalStore.WithTemplateDeleted(old(store.state), old(dialog.pending).value)
      && !dialog.isOpen && dialog.pending == None
    ensures !Text.Truthy(old(dialog.pending)) ==>
      && store.state == old(store.state)
      && dialog.isOpen == old(dialog.isOpen) && dialog.pending == old(dialog.pending)
    ensures store.user == old(store.user)
  {
    var target := dialog.Confirm();
    if target.Some? {
      store.DeleteTemplate(target.value);
    }
  }

  /** `confirmDeleteCategory`, the same flow for categories. */
  method ConfirmDeleteCategory(dialog: ConfirmDelete.Dialog, store: JournalStore.Store)
    modifies dialog, store
    ensures Text.Truthy(old(dialog.pending)) ==>
      && store.state == JournalStore.WithCategoryDeleted(old(store.state), old(dialog.pending).value)
      && !dialog.isOpen && dialog.pending == None
    ensures !Text.Truthy(old(dialog.pending)) ==>
      && store.state == old(store.state)
      && dialog.isOpen == old(dialog.isOpen) && dialog.pending == old(dialog.pending)
    ensures store.user == old(store.user)
  {
    var target := dialog.Confirm();
    if target.Some? {
      store.DeleteCategory(target.value);
    }
  }
}

/** The category form: a name and a journal type, validated on submit and
    then always handed to `addCategory`, also when the form was opened on an
    existing category. */
module CategoryForm {
  import opened Optional
  import opened Types
  import Text
  import JournalStore

  /** The starting draft: the initial category's name and type, else an
      empty morning category. */
  function InitialDraft(initial: Option<Category>): (d: CategoryDraft)
    ensures initial.None? ==> d == CategoryDraft("", Sod)
    ensures initial.Some? ==> d.name == initial.value.name && d.ctype == initial.value.ctype
  {
    match initial
    case None => CategoryDraft("", Sod)
    case Some(c) => CategoryDraft(if c.name != "" then c.name else "", c.ctype)
  }

  /** The submit guard `!category.name.trim()`, negated: the draft is saved
      exactly when its name holds a non-whitespace character. */
  predicate Accepts(d: CategoryDraft) {
    Text.Trim(d.name) != ""
  }

  lemma AcceptsIffNotBlank(d: CategoryDraft)
    ensures Accepts(d) <==> !Text.IsBlank(d.name)
    ensures Accepts(d) ==> exists i :: 0 <= i < |d.name| && !Text.IsWhitespace(d.name[i])
  {
    Text.TrimEmptyIffBlank(d.name);
  }

  class Form {
    var category: CategoryDraft
    const initialCategory: Option<Category>

    constructor (initial: Option<Category>)
      ensures category == InitialDraft(initial) && initialCategory == initial
    {
      category := InitialDraft(initial);
      initialCategory := initial;
    }

    method HandleTypeChange(t: TemplateType)
      modifies this
      ensures category == old(category).(ctype := t)
    {
      category := category.(ctype := t);
    }

    method HandleNameChange(name: string)
      modifies this
      ensures category == old(category).(name := name)
    {
      category := category.(name := name);
    }

    /** `handleSubmit`: a blank name saves nothing; any other draft is added
        as a new category under `freshId`, untrimmed, whether or not the
        form was opened on an existing category. */
    method HandleSubmit(store: JournalStore.Store, freshId: string) returns (saved: bool)
      modifies store
      ensures saved <==> Accepts(category)
      ensures !saved ==> store.state == old(store.state)
      ensures saved ==> store.state == JournalStore.WithCategoryAdded(old(store.state), freshId, category)
      ensures store.user == old(store.user)
    {
      if Text.Trim(category.name) == "" {
        return false;
      }
      var _ := store.AddCategory(category, freshId);
      saved := true;
    }
  }
}

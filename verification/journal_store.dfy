/** The journal's in-memory store (the React context provider): one
    `AppState` and the signed-in user, replaced wholesale by every
    operation. Each operation is a method on `Store` whose new state is a
    function of the old one; the functions carry the store's promises and
    the lemmas below relate them. Fresh ids (`uuidv4`) and clock readings
    (`new Date()`) are parameters. */
module JournalStore {
  import opened Optional
  import opened Types
  import Seqs
  import Text

  // ---------------------------------------------------------------- templates

  /** The id of question `i` of the template with id `templateId`. */
  function QuestionId(templateId: string, i: nat): string {
    templateId + "-" + Text.NatToString(i)
  }

  /** `q.order || i`: a zero order counts as missing and gives way to the
      question's position. */
  function OrderOr(order: int, i: nat): int {
    if order != 0 then order else i
  }

  /** The questions of a new template: the ids are rewritten from the
      template id and the position, everything else except a zero order is
      kept. */
  function NumberedQuestions(templateId: string, qs: seq<Question>): (r: seq<Question>)
    ensures |r| == |qs|
    ensures forall i :: 0 <= i < |qs| ==>
      && r[i].text == qs[i].text && r[i].qtype == qs[i].qtype && r[i].options == qs[i].options
      && r[i].id == QuestionId(templateId, i)
      && (qs[i].order != 0 ==> r[i].order == qs[i].order)
      && (qs[i].order == 0 ==> r[i].order == i)
  {
    seq(|qs|, i requires 0 <= i < |qs| => qs[i].(id := QuestionId(templateId, i), order := OrderOr(qs[i].order, i)))
  }

  /** Question ids of a new template never collide, whatever ids the draft
      carried. */
  lemma NumberedQuestionIdsDistinct(templateId: string, qs: seq<Question>, i: nat, j: nat)
    requires i < j < |qs|
    ensures NumberedQuestions(templateId, qs)[i].id != NumberedQuestions(templateId, qs)[j].id
  {
    var r := NumberedQuestions(templateId, qs);
    if r[i].id == r[j].id {
      var p := templateId + "-";
      assert r[i].id == p + Text.NatToString(i) && r[j].id == p + Text.NatToString(j);
      assert Text.NatToString(i) == r[i].id[|p|..];
      assert Text.NatToString(j) == r[j].id[|p|..];
      Text.NatToStringInjective(i, j);
    }
  }

  function NewTemplate(id: string, draft: TemplateDraft): Template {
    Template(id, draft.name, draft.ttype, NumberedQuestions(id, draft.questions))
  }

  /** `addTemplate`: exactly one template is appended, the rest stay put. */
  function WithTemplateAdded(s: AppState, id: string, draft: TemplateDraft): (r: AppState)
    ensures |r.templates| == |s.templates| + 1
    ensures r.templates[..|s.templates|] == s.templates
    ensures var t := r.templates[|s.templates|];
      t.id == id && t.name == draft.name && t.ttype == draft.ttype && |t.questions| == |draft.questions|
    ensures r.(templates := s.templates) == s
  {
    s.(templates := s.templates + [NewTemplate(id, draft)])
  }

  /** `map(t => t.id === template.id ? template : t)`. */
  function ReplacedById(ts: seq<Template>, t: Template): (r: seq<Template>)
    ensures |r| == |ts|
    ensures forall i :: 0 <= i < |ts| ==> r[i] == (if ts[i].id == t.id then t else ts[i])
  {
    seq(|ts|, i requires 0 <= i < |ts| => if ts[i].id == t.id then t else ts[i])
  }

  /** `updateTemplate`: every template with the same id becomes `t`. */
  function WithTemplateUpdated(s: AppState, t: Template): (r: AppState)
    ensures r.(templates := s.templates) == s
  {
    s.(templates := ReplacedById(s.templates, t))
  }

  /** Updating with an id no template has changes nothing. */
  lemma UpdateTemplateAbsent(s: AppState, t: Template)
    requires forall i :: 0 <= i < |s.templates| ==> s.templates[i].id != t.id
    ensures WithTemplateUpdated(s, t) == s
  {
  }

  /** After an update every template with that id is `t`, every other
      template is where it was, and the list keeps its length. */
  lemma UpdateTemplateEffect(s: AppState, t: Template)
    ensures |WithTemplateUpdated(s, t).templates| == |s.templates|
    ensures forall i :: 0 <= i < |s.templates| ==>
      WithTemplateUpdated(s, t).templates[i] == (if s.templates[i].id == t.id then t else s.templates[i])
    ensures t in s.templates ==> t in WithTemplateUpdated(s, t).templates
  {
    if t in s.templates {
      var i :| 0 <= i < |s.templates| && s.templates[i] == t;
      assert WithTemplateUpdated(s, t).templates[i] == t;
    }
  }

  /** Updating twice with the same template is updating once. */
  lemma UpdateTemplateIdempotent(s: AppState, t: Template)
    ensures WithTemplateUpdated(WithTemplateUpdated(s, t), t) == WithTemplateUpdated(s, t)
  {
  }

  function TemplateIdIsNot(id: string): Template -> bool {
    (t: Template) => t.id != id
  }

  function TemplateIdIs(id: string): Template -> bool {
    (t: Template) => t.id == id
  }

  /** `deleteTemplate`: drop the templates with that id. */
  function WithTemplateDeleted(s: AppState, id: string): (r: AppState)
    ensures r.(templates := s.templates) == s
  {
    s.(templates := Seqs.Filter(s.templates, TemplateIdIsNot(id)))
  }

  /** Deleting removes exactly the templates with that id: a template
      survives iff it was there with another id, and the survivors plus the
      removed ones are the old list. */
  lemma DeleteTemplateExact(s: AppState, id: string, t: Template)
    ensures t in WithTemplateDeleted(s, id).templates <==> t in s.templates && t.id != id
    ensures multiset(WithTemplateDeleted(s, id).templates)
          + multiset(Seqs.Filter(s.templates, TemplateIdIs(id))) == multiset(s.templates)
  {
    Seqs.FilterMembership(s.templates, TemplateIdIsNot(id), t);
    Seqs.FilterPartition(s.templates, TemplateIdIsNot(id), TemplateIdIs(id));
  }

  /** Deleting an id no template has changes nothing. */
  lemma DeleteTemplateAbsent(s: AppState, id: string)
    requires forall i :: 0 <= i < |s.templates| ==> s.templates[i].id != id
    ensures WithTemplateDeleted(s, id) == s
  {
    Seqs.FilterAllPass(s.templates, TemplateIdIsNot(id));
  }

  // --------------------------------------------------------------- categories

  /** `addCategory`: exactly one category is appended. */
  function WithCategoryAdded(s: AppState, id: string, draft: CategoryDraft): (r: AppState)
    ensures r.categories == s.categories + [Category(id, draft.name, draft.ctype)]
    ensures r.(categories := s.categories) == s
  {
    s.(categories := s.categories + [Category(id, draft.name, draft.ctype)])
  }

  function CategoryIdIsNot(id: string): Category -> bool {
    (c: Category) => c.id != id
  }

  function CategoryIdIs(id: string): Category -> bool {
    (c: Category) => c.id == id
  }

  /** `deleteCategory`: drop the categories with that id. */
  function WithCategoryDeleted(s: AppState, id: string): (r: AppState)
    ensures r.(categories := s.categories) == s
  {
    s.(categories := Seqs.Filter(s.categories, CategoryIdIsNot(id)))
  }

  /** Deleting removes exactly the categories with that id. */
  lemma DeleteCategoryExact(s: AppState, id: string, c: Category)
    ensures c in WithCategoryDeleted(s, id).categories <==> c in s.categories && c.id != id
    ensures multiset(WithCategoryDeleted(s, id).categories)
          + multiset(Seqs.Filter(s.categories, CategoryIdIs(id))) == multiset(s.categories)
  {
    Seqs.FilterMembership(s.categories, CategoryIdIsNot(id), c);
    Seqs.FilterPartition(s.categories, CategoryIdIsNot(id), CategoryIdIs(id));
  }

  /** Deleting an id no category has changes nothing. */
  lemma DeleteCategoryAbsent(s: AppState, id: string)
    requires forall i :: 0 <= i < |s.categories| ==> s.categories[i].id != id
    ensures WithCategoryDeleted(s, id) == s
  {
    Seqs.FilterAllPass(s.categories, CategoryIdIsNot(id));
  }

  // ------------------------------------------------------------------ entries

  /** `ratings.map(r => ({...r, id: uuidv4(), timestamp: new Date()}))`:
      each submitted rating gets the fresh id and the clock reading of its
      position. */
  function StampRatings(rs: seq<RatingInput>, ids: seq<string>, times: seq<int>): (r: seq<Rating>)
    requires |ids| == |rs| && |times| == |rs|
    ensures |r| == |rs|
    ensures forall i :: 0 <= i < |rs| ==> r[i].id == ids[i] && r[i].timestamp == times[i]
  {
    seq(|rs|, i requires 0 <= i < |rs| => Rating(ids[i], rs[i].category, rs[i].value, times[i]))
  }

  /** What a form submits for a stored rating: its category and value. */
  function Unstamped(rs: seq<Rating>): (r: seq<RatingInput>)
    ensures |r| == |rs|
  {
    seq(|rs|, i requires 0 <= i < |rs| => RatingInput(rs[i].category, rs[i].value))
  }

  /** Stamping keeps every category and value, position by position. */
  lemma StampRatingsKeepsInput(rs: seq<RatingInput>, ids: seq<string>, times: seq<int>)
    requires |ids| == |rs| && |times| == |rs|
    ensures Unstamped(StampRatings(rs, ids, times)) == rs
  {
  }

  /** The entry `createEntry` builds. */
  function NewEntry(id: string, templateId: string, now: int, answers: Records.Record<Answer>,
                    rs: seq<RatingInput>, ids: seq<string>, times: seq<int>): (e: Entry)
    requires |ids| == |rs| && |times| == |rs|
    ensures e.id == id && e.templateId == Some(templateId) && e.timestamp == now && e.answers == answers
    ensures Unstamped(e.ratings) == rs
  {
    StampRatingsKeepsInput(rs, ids, times);
    Entry(id, Some(templateId), now, answers, StampRatings(rs, ids, times))
  }

  /** `createEntry`: exactly one entry is appended. */
  function WithEntryCreated(s: AppState, e: Entry): (r: AppState)
    ensures |r.entries| == |s.entries| + 1 && r.entries[..|s.entries|] == s.entries
    ensures r.entries[|s.entries|] == e
    ensures r.(entries := s.entries) == s
  {
    s.(entries := s.entries + [e])
  }

  /** `state.entries.some(e => e.id === entryId)`. */
  predicate HasEntry(es: seq<Entry>, id: string) {
    exists i :: 0 <= i < |es| && es[i].id == id
  }

  /** The test `e => e.id === id`. */
  function EntryIdIs(id: string): Entry -> bool {
    (e: Entry) => e.id == id
  }

  /** `entries.find(e => e.id === id)`: the first entry with that id. */
  function EntryById(es: seq<Entry>, id: string): (r: Option<Entry>)
    ensures r.None? <==> !HasEntry(es, id)
    ensures r.Some? ==> exists i :: 0 <= i < |es| && es[i] == r.value && r.value.id == id
                                    && forall j :: 0 <= j < i ==> es[j].id != id
  {
    var i := Seqs.FirstIndex(es, EntryIdIs(id));
    if i < |es| then Some(es[i]) else None
  }

  /** The new value of an entry that `updateEntry` rewrites: its answers and
      ratings are replaced, its id, template and timestamp are kept. */
  function Revised(e: Entry, answers: Records.Record<Answer>, ratings: seq<Rating>): Entry {
    e.(answers := answers, ratings := ratings)
  }

  /** The entries after `updateEntry(id, ...)`. */
  function EntriesRevised(es: seq<Entry>, id: string, answers: Records.Record<Answer>, ratings: seq<Rating>): (r: seq<Entry>)
    ensures |r| == |es|
    ensures forall i :: 0 <= i < |es| ==>
      if es[i].id == id then
        r[i].id == es[i].id && r[i].templateId == es[i].templateId && r[i].timestamp == es[i].timestamp
        && r[i].answers == answers && r[i].ratings == ratings
      else r[i] == es[i]
  {
    seq(|es|, i requires 0 <= i < |es| => if es[i].id == id then Revised(es[i], answers, ratings) else es[i])
  }

  /** `updateEntry`: `false` and no change when no entry has the id,
      otherwise `true` and the matching entries revised. */
  function WithEntryUpdated(s: AppState, id: string, answers: Records.Record<Answer>, ratings: seq<Rating>): (r: (bool, AppState))
    ensures r.0 <==> HasEntry(s.entries, id)
    ensures !r.0 ==> r.1 == s
    ensures r.1.(entries := s.entries) == s
  {
    if !HasEntry(s.entries, id) then (false, s)
    else (true, s.(entries := EntriesRevised(s.entries, id, answers, ratings)))
  }

  /** A successful update leaves the entry findable under the same id, with
      the new answers and ratings. */
  lemma UpdateEntryFound(s: AppState, id: string, answers: Records.Record<Answer>, ratings: seq<Rating>)
    requires HasEntry(s.entries, id)
    ensures var (ok, s') := WithEntryUpdated(s, id, answers, ratings);
      ok && exists i :: 0 <= i < |s'.entries| && s'.entries[i].id == id
                        && s'.entries[i].answers == answers && s'.entries[i].ratings == ratings
  {
    var i :| 0 <= i < |s.entries| && s.entries[i].id == id;
    var s' := WithEntryUpdated(s, id, answers, ratings).1;
    assert s'.entries[i].id == id;
  }

  function EntryIdIsNot(id: string): Entry -> bool {
    (e: Entry) => e.id != id
  }

  function EntryIdNotIn(ids: seq<string>): Entry -> bool {
    (e: Entry) => e.id !in ids
  }

  function EntryIdIn(ids: seq<string>): Entry -> bool {
    (e: Entry) => e.id in ids
  }

  /** `deleteEntry`: drop the entries with that id. */
  function WithEntryDeleted(s: AppState, id: string): (r: AppState)
    ensures r.(entries := s.entries) == s
  {
    s.(entries := Seqs.Filter(s.entries, EntryIdIsNot(id)))
  }

  /** `deleteMultipleEntries`: drop the entries whose id is listed. */
  function WithEntriesDeleted(s: AppState, ids: seq<string>): (r: AppState)
    ensures r.(entries := s.entries) == s
  {
    s.(entries := Seqs.Filter(s.entries, EntryIdNotIn(ids)))
  }

  /** Deleting several removes exactly the listed entries and keeps the
      others in their order. */
  lemma DeleteEntriesExact(s: AppState, ids: seq<string>, e: Entry)
    ensures e in WithEntriesDeleted(s, ids).entries <==> e in s.entries && e.id !in ids
    ensures multiset(WithEntriesDeleted(s, ids).entries)
          + multiset(Seqs.Filter(s.entries, EntryIdIn(ids))) == multiset(s.entries)
  {
    Seqs.FilterMembership(s.entries, EntryIdNotIn(ids), e);
    Seqs.FilterPartition(s.entries, EntryIdNotIn(ids), EntryIdIn(ids));
  }

  /** Deleting ids no entry has changes nothing. */
  lemma DeleteEntriesAbsent(s: AppState, ids: seq<string>)
    requires forall i :: 0 <= i < |s.entries| ==> s.entries[i].id !in ids
    ensures WithEntriesDeleted(s, ids) == s
  {
    Seqs.FilterAllPass(s.entries, EntryIdNotIn(ids));
  }

  /** Deleting a one-element list is deleting that one id. */
  lemma DeleteEntriesSingle(s: AppState, id: string)
    ensures WithEntriesDeleted(s, [id]) == WithEntryDeleted(s, id)
  {
    Seqs.FilterCongruent(s.entries, EntryIdNotIn([id]), EntryIdIsNot(id));
  }

  /** Deleting removes exactly the entries with that id. */
  lemma DeleteEntryExact(s: AppState, id: string, e: Entry)
    ensures e in WithEntryDeleted(s, id).entries <==> e in s.entries && e.id != id
  {
    Seqs.FilterMembership(s.entries, EntryIdIsNot(id), e);
  }

  // ------------------------------------------------------------- user & mode

  /** The user with the dark-mode preference negated. */
  function UserDarkModeToggled(u: Option<User>): (r: Option<User>)
    ensures r.Some? <==> u.Some?
    ensures u.Some? ==>
      && r.value.preferences.darkMode == !u.value.preferences.darkMode
      && r.value.(preferences := u.value.preferences) == u.value
      && r.value.preferences.notifications == u.value.preferences.notifications
  {
    match u
    case None => None
    case Some(v) => Some(v.(preferences := v.preferences.(darkMode := !v.preferences.darkMode)))
  }

  /** Toggling twice puts the user back. */
  lemma ToggleUserTwice(u: Option<User>)
    ensures UserDarkModeToggled(UserDarkModeToggled(u)) == u
  {
  }

  /** `Partial<User>`: each field is either left out or given a value. */
  datatype UserPatch = UserPatch(
    id: Option<string>,
    firstName: Option<string>,
    lastName: Option<string>,
    avatarUrl: Option<string>,
    isSuperAdmin: Option<bool>,
    preferences: Option<UserPreferences>)

  /** `{...user, ...profile}`: given fields win, the others are kept. */
  function MergedUser(u: User, p: UserPatch): (r: User)
    ensures r.id == p.id.GetOr(u.id)
    ensures p.firstName.Some? ==> r.firstName == p.firstName
    ensures p.firstName.None? ==> r.firstName == u.firstName
    ensures p.lastName.Some? ==> r.lastName == p.lastName
    ensures p.lastName.None? ==> r.lastName == u.lastName
    ensures p.avatarUrl.Some? ==> r.avatarUrl == p.avatarUrl
    ensures p.avatarUrl.None? ==> r.avatarUrl == u.avatarUrl
    ensures p.isSuperAdmin.Some? ==> r.isSuperAdmin == p.isSuperAdmin
    ensures p.isSuperAdmin.None? ==> r.isSuperAdmin == u.isSuperAdmin
    ensures r.preferences == p.preferences.GetOr(u.preferences)
  {
    User(
      p.id.GetOr(u.id),
      if p.firstName.Some? then p.firstName else u.firstName,
      if p.lastName.Some? then p.lastName else u.lastName,
      if p.avatarUrl.Some? then p.avatarUrl else u.avatarUrl,
      if p.isSuperAdmin.Some? then p.isSuperAdmin else u.isSuperAdmin,
      p.preferences.GetOr(u.preferences))
  }

  /** An empty patch changes nothing. */
  lemma MergeEmptyPatch(u: User)
    ensures MergedUser(u, UserPatch(None, None, None, None, None, None)) == u
  {
  }

  /** `Partial<UserPreferences>`. */
  datatype PreferencesPatch = PreferencesPatch(darkMode: Option<bool>, notifications: Option<Notifications>)

  /** `{...user.preferences, ...preferences}`. */
  function MergedPreferences(old_: UserPreferences, p: PreferencesPatch): (r: UserPreferences)
    ensures r.darkMode == p.darkMode.GetOr(old_.darkMode)
    ensures r.notifications == p.notifications.GetOr(old_.notifications)
  {
    UserPreferences(p.darkMode.GetOr(old_.darkMode), p.notifications.GetOr(old_.notifications))
  }

  /** Merging the same patch again changes nothing more. */
  lemma MergePreferencesIdempotent(prefs: UserPreferences, p: PreferencesPatch)
    ensures MergedPreferences(MergedPreferences(prefs, p), p) == MergedPreferences(prefs, p)
  {
  }

  /** The store: the state and the (optional) signed-in user. */
  class Store {
    var state: AppState
    var user: Option<User>

    /** The provider starts from its fixtures with dark mode off. */
    constructor (templates: seq<Template>, entries: seq<Entry>, categories: seq<Category>, tags: seq<Tag>, u: Option<User>)
      ensures state == AppState(templates, entries, categories, tags, false)
      ensures user == u
    {
      state := AppState(templates, entries, categories, tags, false);
      user := u;
    }

    /** `toggleDarkMode`: the state's flag and the user's preference are each
        negated from their own previous value. */
    method ToggleDarkMode()
      modifies this
      ensures state == old(state).(darkMode := !old(state).darkMode)
      ensures user == UserDarkModeToggled(old(user))
    {
      state := state.(darkMode := !state.darkMode);
      user := UserDarkModeToggled(user);
    }

    /** `addTemplate`; `freshId` is what `uuidv4()` returned. */
    method AddTemplate(draft: TemplateDraft, freshId: string) returns (id: string)
      modifies this
      ensures id == freshId
      ensures state == WithTemplateAdded(old(state), freshId, draft)
      ensures user == old(user)
    {
      id := freshId;
      state := WithTemplateAdded(state, id, draft);
    }

    method UpdateTemplate(t: Template)
      modifies this
      ensures state == WithTemplateUpdated(old(state), t)
      ensures user == old(user)
    {
      state := WithTemplateUpdated(state, t);
    }

    method DeleteTemplate(id: string)
      modifies this
      ensures state == WithTemplateDeleted(old(state), id)
      ensures user == old(user)
    {
      state := WithTemplateDeleted(state, id);
    }

    method AddCategory(draft: CategoryDraft, freshId: string) returns (id: string)
      modifies this
      ensures id == freshId
      ensures state == WithCategoryAdded(old(state), freshId, draft)
      ensures user == old(user)
    {
      id := freshId;
      state := WithCategoryAdded(state, id, draft);
    }

    method DeleteCategory(id: string)
      modifies this
      ensures state == WithCategoryDeleted(old(state), id)
      ensures user == old(user)
    {
      state := WithCategoryDeleted(state, id);
    }

    /** `createEntry`; `freshId`, `now`, `ratingIds` and `ratingTimes` are
        the values of the `uuidv4()` and `new Date()` calls. */
    method CreateEntry(templateId: string, answers: Records.Record<Answer>, ratings: seq<RatingInput>,
                       freshId: string, now: int, ratingIds: seq<string>, ratingTimes: seq<int>) returns (e: Entry)
      requires |ratingIds| == |ratings| && |ratingTimes| == |ratings|
      modifies this
      ensures e == NewEntry(freshId, templateId, now, answers, ratings, ratingIds, ratingTimes)
      ensures state == WithEntryCreated(old(state), e)
      ensures user == old(user)
    {
      e := NewEntry(freshId, templateId, now, answers, ratings, ratingIds, ratingTimes);
      state := WithEntryCreated(state, e);
    }

    /** `updateEntry`: reports whether an entry had the id. */
    method UpdateEntry(entryId: string, answers: Records.Record<Answer>, ratings: seq<RatingInput>,
                       ratingIds: seq<string>, ratingTimes: seq<int>) returns (ok: bool)
      requires |ratingIds| == |ratings| && |ratingTimes| == |ratings|
      modifies this
      ensures (ok, state) == WithEntryUpdated(old(state), entryId, answers, StampRatings(ratings, ratingIds, ratingTimes))
      ensures user == old(user)
    {
      var r := WithEntryUpdated(state, entryId, answers, StampRatings(ratings, ratingIds, ratingTimes));
      ok, state := r.0, r.1;
    }

    method DeleteEntry(entryId: string)
      modifies this
      ensures state == WithEntryDeleted(old(state), entryId)
      ensures user == old(user)
    {
      state := WithEntryDeleted(state, entryId);
    }

    method DeleteMultipleEntries(entryIds: seq<string>)
      modifies this
      ensures state == WithEntriesDeleted(old(state), entryIds)
      ensures user == old(user)
    {
      state := WithEntriesDeleted(state, entryIds);
    }

    /** `updateUserProfile`: a no-op without a user. */
    method UpdateUserProfile(profile: UserPatch)
      modifies this
      ensures old(user).None? ==> user == None
      ensures old(user).Some? ==> user == Some(MergedUser(old(user).value, profile))
      ensures state == old(state)
    {
      if user.Some? {
        user := Some(MergedUser(user.value, profile));
      }
    }

    /** `updateUserPreferences`: a no-op without a user; otherwise the
        preferences are merged and a given dark-mode value is also copied
        into the state. */
    method UpdateUserPreferences(prefs: PreferencesPatch)
      modifies this
      ensures old(user).None? ==> user == None && state == old(state)
      ensures old(user).Some? ==>
        && user == Some(old(user).value.(preferences := MergedPreferences(old(user).value.preferences, prefs)))
        && state == old(state).(darkMode := prefs.darkMode.GetOr(old(state).darkMode))
    {
      if user.Some? {
        user := Some(user.value.(preferences := MergedPreferences(user.value.preferences, prefs)));
        if prefs.darkMode.Some? {
          state := state.(darkMode := prefs.darkMode.value);
        }
      }
    }
  }
}

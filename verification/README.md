# Echo of Self journal: a Dafny model

This project models the core of the "Echo of Self" journaling app. The app is
a React single-page application with two Deno edge functions.

- **The store.** The journal store (`JournalContext`) holds templates of
  questions, rating categories, entries and the signed-in user. It adds,
  updates and deletes them.
- **Settings forms.** The template, category and preferences forms edit a
  draft and submit it to the store.
- **Entry form.** The entry form picks a template and its rating
  categories. It loads an entry for editing, and creates or updates an
  entry on submit.
- **Pages.** The dashboard, calendar, timeline, card, settings, new-entry
  and edit-entry pages group, sort, filter and preview entries. Several of
  them confirm deletes.
- **AI coach.** The coach's chat session sends messages optimistically and
  cleans up afterwards. The voice recorder keeps an `MM:SS` clock and a
  small recording state machine.
- **Edge functions.** `ai-chat` and `transcribe-audio` validate their
  request, then relay to the model provider.

## How the model is built

Each core source file is one module:

| module | file |
|---|---|
| `JournalStore` | `journal_store.dfy` |
| `TemplateForm` | `template_form.dfy` |
| `CategoryForm` | `category_form.dfy` |
| `PreferencesForm` | `preferences_form.dfy` |
| `EntryForm` | `entry_form.dfy` |
| `JournalCard` | `journal_card.dfy` |
| `JournalTimeline` | `journal_timeline.dfy` |
| `Dashboard` | `dashboard.dfy` |
| `CalendarView` | `calendar_view.dfy` |
| `SettingsPage` | `settings_page.dfy` |
| `NewEntry` | `new_entry.dfy` |
| `EditEntry` | `edit_entry.dfy` |
| `ChatSession` | `chat_session.dfy` |
| `VoiceRecorder` | `voice_recorder.dfy` |
| `AiChat` | `ai_chat.dfy` |
| `TranscribeAudio` | `transcribe_audio.dfy` |
| `Types` | `types.dfy` |

Shared modules:

- `Optional`: option values.
- `Text`: ECMAScript `trim`, decimal numerals, `padStart`, preview truncation.
- `Seqs`: `filter` and its laws.
- `Sorting`: a stable `Array.prototype.sort` with a descending comparator.
- `Records`: JavaScript plain objects used as dictionaries, with the
  language's key enumeration order. Array-index keys such as `"1"` come
  first in ascending order, and the other keys follow in insertion order.
- `Grouping`: the `reduce` that groups entries into buckets.
- `Relay`: the response shapes shared by both edge functions.
- `ConfirmDelete`: the pending-id and open-flag pair behind each delete
  confirmation.

### How state and time are modelled

- **Classes for React state.** State the components update step by step
  becomes a class with `modifies` clauses:
  - `JournalStore.Store`;
  - the form classes `TemplateForm.Editor`, `CategoryForm.Form` and `EntryForm.Form`;
  - `ChatSession.Chat`;
  - `VoiceRecorder.Recorder`;
  - `ConfirmDelete.Dialog`.
- **Specification functions.** Each store operation is specified by a pure
  function of the old state, such as `WithTemplateAdded` or
  `WithEntryDeleted`. The lemmas state the store's promises about those
  functions.
- **Outside values are parameters.** `uuidv4()`, `Date.now()`, `new Date()`,
  the browser's confirmation answer, microphone access, the environment's
  API key, `atob` and the provider calls all become parameters.
- **Date formatting is a parameter.** date-fns `format` with its
  `'yyyy-MM-dd'` and `'MMMM yyyy'` patterns becomes `dayOf` and `monthOf`.
  `new Date(key).getTime()` becomes `dateValue`.

### Behaviour modelled as written

- **Zero order.** `addTemplate` computes `q.order || i`, so it treats an
  order of `0` as missing.
- **Category form.** It always calls `addCategory`, even when editing an
  existing category.
- **Entry update result.** The entry form ignores the `false` that
  `updateEntry` returns for an unknown id.
- **Placeholder cleanup.** After a reply, the chat session filters out its
  placeholder with a fresh `Date.now()`. The placeholder is removed only
  when both clock readings are equal; `ChatSession.RepliedSend` states both
  outcomes.

## Model

| member | source | states |
|---|---|---|
| Types.ParseTemplateType | src/types.ts:4 | exactly `"sod"` and `"eod"` are template types, and each reads back as its own name |
| Types.TemplateTypeRoundTrip | src/types.ts:4 | writing a template type and reading it back gives the same type |
| Types.ParseQuestionType | src/types.ts:80 | exactly the four question-type names are accepted, each naming itself |
| Types.QuestionTypeRoundTrip | src/types.ts:80 | question types round-trip through their names |
| Types.ParseRole | src/types.ts:127 | exactly `system`, `user` and `assistant` are message roles |
| Types.RoleRoundTrip | src/types.ts:127 | roles round-trip through their names |
| Text.OrElse | supabase/functions/ai-chat/index.ts:70 | `s \|\| fallback`: `s` when non-empty, else the fallback |
| Text.TrimStart | src/components/settings/TemplateForm.tsx:104 | the result is a suffix of the input, what was dropped is all whitespace, and the result does not start with whitespace |
| Text.TrimEnd | src/components/settings/TemplateForm.tsx:104 | the mirror image: a prefix, whitespace dropped, no trailing whitespace |
| Text.TrimEmptyIffBlank | src/components/settings/TemplateForm.tsx:104 | `!s.trim()` holds exactly when the string is all whitespace |
| Text.TrimHasNoOuterWhitespace | src/pages/ai-coach/ChatSession.tsx:99 | a non-empty trimmed string has no whitespace at either end |
| Text.NatToString | src/pages/Settings.tsx:178 | the numeral is non-empty, all digits, and has no leading zero |
| Text.NatToStringValue | src/pages/Settings.tsx:178 | the numeral reads back as the number |
| Text.NatToStringInjective | src/components/journal/EntryForm.tsx:103 | different numbers give different numerals, so ids built from them differ |
| Text.NatToStringLength | src/components/ai-coach/VoiceRecorder.tsx:98 | one digit exactly below 10, at most two exactly below 100 |
| Text.PadStart | src/components/ai-coach/VoiceRecorder.tsx:98 | `padStart`: width is max(length, target), the string sits at the end, and the front is all pad characters |
| Text.Truncate | src/components/journal/JournalCard.tsx:20-22 | at most `limit + 3` long; unchanged when short enough; otherwise `limit` characters of the input then `...` |
| Records.Keys | src/components/journal/JournalTimeline.tsx:34 | `Object.keys` lists the fields' keys in enumeration order |
| Records.Get | src/pages/CalendarView.tsx:29 | a lookup is `undefined` exactly when the key is absent |
| Records.PutGet | src/contexts/JournalContext.tsx:299 | after `r[k] = v`, reading `k` gives `v` |
| Records.PutOther | src/components/journal/EntryForm.tsx:67-72 | writing one key leaves every other key's value unchanged |
| Records.PutKeys | src/components/journal/EntryForm.tsx:67-72 | writing adds the key to the key multiset when it is new and otherwise keeps the keys; the size grows by one exactly for a new key |
| Records.PutWellFormed | src/components/journal/EntryForm.tsx:49 | assignment keeps keys distinct, with index keys first and ascending |
| Records.FromFieldsGet | src/components/journal/EntryForm.tsx:47-50 | an object built by successive assignment is well formed, and each key holds its last assigned value |
| Records.FromFieldsRoundTrip | src/components/journal/EntryForm.tsx:78-81 | assigning an object's entries in enumeration order into `{}` rebuilds it exactly |
| Seqs.Filter | src/contexts/JournalContext.tsx:232 | `filter` never returns more elements than it was given; which elements survive is stated by `Seqs.FilterMembership` |
| Seqs.FirstIndex | src/components/journal/EntryForm.tsx:27 | the position `find` stops at: the first element that passes, with no passing element before it, or the length when none passes |
| Seqs.FilterMembership | src/contexts/JournalContext.tsx:232 | an element is in the result exactly when it is in the input and passes |
| Seqs.FilterPartition | src/pages/Settings.tsx:39-40 | two complementary filters split the input: their multisets and lengths add up to the input's |
| Seqs.FilterIdempotent | src/pages/ai-coach/ChatSession.tsx:146-148 | filtering twice by the same test is filtering once |
| Seqs.DistinctPermutation | src/pages/Dashboard.tsx:34-36 | a permutation of a duplicate-free sequence is duplicate-free |
| Sorting.SortDesc | src/components/journal/JournalTimeline.tsx:35-37 | sorting keeps the length and the multiset of elements |
| Sorting.SortDescSorted | src/components/journal/JournalTimeline.tsx:35-37 | the comparator `b - a` sorts keys into non-increasing order |
| Sorting.SortDescStable | src/components/journal/JournalTimeline.tsx:35-37 | the sort is stable: elements with equal keys keep their input order |
| Sorting.SortDescOfSorted | src/pages/Dashboard.tsx:34-36 | an already sorted sequence is left unchanged |
| Grouping.GroupBy | src/pages/Dashboard.tsx:26-31 | the reducer loop computes the grouped record |
| Grouping.GroupedWellFormed | src/pages/Dashboard.tsx:26-31 | the grouped record has distinct keys in enumeration order |
| Grouping.GroupedGet | src/pages/Dashboard.tsx:26-31 | the bucket of `k` holds exactly the items with key `k`, in input order; it exists exactly when such an item exists |
| Grouping.ExactlyOneBucket | src/components/journal/JournalTimeline.tsx:21-31 | each item is in the bucket of its own key and in no other |
| Grouping.BucketItemsFromInput | src/pages/CalendarView.tsx:20-25 | every bucketed item came from the input and carries the bucket's key |
| Grouping.GroupedKeys | src/pages/Dashboard.tsx:34 | the bucket keys are exactly the keys that occur |
| Grouping.GroupedTotal | src/pages/Dashboard.tsx:26-31 | the buckets together hold exactly as many items as the input |
| JournalStore.NumberedQuestions | src/contexts/JournalContext.tsx:203-207 | each new question gets id `${id}-${i}` and order `q.order \|\| i`; its text, type and options are kept |
| JournalStore.NumberedQuestionIdsDistinct | src/contexts/JournalContext.tsx:205 | the question ids of a new template are pairwise distinct, whatever ids the draft had |
| JournalStore.WithTemplateAdded | src/contexts/JournalContext.tsx:198-216 | exactly one template is appended, with the given id, the draft's name and type, and numbered questions; the old templates and everything else are unchanged |
| JournalStore.ReplacedById | src/contexts/JournalContext.tsx:222-224 | each template with the same id is replaced, and the others are kept in place |
| JournalStore.WithTemplateUpdated | src/contexts/JournalContext.tsx:219-226 | only the templates change |
| JournalStore.UpdateTemplateAbsent | src/contexts/JournalContext.tsx:222-224 | updating an unknown id changes nothing |
| JournalStore.UpdateTemplateEffect | src/contexts/JournalContext.tsx:222-224 | same length; every template with that id becomes the new one, and the others stay |
| JournalStore.UpdateTemplateIdempotent | src/contexts/JournalContext.tsx:219-226 | updating twice with the same template is updating once |
| JournalStore.WithTemplateDeleted | src/contexts/JournalContext.tsx:229-234 | only the templates change |
| JournalStore.DeleteTemplateExact | src/contexts/JournalContext.tsx:232 | a template survives exactly when its id differs; the survivors plus the removed make up the old list |
| JournalStore.DeleteTemplateAbsent | src/contexts/JournalContext.tsx:232 | deleting an unknown id changes nothing |
| JournalStore.WithCategoryAdded | src/contexts/JournalContext.tsx:237-244 | exactly the new category is appended, and nothing else changes |
| JournalStore.WithCategoryDeleted | src/contexts/JournalContext.tsx:247-252 | only the categories change |
| JournalStore.DeleteCategoryExact | src/contexts/JournalContext.tsx:250 | a category survives exactly when its id differs; survivors plus removed make up the old list |
| JournalStore.DeleteCategoryAbsent | src/contexts/JournalContext.tsx:250 | deleting an unknown id changes nothing |
| JournalStore.StampRatings | src/contexts/JournalContext.tsx:265-269 | each rating gets its own fresh id and timestamp, position by position |
| JournalStore.Unstamped | src/contexts/JournalContext.tsx:265-269 | dropping id and timestamp keeps one rating input per rating |
| JournalStore.StampRatingsKeepsInput | src/contexts/JournalContext.tsx:265-269 | stamping keeps every category and value in order |
| JournalStore.NewEntry | src/contexts/JournalContext.tsx:260-270 | the new entry has the fresh id, the template id, the clock time and the answers; its ratings are the stamped inputs |
| JournalStore.WithEntryCreated | src/contexts/JournalContext.tsx:272-275 | exactly the new entry is appended, and nothing else changes |
| JournalStore.EntryById | src/pages/EditEntry.tsx:15 | `find` gives nothing exactly when no entry has the id; otherwise the first entry with it |
| JournalStore.EntriesRevised | src/contexts/JournalContext.tsx:294-306 | entries with the id get the new answers and ratings and keep id, template and timestamp; the others are untouched |
| JournalStore.WithEntryUpdated | src/contexts/JournalContext.tsx:281-310 | returns `true` exactly when an entry has the id; on `false` the state is unchanged; only the entries ever change |
| JournalStore.UpdateEntryFound | src/contexts/JournalContext.tsx:281-310 | after a successful update the entry is still found under its id, carrying the new answers and ratings |
| JournalStore.WithEntryDeleted | src/contexts/JournalContext.tsx:313-318 | only the entries change |
| JournalStore.WithEntriesDeleted | src/contexts/JournalContext.tsx:321-326 | only the entries change |
| JournalStore.DeleteEntriesExact | src/contexts/JournalContext.tsx:324 | an entry survives exactly when its id is not listed; survivors plus removed make up the old list |
| JournalStore.DeleteEntriesAbsent | src/contexts/JournalContext.tsx:324 | deleting ids no entry has changes nothing |
| JournalStore.DeleteEntriesSingle | src/contexts/JournalContext.tsx:313-326 | deleting a one-element list equals `deleteEntry` of that id |
| JournalStore.DeleteEntryExact | src/contexts/JournalContext.tsx:316 | an entry survives exactly when its id differs |
| JournalStore.UserDarkModeToggled | src/contexts/JournalContext.tsx:186-194 | a user's dark-mode preference is negated and nothing else changes; no user stays no user |
| JournalStore.ToggleUserTwice | src/contexts/JournalContext.tsx:184-195 | toggling twice restores the user |
| JournalStore.MergedUser | src/contexts/JournalContext.tsx:331-334 | `{...user, ...profile}`: each given field wins, and each missing one is kept |
| JournalStore.MergeEmptyPatch | src/contexts/JournalContext.tsx:331-334 | an empty profile patch changes nothing |
| JournalStore.MergedPreferences | src/contexts/JournalContext.tsx:343-346 | each given preference wins, and each missing one is kept |
| JournalStore.MergePreferencesIdempotent | src/contexts/JournalContext.tsx:339-354 | applying the same preferences patch twice is applying it once |
| JournalStore.Store.constructor | src/contexts/JournalContext.tsx:147-155 | the store starts from the given fixtures with dark mode off and the given user |
| JournalStore.Store.ToggleDarkMode | src/contexts/JournalContext.tsx:184-195 | flips the state's dark mode and the user's preference, and nothing else |
| JournalStore.Store.AddTemplate | src/contexts/JournalContext.tsx:198-216 | returns the fresh id; the state becomes `WithTemplateAdded`; the user is unchanged |
| JournalStore.Store.UpdateTemplate | src/contexts/JournalContext.tsx:219-226 | the state becomes `WithTemplateUpdated`; the user is unchanged |
| JournalStore.Store.DeleteTemplate | src/contexts/JournalContext.tsx:229-234 | the state becomes `WithTemplateDeleted`; the user is unchanged |
| JournalStore.Store.AddCategory | src/contexts/JournalContext.tsx:237-244 | returns the fresh id; the state becomes `WithCategoryAdded` |
| JournalStore.Store.DeleteCategory | src/contexts/JournalContext.tsx:247-252 | the state becomes `WithCategoryDeleted` |
| JournalStore.Store.CreateEntry | src/contexts/JournalContext.tsx:255-278 | returns the new entry and appends it |
| JournalStore.Store.UpdateEntry | src/contexts/JournalContext.tsx:281-310 | returns whether the id existed and applies `WithEntryUpdated` with freshly stamped ratings |
| JournalStore.Store.DeleteEntry | src/contexts/JournalContext.tsx:313-318 | the state becomes `WithEntryDeleted` |
| JournalStore.Store.DeleteMultipleEntries | src/contexts/JournalContext.tsx:321-326 | the state becomes `WithEntriesDeleted` |
| JournalStore.Store.UpdateUserProfile | src/contexts/JournalContext.tsx:329-336 | does nothing without a user; otherwise merges the patch into the user; the state is unchanged |
| JournalStore.Store.UpdateUserPreferences | src/contexts/JournalContext.tsx:339-354 | does nothing without a user; otherwise merges the preferences; a given dark-mode value is also copied into the state |
| TemplateForm.InitialDraft | src/components/settings/TemplateForm.tsx:22-28 | the edited template's fields, or an empty morning template with one blank text question |
| TemplateForm.UnorderedAll | src/components/settings/TemplateForm.tsx:74 | clears the order of every question, position by position |
| TemplateForm.Renumbered | src/components/settings/TemplateForm.tsx:74 | orders become the positions, and everything else about each question is kept |
| TemplateForm.RenumberedIgnoresOrders | src/components/settings/TemplateForm.tsx:74 | renumbering depends only on the questions apart from their orders |
| TemplateForm.Swapped | src/components/settings/TemplateForm.tsx:84 | the destructuring swap exchanges two positions, keeps the rest, and permutes the list |
| TemplateForm.MovedUp | src/components/settings/TemplateForm.tsx:79-88 | a no-op at index 0; otherwise the question trades places with the one above and orders are renumbered |
| TemplateForm.MovedDown | src/components/settings/TemplateForm.tsx:90-99 | a no-op at the last index; otherwise it trades places with the one below, renumbered |
| TemplateForm.MovesRenumber | src/components/settings/TemplateForm.tsx:86 | after a move that does something, the orders are exactly 0..n-1 |
| TemplateForm.RenumberedKeepsQuestions | src/components/settings/TemplateForm.tsx:74 | renumbering is a permutation of the questions apart from their orders |
| TemplateForm.UnorderedSwapped | src/components/settings/TemplateForm.tsx:84 | clearing orders commutes with swapping |
| TemplateForm.MovesKeepQuestions | src/components/settings/TemplateForm.tsx:79-99 | moving never adds, drops or alters a question, only reorders |
| TemplateForm.UpThenDown | src/components/settings/TemplateForm.tsx:79-99 | moving up then back down restores the list, renumbered |
| TemplateForm.DownThenUp | src/components/settings/TemplateForm.tsx:79-99 | moving down then back up restores the list, renumbered |
| TemplateForm.RemovedAt | src/components/settings/TemplateForm.tsx:70-77 | removing an index drops exactly that question, keeps the rest in order, and renumbers; an out-of-range index only renumbers |
| TemplateForm.Appended | src/components/settings/TemplateForm.tsx:60-68 | one blank text question is appended with the old length as its order |
| TemplateForm.WithText | src/components/settings/TemplateForm.tsx:44-50 | only that question's text changes |
| TemplateForm.WithType | src/components/settings/TemplateForm.tsx:52-58 | only that question's type changes |
| TemplateForm.ButtonsKeepAQuestion | src/components/settings/TemplateForm.tsx:222-241 | with the remove button disabled at one question, the buttons never empty a non-empty form |
| TemplateForm.Submitted | src/components/settings/TemplateForm.tsx:101-130 | a blank name is rejected first, then any blank question; a valid draft updates the edited template under its id, or is added |
| TemplateForm.SubmitRejectsBlank | src/components/settings/TemplateForm.tsx:104-112 | the name is rejected exactly when it is all whitespace, and saving happens exactly when no field is blank |
| TemplateForm.Editor.constructor | src/components/settings/TemplateForm.tsx:22-28 | the form starts from `InitialDraft` |
| TemplateForm.Editor.HandleTypeChange | src/components/settings/TemplateForm.tsx:30-35 | only the draft's type changes |
| TemplateForm.Editor.HandleNameChange | src/components/settings/TemplateForm.tsx:37-42 | only the draft's name changes |
| TemplateForm.Editor.HandleQuestionTextChange | src/components/settings/TemplateForm.tsx:44-50 | the questions become `WithText` |
| TemplateForm.Editor.HandleQuestionTypeChange | src/components/settings/TemplateForm.tsx:52-58 | the questions become `WithType` |
| TemplateForm.Editor.AddQuestion | src/components/settings/TemplateForm.tsx:60-68 | the questions become `Appended` |
| TemplateForm.Editor.RemoveQuestion | src/components/settings/TemplateForm.tsx:70-77 | the questions become `RemovedAt` |
| TemplateForm.Editor.MoveQuestionUp | src/components/settings/TemplateForm.tsx:79-88 | the questions become `MovedUp` |
| TemplateForm.Editor.MoveQuestionDown | src/components/settings/TemplateForm.tsx:90-99 | the questions become `MovedDown` |
| TemplateForm.Editor.HandleSubmit | src/components/settings/TemplateForm.tsx:101-130 | a rejected draft leaves the store alone; otherwise the store's state becomes the update or the addition |
| CategoryForm.InitialDraft | src/components/settings/CategoryForm.tsx:20-23 | the initial category's name and type, else an empty morning category |
| CategoryForm.AcceptsIffNotBlank | src/components/settings/CategoryForm.tsx:42-45 | a draft is saved exactly when its name has a non-whitespace character |
| CategoryForm.Form.constructor | src/components/settings/CategoryForm.tsx:20-23 | the form starts from `InitialDraft` |
| CategoryForm.Form.HandleTypeChange | src/components/settings/CategoryForm.tsx:25-30 | only the type changes |
| CategoryForm.Form.HandleNameChange | src/components/settings/CategoryForm.tsx:32-37 | only the name changes |
| CategoryForm.Form.HandleSubmit | src/components/settings/CategoryForm.tsx:39-55 | saves exactly when accepted, and then always by `addCategory`; otherwise the store is unchanged |
| PreferencesForm.JournalPatch | src/components/settings/PreferencesForm.tsx:17-27 | with a user, a notifications patch with the journal flag flipped and insights kept; none without a user |
| PreferencesForm.InsightsPatch | src/components/settings/PreferencesForm.tsx:29-39 | with a user, a patch with the insights flag flipped and journal kept; none without a user |
| PreferencesForm.TogglesFlipOneFlag | src/components/settings/PreferencesForm.tsx:17-39 | merged into the user, each switch flips its own flag only; toggling twice restores the preferences |
| PreferencesForm.ToggleMessage | src/components/settings/PreferencesForm.tsx:14 | the toast says `disabled` when the setting was on and `enabled` when it was off |
| PreferencesForm.JournalChecked | src/components/settings/PreferencesForm.tsx:74 | the journal switch is on exactly for a user whose journal flag is set |
| PreferencesForm.InsightsChecked | src/components/settings/PreferencesForm.tsx:88 | the insights switch is on exactly for a user whose insights flag is set |
| PreferencesForm.HandleDarkModeToggle | src/components/settings/PreferencesForm.tsx:12-15 | toggles the store and names the new setting from the old state |
| PreferencesForm.HandleJournalNotificationsToggle | src/components/settings/PreferencesForm.tsx:17-27 | without a user nothing changes; with one, only the journal flag flips |
| PreferencesForm.HandleInsightsNotificationsToggle | src/components/settings/PreferencesForm.tsx:29-39 | without a user nothing changes; with one, only the insights flag flips |
| EntryForm.SelectTemplate | src/components/journal/EntryForm.tsx:27 | a template of the type when one exists; otherwise the first template; none only with no templates |
| EntryForm.CategoriesFor | src/components/journal/EntryForm.tsx:30 | never more categories than given |
| EntryForm.CategoriesForExact | src/components/journal/EntryForm.tsx:30 | a category is rated exactly when it has the form's type |
| EntryForm.RatingFields | src/components/journal/EntryForm.tsx:48-50 | one `category: value` field per rating, in order |
| EntryForm.LoadRatings | src/components/journal/EntryForm.tsx:47-51 | the `forEach` loop builds the object of successive assignments, which is well formed |
| EntryForm.LastRatingOfFields | src/components/journal/EntryForm.tsx:48-50 | the last field for a category carries the value of that category's last rating |
| EntryForm.LoadedRatingIsLast | src/components/journal/EntryForm.tsx:47-51 | after loading, each category holds the value of its last rating |
| EntryForm.RatingsArray | src/components/journal/EntryForm.tsx:78-81 | one `{category, value}` per field, in enumeration order |
| EntryForm.RatingsRoundTrip | src/components/journal/EntryForm.tsx:47-81 | submitted ratings, stamped and loaded back for editing, give the same ratings object |
| EntryForm.DisplayedRating | src/components/journal/EntryForm.tsx:204 | `ratings[id] \|\| 5`: never 0; 5 for a missing category; otherwise the stored value or 5 |
| EntryForm.RatingChangedEffect | src/components/journal/EntryForm.tsx:67-72 | the rated category takes the new value, and every other category keeps its own |
| EntryForm.TextOf | src/components/journal/EntryForm.tsx:60-61 | `find(...)?.text`: none exactly when no question has the id, otherwise such a question's text |
| EntryForm.AnswerText | src/components/journal/EntryForm.tsx:60-61 | the template question's non-empty text wins; otherwise the custom question's; otherwise empty |
| EntryForm.AnswerChangedEffect | src/components/journal/EntryForm.tsx:56-65 | only that question's answer changes, to the given value with the looked-up text |
| EntryForm.CustomQuestion | src/components/journal/EntryForm.tsx:102-107 | a text question with the typed text, id `custom-<now>`, and order templates + customs + 1 |
| EntryForm.CustomQuestionIdsDiffer | src/components/journal/EntryForm.tsx:103 | custom questions added at different clock readings get different ids |
| EntryForm.Submitted | src/components/journal/EntryForm.tsx:74-97 | an update exactly when editing, under the edited id; otherwise a create with the form's template; both carry the answers and the ratings array |
| EntryForm.Form.constructor | src/components/journal/EntryForm.tsx:22-37 | the form starts with `SelectTemplate`, `CategoriesFor` and empty fields |
| EntryForm.Form.LoadForEdit | src/components/journal/EntryForm.tsx:40-54 | when editing an existing entry, its answers and ratings replace the form's; otherwise nothing changes |
| EntryForm.Form.HandleAnswerChange | src/components/journal/EntryForm.tsx:56-65 | answers become `AnswerChanged`, and nothing else changes |
| EntryForm.Form.HandleRatingChange | src/components/journal/EntryForm.tsx:67-72 | ratings become `RatingChanged`, and nothing else changes |
| EntryForm.Form.SetNewQuestion | src/components/journal/EntryForm.tsx:172 | only the new-question input changes |
| EntryForm.Form.HandleAddCustomQuestion | src/components/journal/EntryForm.tsx:99-112 | a blank input changes nothing; otherwise the question is appended, the input cleared and the dialog closed |
| EntryForm.Form.HandleSubmit | src/components/journal/EntryForm.tsx:74-97 | the store is updated (its result ignored) or given the new entry, as `Submitted` says |
| JournalCard.Title | src/components/journal/JournalCard.tsx:16-31 | "Evening Reflection" exactly for template `"2"`, "Morning Reflection" otherwise |
| JournalCard.FirstAnswerValue | src/components/journal/JournalCard.tsx:19 | the first answer's value in enumeration order, or empty without answers |
| JournalCard.PreviewShape | src/components/journal/JournalCard.tsx:19-22 | the preview is the answer when at most 100 long, else its first 100 characters and `...`; it is at most 103 long and always a prefix of the answer apart from the dots |
| JournalCard.CategoryLabel | src/components/journal/JournalCard.tsx:61-64 | ids "1" to "4" map to Energy, Mood, Productivity and Stress, each both ways; every other id maps to Satisfaction |
| JournalTimeline.SortEach | src/components/journal/JournalTimeline.tsx:34-38 | every group keeps its key, and its entries are sorted newest first |
| JournalTimeline.BuildTimeline | src/components/journal/JournalTimeline.tsx:21-45 | the reduce, the in-place sort of each group, and the sort of the keys compute `Timeline` |
| JournalTimeline.TimelineGroups | src/components/journal/JournalTimeline.tsx:21-38 | an entry is in a month group exactly when it is its own month's, and each group is newest first |
| JournalTimeline.TimelineOrder | src/components/journal/JournalTimeline.tsx:41-45 | the months are ordered by their newest entry, and each month is listed once |
| JournalTimeline.SortEachBucket | src/components/journal/JournalTimeline.tsx:34-38 | the group found under a key is that key's group, sorted |
| JournalTimeline.SortEachGet | src/components/journal/JournalTimeline.tsx:34-38 | sorting in place keeps exactly the same keys |
| JournalTimeline.EmptyTimeline | src/components/journal/JournalTimeline.tsx:21-45 | no entries give no groups |
| JournalTimeline.StripTags | src/components/journal/JournalTimeline.tsx:64 | stripping never lengthens the text; the lemmas below fix what it removes and what it keeps |
| JournalTimeline.AfterTag | src/components/journal/JournalTimeline.tsx:64 | what follows the first `>` is never longer than the input |
| JournalTimeline.ClosedTagSkipped | src/components/journal/JournalTimeline.tsx:64 | a tag closed by `>` ends right after that `>` |
| JournalTimeline.ClosedTagRemoved | src/components/journal/JournalTimeline.tsx:64 | a closed tag `<...>` is removed, the plain text before it is kept unchanged and in order, and the text after it is stripped in turn (`"a<b>c"` gives `"ac"`) |
| JournalTimeline.StripTagsRemovesOpen | src/components/journal/JournalTimeline.tsx:64 | no `<` survives the replace |
| JournalTimeline.StripTagsPlain | src/components/journal/JournalTimeline.tsx:64 | text without `<` is unchanged |
| JournalTimeline.UnclosedTagDropsRest | src/components/journal/JournalTimeline.tsx:64 | `>?` lets an unclosed `<` remove everything after it |
| JournalTimeline.NoCloseAfterTag | src/components/journal/JournalTimeline.tsx:64 | with no `>` ahead, the tag runs to the end |
| JournalTimeline.StripTagsIdempotent | src/components/journal/JournalTimeline.tsx:64 | stripping twice is stripping once |
| JournalTimeline.PreviewShape | src/components/journal/JournalTimeline.tsx:63-67 | the preview holds no `<`, and is the stripped text or its first 120 characters and `...` |
| Dashboard.SortedDatesShape | src/pages/Dashboard.tsx:26-36 | the days are newest first, each listed once, and exactly the days some entry falls on |
| Dashboard.Sections | src/pages/Dashboard.tsx:148-151 | a tab has at most one section per listed day |
| Dashboard.SectionsMembership | src/pages/Dashboard.tsx:149-151 | a section is shown exactly for a listed day that has entries with the template, and holds just those entries |
| Dashboard.TabHasAnyIffSections | src/pages/Dashboard.tsx:148-151 | the tab shows its empty message exactly when it would show no section |
| Dashboard.TabShowsTemplateEntries | src/pages/Dashboard.tsx:148 | the morning or evening tab has content exactly when some entry has its template |
| Dashboard.EntryInItsSection | src/pages/Dashboard.tsx:177-180 | every entry with the template is shown in its own day's section |
| Dashboard.CardsMatchTotal | src/pages/Dashboard.tsx:88-137 | the all-entries tab shows as many cards as the displayed total |
| Dashboard.ConfirmDeleteEntry | src/pages/Dashboard.tsx:47-54 | a truthy pending id is deleted and the dialog closed and cleared; otherwise nothing changes |
| ConfirmDelete.Dialog.constructor | src/pages/Dashboard.tsx:18-19 | no pending id, dialog closed |
| ConfirmDelete.Dialog.Request | src/pages/Dashboard.tsx:42-45 | records the id and opens the dialog |
| ConfirmDelete.Dialog.SetOpen | src/pages/Dashboard.tsx:206 | sets the open flag and keeps the pending id |
| ConfirmDelete.Dialog.Confirm | src/pages/Settings.tsx:96-103 | a truthy pending id is taken and the dialog closed and cleared; otherwise nothing is taken and nothing changes |
| CalendarView.EntriesWithExact | src/pages/CalendarView.tsx:28-33 | the selected day's list holds exactly that day's entries with the template |
| CalendarView.NothingSelected | src/pages/CalendarView.tsx:28-29 | with no day selected the lists are empty, given no entry's day is the empty key |
| CalendarView.HasEntryWithIff | src/pages/CalendarView.tsx:36-44 | a day gets its dot exactly when one of its entries has the template |
| CalendarView.BadgeIffNoDot | src/pages/CalendarView.tsx:120-129 | the add badge shows exactly when the selected day has no dot for that template |
| CalendarView.HandleDeleteEntry | src/pages/CalendarView.tsx:53-58 | the entry is deleted exactly when the user confirms |
| CalendarView.CreateEntryLink | src/pages/CalendarView.tsx:61-65 | a link exists exactly when a day is selected |
| SettingsPage.TemplateColumnsPartition | src/pages/Settings.tsx:39-40 | the two template columns split the templates by type, losing and duplicating nothing |
| SettingsPage.CategoryColumnsPartition | src/pages/Settings.tsx:43-44 | the two category columns split the categories the same way |
| SettingsPage.QuestionPreview | src/pages/Settings.tsx:171 | the first min(3, n) questions, in order |
| SettingsPage.PreviewAccountsForAll | src/pages/Settings.tsx:171-180 | no "more" line exactly when every question is listed; the line's count plus the listed ones make the whole list |
| SettingsPage.ConfirmDeleteTemplate | src/pages/Settings.tsx:96-103 | a truthy pending id deletes that template and closes the dialog; otherwise nothing changes |
| SettingsPage.ConfirmDeleteCategory | src/pages/Settings.tsx:111-118 | the same for categories |
| NewEntry.ValidatedType | src/pages/NewEntry.tsx:14 | `sod` and `eod` are kept, and anything else, including no parameter, becomes `sod` |
| NewEntry.ValidatedTypeStable | src/pages/NewEntry.tsx:14 | validation is idempotent and keeps each type's own name |
| NewEntry.CalendarLinkType | src/pages/CalendarView.tsx:63 | the calendar's link opens the new-entry page for the type it was built for |
| NewEntry.PageTitle | src/pages/NewEntry.tsx:17-21 | the morning title exactly for `sod`, the evening title exactly for `eod` |
| EditEntry.EntryFor | src/pages/EditEntry.tsx:15 | nothing without a route id; otherwise the first entry with that id |
| EditEntry.EditType | src/pages/EditEntry.tsx:25 | `sod` exactly for template `"1"` |
| EditEntry.Render | src/pages/EditEntry.tsx:18-34 | the form exactly when the entry is found; a redirect exactly for a truthy id with no entry; otherwise nothing |
| EditEntry.RenderFindsEntry | src/pages/EditEntry.tsx:15-34 | a route id shows the form exactly when an entry has it, and then it edits the first such entry |
| EditEntry.EditTypeMatchesCard | src/pages/EditEntry.tsx:25 | an evening card, or a card with no template, edits as an evening entry |
| ChatSession.TempIdsDiffer | src/pages/ai-coach/ChatSession.tsx:106-118 | a user temp id never equals a placeholder id; placeholder ids match exactly for equal clock readings; both start with `temp-` |
| ChatSession.Optimistic | src/pages/ai-coach/ChatSession.tsx:104-126 | the user's message and then the `...` placeholder are appended, both with `temp-` ids |
| ChatSession.AfterReply | src/pages/ai-coach/ChatSession.tsx:132-135 | the reply is appended last, after at most the old messages |
| ChatSession.AfterFailure | src/pages/ai-coach/ChatSession.tsx:146-148 | a failure never adds messages |
| ChatSession.AfterFailureExact | src/pages/ai-coach/ChatSession.tsx:146-148 | exactly the messages with a `temp-` id are removed |
| ChatSession.FailedSendForgotten | src/pages/ai-coach/ChatSession.tsx:104-148 | a failed send removes both temporary messages; a transcript with no temp ids comes back unchanged |
| ChatSession.RepliedSend | src/pages/ai-coach/ChatSession.tsx:104-135 | after a reply the user message stays and the reply follows; the placeholder goes only when the cleanup clock equals its creation clock |
| ChatSession.WithTranscript | src/pages/ai-coach/ChatSession.tsx:166 | the text alone for an empty input, else input, a space, then text |
| ChatSession.WithTranscriptKeepsBoth | src/pages/ai-coach/ChatSession.tsx:166 | the input stays in front and the transcript at the end, with at most one separator |
| ChatSession.Chat.constructor | src/pages/ai-coach/ChatSession.tsx:25-30 | starts with the loaded messages, an empty input and no send in flight |
| ChatSession.Chat.SetInput | src/pages/ai-coach/ChatSession.tsx:259 | only the input changes |
| ChatSession.Chat.BeginSend | src/pages/ai-coach/ChatSession.tsx:96-126 | a blank input or missing id does nothing; otherwise the trimmed text is taken, the input cleared, the send flagged and both temporaries appended |
| ChatSession.Chat.FinishSend | src/pages/ai-coach/ChatSession.tsx:129-154 | a reply applies `AfterReply`; a failure applies `AfterFailure` and restores the input; the flag drops either way |
| ChatSession.Chat.HandleSendMessage | src/pages/ai-coach/ChatSession.tsx:96-155 | returns the trimmed text exactly when a send happens; with a blank input or no session nothing changes; otherwise both temporaries are appended and cleaned up by the reply or the failure, the input is empty after a reply and holds the trimmed text after a failure, and no send is in flight (`SendDone`) |
| ChatSession.Chat.HandleKeyDown | src/pages/ai-coach/ChatSession.tsx:157-163 | sends exactly on Enter without Shift while no send is in flight, and then leaves the state `HandleSendMessage` leaves; otherwise nothing changes |
| ChatSession.Chat.HandleTranscriptionComplete | src/pages/ai-coach/ChatSession.tsx:165-171 | the input becomes `WithTranscript`, and the messages are kept |
| VoiceRecorder.Pad2 | src/components/ai-coach/VoiceRecorder.tsx:98 | all digits and at least two wide; exactly two wide below 100 |
| VoiceRecorder.Pad2Value | src/components/ai-coach/VoiceRecorder.tsx:98 | zero padding does not change the number read |
| VoiceRecorder.FormatTime | src/components/ai-coach/VoiceRecorder.tsx:95-99 | at least five characters, with the colon third from the end |
| VoiceRecorder.ClockFields | src/components/ai-coach/VoiceRecorder.tsx:98 | the minutes and seconds fields are recovered around the colon |
| VoiceRecorder.FormatTimeReadsBack | src/components/ai-coach/VoiceRecorder.tsx:95-99 | reading the clock back gives the elapsed seconds |
| VoiceRecorder.ReadPadded | src/components/ai-coach/VoiceRecorder.tsx:98 | padded minutes and seconds read back as `mins * 60 + secs` |
| VoiceRecorder.FormatTimeWidth | src/components/ai-coach/VoiceRecorder.tsx:95-99 | the clock is exactly five wide below 100 minutes |
| VoiceRecorder.ReadClockOf | src/components/ai-coach/VoiceRecorder.tsx:98 | a digit field, colon and two-digit field below 60 read as `mins * 60 + secs` |
| VoiceRecorder.MinutesAndSeconds | src/components/ai-coach/VoiceRecorder.tsx:96-97 | floor minutes and the remainder recompose the seconds, and under 6000 seconds means under 100 minutes |
| VoiceRecorder.ReportFor | src/components/ai-coach/VoiceRecorder.tsx:50-54 | a transcript is reported as complete; an `Error` keeps its message; any other throw becomes "Transcription failed" |
| VoiceRecorder.Recorder.constructor | src/components/ai-coach/VoiceRecorder.tsx:18-24 | idle, at time 0, no chunks, no timer |
| VoiceRecorder.Recorder.StartRecording | src/components/ai-coach/VoiceRecorder.tsx:33-80 | without microphone access nothing changes; with it, recording starts at 0 with no chunks and the new timer |
| VoiceRecorder.Recorder.DataAvailable | src/components/ai-coach/VoiceRecorder.tsx:41-43 | chunks are kept in arrival order |
| VoiceRecorder.Recorder.Tick | src/components/ai-coach/VoiceRecorder.tsx:68-70 | one tick adds one second |
| VoiceRecorder.Recorder.StopRecording | src/components/ai-coach/VoiceRecorder.tsx:82-93 | stops exactly a running recording; a truthy timer handle is cleared |
| VoiceRecorder.Recorder.BeginTranscription | src/components/ai-coach/VoiceRecorder.tsx:45-50 | the buffered chunks become the audio, and starting is disabled while transcribing |
| VoiceRecorder.Recorder.FinishTranscription | src/components/ai-coach/VoiceRecorder.tsx:48-60 | reports `ReportFor` and re-enables starting, whatever the outcome |
| Relay.Preflight | supabase/functions/ai-chat/index.ts:12-13 | an `OPTIONS` request is answered 200 "ok" |
| Relay.Failure | supabase/functions/ai-chat/index.ts:66-75 | status 500 with the error's message, or the fallback when that is empty; the message is never empty |
| Relay.Success | supabase/functions/ai-chat/index.ts:57-65 | status 200 with the payload |
| AiChat.Formatted | supabase/functions/ai-chat/index.ts:36-47 | a truthy system prompt comes first, then the caller's messages unchanged; without one, just the messages |
| AiChat.FormatMessages | supabase/functions/ai-chat/index.ts:36-47 | the push loop builds `Formatted` |
| AiChat.Handle | supabase/functions/ai-chat/index.ts:10-77 | responses are always well shaped; the checks run in order (preflight, body, messages, key); only then is the model called with the formatted conversation and its reply relayed |
| TranscribeAudio.ByteOf | supabase/functions/transcribe-audio/index.ts:38 | a `Uint8Array` store keeps the code unit modulo 256 |
| TranscribeAudio.BytesOf | supabase/functions/transcribe-audio/index.ts:35-39 | one byte per code unit, each the unit modulo 256 |
| TranscribeAudio.BinaryStringCopied | supabase/functions/transcribe-audio/index.ts:34-39 | a binary string is copied byte for byte and reads back unchanged |
| TranscribeAudio.ToBytes | supabase/functions/transcribe-audio/index.ts:35-39 | the copy loop fills a fresh buffer with `BytesOf` |
| TranscribeAudio.ApiErrorMessage | supabase/functions/transcribe-audio/index.ts:56-59 | "OpenAI API error: " then the provider's truthy message, else the status text |
| TranscribeAudio.Handle | supabase/functions/transcribe-audio/index.ts:10-77 | responses are always well shaped; the checks run in order (preflight, body, audio, key, decoding); only then is the decoded audio sent and the answer relayed |

## Left out

- Rendering, toasts, navigation, `document.title` side effects, CSS classes, `localStorage` and the `dark` class on the document are not modelled. The one exception is the title string, which `NewEntry.PageTitle` covers.
- The dark-mode value read from `localStorage` on mount is left out, because it is I/O.
- The settings page's super-admin check is left out, because it is a database query plus a hard-coded override.
- MediaRecorder, `getUserMedia`, `setInterval` and stopping the microphone tracks are left out. The recorder sees them as a granted flag, a timer handle and chunk events.
- The network is left out:
  - The OpenAI client and the `fetch` to the transcription endpoint become parameters returning outcomes.
  - The form-data encoding and the `Blob` are not modelled.
  - The model name and temperature constants are not modelled.
- TranscribeAudio.Handle: a failure of `response.json()` on the provider's error response is not modelled. An error response always carries an optional message.
- `atob` is a parameter and base64 decoding is not modelled.
- JavaScript strings are sequences of characters. UTF-16 surrogate pairs are not distinguished.
- date-fns `format` and `Date` parsing are the parameters `dayOf`, `monthOf` and `dateValue`. Time zones and invalid dates are not modelled.
- CORS headers and content types are not modelled.
- JournalStore.MergedUser: a `Partial<User>` key that is present but `undefined` is treated as absent. In JavaScript such a key overwrites the field with `undefined`. The same applies to JournalStore.MergedPreferences.
- JournalStore.Store.UpdateEntry: one stamped ratings list, with one set of `uuidv4()` and `new Date()` values, is shared by every entry whose id matches. The source draws fresh values inside `entries.map` for each matching entry. The model is exact only while entry ids are unique, which holds for every id the store hands out.
- JournalStore.EntriesRevised: gives every matching entry the same ratings list, for the reason in the line above.
- JavaScript numbers are modelled as integers. This covers rating values, question orders, timestamps and `createdAt`. Fractions and `NaN` are not represented. `NaN` would take the default in `q.order || i` and in `ratings[id] || 5`, like `0` does, but the app only ever produces integers for these fields.
- JournalStore.Store.UpdateUserPreferences: React's batching of the two `setState` calls is not modelled. Each method applies its updates in order.
- The AI coach's session and message loading, and `aiChatService`, are not part of this model. The chat receives `sendMessage`'s outcome as a parameter. `aiChatService` sends `{sessionId, message}`, which differs from the `{messages, systemPrompt}` body the edge function reads. That mismatch lies outside the modelled files.
- The `test-openai-key` edge function and the rich text editor are not part of this model.
- `handleTranscriptionError` only shows a toast and is not modelled.
- EntryForm.Form.constructor requires at least one template. With none, the source's `state.templates[0]` is `undefined` and rendering its questions throws.
- Exceptions thrown inside the store calls, which the forms' `try`/`catch` blocks would report, are not modelled. The modelled store calls do not throw.

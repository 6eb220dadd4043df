/** The preferences card: three switches. Dark mode goes through the store's
    `toggleDarkMode`; each notification switch builds a preferences patch
    that flips its own flag and copies the other one, and sends it to
    `updateUserPreferences`. Without a signed-in user the notification
    switches do nothing. */
module PreferencesForm {
  import opened Optional
  import opened Types
  import JournalStore

  /** The patch sent by the journal-reminders switch, none without a user. */
  function JournalPatch(u: Option<User>): (p: Option<JournalStore.PreferencesPatch>)
    ensures p.Some? <==> u.Some?
    ensures u.Some? ==>
      && p.value.darkMode.None?
      && p.value.notifications == Some(Notifications(!u.value.preferences.notifications.journal,
                                                      u.value.preferences.notifications.insights))
  {
    match u
    case None => None
    case Some(v) =>
      var n := v.preferences.notifications;
      Some(JournalStore.PreferencesPatch(None, Some(n.(journal := !n.journal))))
  }

  /** The patch sent by the insights switch, none without a user. */
  function InsightsPatch(u: Option<User>): (p: Option<JournalStore.PreferencesPatch>)
    ensures p.Some? <==> u.Some?
    ensures u.Some? ==>
      && p.value.darkMode.None?
      && p.value.notifications == Some(Notifications(u.value.preferences.notifications.journal,
                                                      !u.value.preferences.notifications.insights))
  {
    match u
    case None => None
    case Some(v) =>
      var n := v.preferences.notifications;
      Some(JournalStore.PreferencesPatch(None, Some(n.(insights := !n.insights))))
  }

  /** The preferences after the store merges a patch. */
  function Applied(u: User, p: JournalStore.PreferencesPatch): UserPreferences {
    JournalStore.MergedPreferences(u.preferences, p)
  }

  /** Each notification switch flips its own flag and nothing else of the
      preferences, and a second press restores them. */
  lemma TogglesFlipOneFlag(u: User)
    ensures var r := Applied(u, JournalPatch(Some(u)).value);
      && r.notifications.journal == !u.preferences.notifications.journal
      && r.notifications.insights == u.preferences.notifications.insights
      && r.darkMode == u.preferences.darkMode
    ensures var r := Applied(u, InsightsPatch(Some(u)).value);
      && r.notifications.insights == !u.preferences.notifications.insights
      && r.notifications.journal == u.preferences.notifications.journal
      && r.darkMode == u.preferences.darkMode
    ensures var u' := u.(preferences := Applied(u, JournalPatch(Some(u)).value));
      Applied(u', JournalPatch(Some(u')).value) == u.preferences
    ensures var u' := u.(preferences := Applied(u, InsightsPatch(Some(u)).value));
      Applied(u', InsightsPatch(Some(u')).value) == u.preferences
  {
  }

  /** The toast names the new setting, read from the value before the
      toggle: "disabled" when it was on, "enabled" when it was off. */
  function ToggleMessage(setting: string, wasOn: bool): (m: string)
    ensures wasOn ==> m == setting + " disabled"
    ensures !wasOn ==> m == setting + " enabled"
  {
    setting + (if wasOn then " disabled" else " enabled")
  }

  /** What a switch shows: `user?.preferences.notifications.journal || false`. */
  function JournalChecked(u: Option<User>): (b: bool)
    ensures b <==> u.Some? && u.value.preferences.notifications.journal
  {
    match u
    case None => false
    case Some(v) => v.preferences.notifications.journal
  }

  function InsightsChecked(u: Option<User>): (b: bool)
    ensures b <==> u.Some? && u.value.preferences.notifications.insights
  {
    match u
    case None => false
    case Some(v) => v.preferences.notifications.insights
  }

  /** `handleDarkModeToggle`; the message is computed from the state before
      the toggle. */
  method HandleDarkModeToggle(store: JournalStore.Store) returns (message: string)
    modifies store
    ensures message == ToggleMessage("Dark mode", old(store.state.darkMode))
    ensures store.state == old(store.state).(darkMode := !old(store.state.darkMode))
    ensures store.user == JournalStore.UserDarkModeToggled(old(store.user))
  {
    message := ToggleMessage("Dark mode", store.state.darkMode);
    store.ToggleDarkMode();
  }

  /** `handleJournalNotificationsToggle`: flips the journal flag of a
      signed-in user and leaves the rest of the store alone. */
  method HandleJournalNotificationsToggle(store: JournalStore.Store)
    modifies store
    ensures old(store.user).None? ==> store.user == None && store.state == old(store.state)
    ensures old(store.user).Some? ==>
      && store.user == Some(old(store.user).value.(preferences := Applied(old(store.user).value, JournalPatch(old(store.user)).value)))
      && store.state == old(store.state)
  {
    var p := JournalPatch(store.user);
    if p.Some? {
      store.UpdateUserPreferences(p.value);
    }
  }

  /** `handleInsightsNotificationsToggle`. */
  method HandleInsightsNotificationsToggle(store: JournalStore.Store)
    modifies store
    ensures old(store.user).None? ==> store.user == None && store.state == old(store.state)
    ensures old(store.user).Some? ==>
      && store.user == Some(old(store.user).value.(preferences := Applied(old(store.user).value, InsightsPatch(old(store.user)).value)))
      && store.state == old(store.state)
  {
    var p := InsightsPatch(store.user);
    if p.Some? {
      store.UpdateUserPreferences(p.value);
    }
  }
}

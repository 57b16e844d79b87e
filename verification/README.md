# Settings dialog: submit diff and tab container

A Dafny model of two pieces of decision logic from the settings dialog of a
video-conferencing web client.

- **Settings actions** (`settings_actions.dfy`, module `SettingsActions`).
  - `setSettingsViewVisible` builds the `{ type, visible }` store action.
  - `openSettingsDialog` asks the dialog opener for the settings dialog with
    `{ defaultTab }`.
  - `submitMoreTab` and `submitProfileTab` compare a submitted settings
    snapshot with the current one, field by field, using strict inequality on
    primitive values. They issue one side-effecting call per changed field.
  - The calls are modelled as values of the `Effect` datatype: display-name
    change, email change, follow-me, start-muted policy and language change.
    A handler returns the ordered list of effects it would issue.
  - Both start-muted flags form one group. When either flag changed, a single
    policy call carries both submitted flags.
  - Each effect is given a meaning, `Apply`: it sets the setting or settings
    it names and leaves the rest alone. This is the partner the diff is
    proved against. Once the effects take effect, the settings are the
    submitted ones (a round trip). No shorter list of effects does that
    (minimality).
- **Tab container** (`tab_container.dfy`, module `TabContainer`).
  - The container holds one draft per tab (`tabStates`), initialised in order
    from the tabs' props.
  - A tab's change notification replaces that tab's draft wholesale.
  - Submit is modelled as the ordered trace of calls it makes: every tab's
    `submit` with its draft, then the outer `onSubmit`.
  - `_renderTabs` is modelled as `Nothing(warning)`, `Single(content)` or
    `Strip(entries)`, chosen by the number of tabs.

Points about the code worth knowing:

- The order of checks in `submitMoreTab` is display name, email, follow-me,
  start-muted policy, language.
- In the tab strip the element inside each entry's `div` is written as the
  lowercase tag `<component … />` (TabContainer.js:117). JSX turns a
  lowercase tag into a plain element named `component`, not into the tab's
  `component` taken at line 114. `closeDialog`, `onTabStateChange` and the
  draft become attributes of that plain element. With one tab the container
  returns `tabs[0].content`, to which it passes nothing. So the container as
  written mounts no tab component, and no tab receives `_onTabStateChange`
  (lemma `AsWrittenMountsNoTab`). This is recorded under "## Findings"; the
  rest of the model uses the intended rendering, in which each entry mounts
  its tab's component.
- In the intended rendering every tab component receives the same
  `_onTabStateChange`. It is bound to the container but not to the tab's
  index, so a tab must pass its own index.
- With exactly one tab, the container returns `tabs[0].content` as it is. That
  tab's draft, its component and `defaultTab` play no part (lemma
  `SingleTabIgnoresDrafts`).
- `openSettingsDialog` declares its `defaultTab` as a string. The tab strip
  compares `defaultTab` with a numeric index by strict equality. The settings
  dialog component that sits between them is not part of this model, so the
  container takes `defaultTab` as an optional integer. An undefined
  `defaultTab` means 0.

## Model

| member | source | states |
|---|---|---|
| `SettingsActions.SetSettingsViewVisible` | react/features/settings/actions.js:21-26 | the action has the visibility type marker and its `visible` equals the argument |
| `SettingsActions.ViewActionRoundTrip` | react/features/settings/actions.js:21-26 | every visibility action is the one the creator builds from its own `visible`: the creator is a bijection onto such actions |
| `SettingsActions.OpenSettingsDialog` | react/features/settings/actions.js:35-37 | the request names the settings dialog and passes `defaultTab` through unchanged |
| `SettingsActions.OpenSettingsDialogRoundTrip` | react/features/settings/actions.js:35-37 | every settings-dialog request is the one built from its own `defaultTab` |
| `SettingsActions.Apply` | react/features/settings/actions.js:47-67 | each call the handlers issue sets exactly its own group of settings to the values it carries and leaves every other group unchanged |
| `SettingsActions.Checks` | react/features/settings/actions.js:47-67 | a run of per-field checks issues no more calls than there are checks, each for a checked group |
| `SettingsActions.ChecksSound` | react/features/settings/actions.js:47-67 | every call issued is for a group whose submitted value strictly differs from the current one, and it carries the submitted value(s) |
| `SettingsActions.ChecksComplete` | react/features/settings/actions.js:47-67 | every checked group that changed gets its call |
| `SettingsActions.ChecksOrdered` | react/features/settings/actions.js:47-67 | checks run in check order issue their calls in check order |
| `SettingsActions.SubmitMoreTab` | react/features/settings/actions.js:43-68 | at most 5 calls; none exactly when the snapshots are equal; calls in the order display name, email, follow-me, start-muted policy, language; each call is for a changed field and carries its new value(s); every changed field gets its call |
| `SettingsActions.SubmitMoreTabOnePerChangedGroup` | react/features/settings/actions.js:47-67 | exactly one call per changed group and none for an unchanged one; the start-muted group counts as changed when either flag changed |
| `SettingsActions.SubmitMoreTabAudioOnly` | react/features/settings/actions.js:59-63 | when only the audio flag changed, the single policy call carries the new audio flag and the unchanged video flag |
| `SettingsActions.SubmitMoreTabRoundTrip` | react/features/settings/actions.js:43-68 | once the issued calls take effect on the current settings, the settings equal the submitted snapshot |
| `SettingsActions.SubmitMoreTabSettles` | react/features/settings/actions.js:43-68 | resubmitting the same snapshot after the calls took effect issues no call |
| `SettingsActions.SubmitMoreTabMinimal` | react/features/settings/actions.js:43-68 | any list of calls that turns the current settings into the submitted ones has at least as many calls as the handler issues |
| `SettingsActions.SubmitProfileTab` | react/features/settings/actions.js:74-85 | at most 2 calls, only display-name and email changes; none exactly when both fields are unchanged; each carries the new value; every changed field of the two gets its call; the display-name call, if any, comes before the email call |
| `SettingsActions.SubmitProfileTabEmailOnly` | react/features/settings/actions.js:82-84 | snapshots that differ only in email yield exactly one email change with the new address |
| `SettingsActions.SubmitProfileTabRoundTrip` | react/features/settings/actions.js:74-85 | the calls set display name and email to the submitted values and leave every other setting as it was |
| `SettingsActions.SubmitProfileTabIsPrefix` | react/features/settings/actions.js:74-85 | the profile handler's calls are the leading calls of the More handler's calls for the same snapshots |
| `SettingsActions.SubmitProfileTabIgnoresOtherFields` | react/features/settings/actions.js:74-85 | the profile handler's calls depend only on the display name and email of the two snapshots |
| `TabContainer.Init` | react/features/settings/components/web/TabContainer.js:67-76 | after construction there is one draft per tab and draft i is tab i's props |
| `TabContainer.OnTabStateChange` | react/features/settings/components/web/TabContainer.js:140-145 | draft `tabId` becomes the reported state as a whole; the length, every other draft, the tabs and `defaultTab` are unchanged; the one-draft-per-tab invariant is kept |
| `TabContainer.LastReportWins` | react/features/settings/components/web/TabContainer.js:140-145 | a second report for a tab erases every trace of the first (no merging) |
| `TabContainer.ReportsCommute` | react/features/settings/components/web/TabContainer.js:140-145 | reports for two different tabs give the same drafts in either order |
| `TabContainer.Replay` | react/features/settings/components/web/TabContainer.js:140-145 | a sequence of reports keeps the tabs, `defaultTab` and the number of drafts |
| `TabContainer.ReplayLatest` | react/features/settings/components/web/TabContainer.js:140-145 | after any sequence of reports, each draft is the state of the last report for that tab, or its earlier draft if there was none |
| `TabContainer.SubmitCalls` | react/features/settings/components/web/TabContainer.js:155-159 | for the drafts of tabs k, k+1, ...: one call per draft, call j being tab k+j's submit with its draft, and then the outer handler last |
| `TabContainer.SubmitCallsTabCount` | react/features/settings/components/web/TabContainer.js:155-157 | over the drafts of tabs k, k+1, ..., tab i's submit is called exactly once when i is among those tabs and never otherwise |
| `TabContainer.SubmitCallsOuterCount` | react/features/settings/components/web/TabContainer.js:159 | the outer handler is called exactly once |
| `TabContainer.Submit` | react/features/settings/components/web/TabContainer.js:152-160 | one call more than there are tabs: call i is tab i's submit with draft i, in ascending order, and the last is the outer `onSubmit` |
| `TabContainer.SubmitCallsEachOnce` | react/features/settings/components/web/TabContainer.js:152-160 | each tab's submit is called exactly once, no index outside the tabs is called, and the outer handler is called exactly once |
| `TabContainer.SubmitAfterChange` | react/features/settings/components/web/TabContainer.js:140-160 | after a report for tab j, submit differs only in the state passed to tab j's callback, which is the reported state |
| `TabContainer.SubmitAfterInit` | react/features/settings/components/web/TabContainer.js:69-73 | submitting straight after construction passes each tab its own initial props |
| `TabContainer.RenderTabsAsWritten` | react/features/settings/components/web/TabContainer.js:102-133 | no tabs: nothing, with the warning; one tab: that tab's content; more: one strip entry per tab, in order, each with the tab's class and label, the tab's current draft (not its initial props) and the plain element `component` rather than the tab's component, selected iff its index equals `defaultTab` (0 when undefined) |
| `TabContainer.AsWrittenMountsNoTab` | react/features/settings/components/web/TabContainer.js:114-121 | as written no strip entry mounts a tab component; the intended rendering differs from it only in the element of each entry, which is the tab's component |
| `TabContainer.AsWrittenTwoTabsExample` | react/features/settings/components/web/TabContainer.js:114-121 | for two concrete tabs, the first entry as written holds the plain `component` element while the intended entry mounts the first tab's component |
| `TabContainer.RenderTabs` | react/features/settings/components/web/TabContainer.js:102-133 | as intended: no tabs: nothing, with the warning; one tab: that tab's content; more: one strip entry per tab, in order, each mounting the tab's component with the tab's class and label and its current draft (not its initial props), selected iff its index equals `defaultTab` (0 when undefined) |
| `TabContainer.SelectionIsUnique` | react/features/settings/components/web/TabContainer.js:103-123 | at most one strip entry is selected, and one is selected exactly when `defaultTab` is a valid index |
| `TabContainer.UndefinedDefaultSelectsFirst` | react/features/settings/components/web/TabContainer.js:103-123 | with `defaultTab` undefined, the first entry is selected and no other |
| `TabContainer.StripShowsReportedState` | react/features/settings/components/web/TabContainer.js:114-145 | after a report for tab j, strip entry j shows the reported state and every other entry is unchanged |
| `TabContainer.SingleTabIgnoresDrafts` | react/features/settings/components/web/TabContainer.js:106-108 | with one tab, the rendering does not depend on the drafts or on `defaultTab` |

## Left out

- `MoreTab.js` is not part of this model. It renders checkboxes and a language dropdown, and its only state is whether the dropdown is open.
- The React lifecycle and the asynchrony of `setState` are left out. A change notification updates the drafts at once.
- `StatelessDialog` is left out, together with the `disableBlanketClickDismiss`, `onCancel` and title props it receives.
- Translation is not modelled, because the `t` lookup is foreign. A strip entry carries the untranslated label key.
- A strip entry does not record the `closeDialog` and `onTabStateChange` props its element receives. They are the same for every entry, except that the draft is spread after them: a draft with a key named `closeDialog` or `onTabStateChange` overrides that callback for its tab. This override is not modelled.
- `APP.conference.changeLocalDisplayName`, `changeLocalEmail` and `i18next.changeLanguage` are modelled only as emitted `Effect` values. So are the dispatch of `setFollowMe` and `setStartMutedPolicy`. They are foreign calls with effects outside this code.
- `Apply` is the assumed meaning of those calls: each sets the setting(s) it names. Their real behaviour lies outside the modelled code.
- The store's `dispatch`/`getState` thunk mechanism is left out. `getMoreTabProps` and `getProfileTabProps` are not part of this model. The current snapshot is an input.
- The `Settings` snapshot fields are assumed present and of their declared primitive types. `undefined` and `null` are not modelled. In the source, strict inequality treats `undefined` as different from `''` or `false`, so a snapshot missing a field would issue a call carrying `undefined`. The More tab's component names its props `currentLanguage`, `followMeEnabled`, `startAudioMutedEnabled` and `startVideoMutedEnabled` (MoreTab.js:21-75). The handler reads `language`, `followMe`, `startAudioMuted` and `startVideoMuted`. If a draft were built from those props alone, those fields would be missing. Whether a draft is built from those props cannot be decided here, because their producer is not part of this model.
- The profile tab's snapshot uses the same six-field record as the More tab's. Its real shape comes from `getProfileTabProps`, which is not part of this model.
- The logger is not modelled. The zero-tab result carries the warning text instead.
- Errors thrown by a tab's `submit` or by a foreign call are not modelled. The trace assumes every call returns.
- TabContainer.OnTabStateChange: requires an index inside the drafts. An index at or past the end grows a JavaScript array with holes. A negative index writes a non-index property and leaves every draft as it was. Neither case is modelled.
- TabContainer.Submit: requires one draft per tab. `Init` establishes this and `OnTabStateChange` keeps it. A container whose `tabs` prop changes after construction, leaving the drafts misaligned, is not modelled.
- TabContainer.RenderTabs: requires one draft per tab, for the same reason as `Submit`.
- The dialog-opening mechanism and the `SettingsDialog` component are not part of this model. Neither is the `{ type, component, componentProps }` action that `openDialog` builds. The request is kept as the pair (dialog, props).

## Findings

| source | as written | input that shows it | evidently intended | confidence | as-written member | corrected member |
|---|---|---|---|---|---|---|
| react/features/settings/components/web/TabContainer.js:117 | the strip entry renders the lowercase tag `<component … />`, which JSX makes a plain element named `component`; the tab's component destructured at line 114 is never mounted | two tabs, with components `1` and `2`: entry 0 holds `PlainTag("component")`, not `Mounted(1)` | each entry mounts its tab's component (a capitalised binding) with `closeDialog`, `onTabStateChange` and the draft as its props | high; not executed | `TabContainer.RenderTabsAsWritten`, `TabContainer.AsWrittenTwoTabsExample` | `TabContainer.RenderTabs` |

# Milestone and reward editors of a crowdfunding dashboard, modelled in Dafny

This project models the list and record logic behind a crowdfunding
project's dashboard:

- **The milestone editor** (`MilestoneAdditionModal`). It keeps an ordered
  working list of milestones and edits it row by row: it appends a blank
  row, sets a row's name or amount, and removes a row. Removing a row that
  the server already knows deletes it remotely first. The editor validates
  the whole list: name, amount and description rules per row, plus amounts
  that never decrease. It filters out incomplete rows. It commits the rest
  as a batch, with an update for each row that has an id and a create for
  each row that does not. It then hands the result back through its
  `onSubmit` and `onClose` callbacks.
- **The milestone panel** (`MilestoneSettings`). It seeds the editor with
  its current list, or with one blank row when that list is empty. It
  adopts whatever list the editor hands back, and takes the project's list
  when the project changes.
- **The reward form** (`RewardAdditionModal`). It edits one reward field by
  field and validates it. It then sends an update or a create built by two
  input builders. Both builders fix the currency to US cents and send
  falsy images and stocks as absent.
- **The dashboard's entry lists** (`ProjectDashboardEntries`). Deleting the
  selected entry removes its id from the live list or the draft list, as
  its `published` flag says, once the server confirms the delete.
- **The feed's alias remapping** (`MapAliasedActivityProperties`). It copies
  the fields that the activities query aliases back to their generated
  names. It writes into a shallow copy of each resource.

Each component whose handlers change state is a class. The class holds one
field per piece of React state, and each handler is a method. The
milestone editor's working list is an `array`: the amount handler writes
into it in place, and when the panel's list is non-empty the editor shares
that very array. As a result, editing an amount changes the panel's list
before anything is confirmed (`MilestoneModal.AmountEditReachesPanel`). The
editor's callbacks are the panel's handlers (`host`).

Each remote call is a parameter that gives its outcome:
- a `bool` for a delete;
- one `Response` per request for the commit batch: rejected, or resolved
  with the returned id.

Requests are logged in a `requests` field, and callback arguments in ghost
logs. The pure rules are functions over values:
- the filter;
- validation, with its messages;
- the request each row turns into;
- how a batch's responses fold into the committed list;
- removal;
- the reward builders;
- the entry filter;
- the activity remapping.

The lemmas relate these functions: validity implies sorted amounts and that
the filter keeps every row; removal and commit keep a list valid; the
filter keeps order; the remapping is idempotent.

Conventions:
- An id of 0 is the falsy id of an item the server has not created.
- An empty string stands for a missing name or description.
- Amounts are integer satoshis; reward costs are integer cents.
- Length limits compare `|s|`, the number of Unicode scalar values, where
  the source compares JavaScript's `.length`, the number of UTF-16 code
  units. The two agree on text within the basic multilingual plane; see
  "## Left out".

A few behaviours differ from what one might expect of such an editor. The
model follows the code:
- Closing with an invalid list ends with the filtered list, not the whole
  draft (see Findings).
- Any edit clears every row's messages, not just the edited row's.
- Removing a row does not re-run validation.
- A row that a commit creates keeps its own `projectId` field, not the
  project id attached to its create request.

## Model

| member | source | states |
|---|---|---|
| Milestones.SubmittableMilestones | src/pages/creation/projectCreate/components/MilestoneAdditionModal.tsx:74-78 | a row is in the filtered list iff it is in the working list with amount > 0 and a non-empty name; never longer |
| Milestones.SubmittableKeepsOrder | src/pages/creation/projectCreate/components/MilestoneAdditionModal.tsx:74-78 | the filter distributes over concatenation (relative order kept) and keeps each qualifying row as often as it occurs, others never |
| Milestones.ItemErrors | src/pages/creation/projectCreate/components/MilestoneAdditionModal.tsx:240-273 | a row gets no message iff it passes every rule; each field's message is fixed by that field's own rule: name Required iff missing, TooLong iff present and too long, none otherwise; amount OutOfOrder iff below the previous row (replacing the minimum message), BelowMinimum iff below 1 and in order, none otherwise; description TooLong iff present and too long, none otherwise |
| Milestones.AllErrors | src/pages/creation/projectCreate/components/MilestoneAdditionModal.tsx:236-280 | one message set per row, entry i being exactly row i's messages; all empty iff the list is valid |
| Milestones.ValidMilestonesAreSorted | src/pages/creation/projectCreate/components/MilestoneAdditionModal.tsx:255-261 | a valid list has non-decreasing amounts over all pairs of positions |
| Milestones.ValidMilestonesAreSubmittable | src/pages/creation/projectCreate/components/MilestoneAdditionModal.tsx:236-280 | the filter returns a valid list unchanged |
| Milestones.BlankRowBlocksValidation | src/pages/creation/projectCreate/components/MilestoneAdditionModal.tsx:38-44 | a list ending in the blank template never validates, and the filter drops that row |
| Milestones.RemoveAt | src/pages/creation/projectCreate/components/MilestoneAdditionModal.tsx:202-204 | one row fewer, earlier rows in place, later rows shifted down by one; an index outside the list removes nothing |
| Milestones.RemovalKeepsValidity | src/pages/creation/projectCreate/components/MilestoneAdditionModal.tsx:198-222 | removing any row from a valid list leaves a valid list |
| Milestones.RequestFor | src/pages/creation/projectCreate/components/MilestoneAdditionModal.tsx:153-177 | an update addressed by the row's id iff it has one, else a create carrying the project id (id stripped); name, description and amount carried over |
| Milestones.Requests | src/pages/creation/projectCreate/components/MilestoneAdditionModal.tsx:152-187 | exactly one request per row, in row order |
| Milestones.Resolve | src/pages/creation/projectCreate/components/MilestoneAdditionModal.tsx:160-185 | success iff the request resolved and (an update, or a create that returned an id); updates return the row unchanged, creates return it with the returned id |
| Milestones.CommitOutcome | src/pages/creation/projectCreate/components/MilestoneAdditionModal.tsx:151-195 | the batch succeeds iff every row resolves; then the result has the rows' length and order, each row resolved |
| Milestones.CommittedRowsArePersisted | src/pages/creation/projectCreate/components/MilestoneAdditionModal.tsx:160-185 | after a successful commit every row has a non-zero id and differs from its submitted row at most in its id |
| Milestones.CommitKeepsValidity | src/pages/creation/projectCreate/components/MilestoneAdditionModal.tsx:149-188 | committing a valid list successfully yields a valid list |
| Settings.EditorSeed | src/pages/projectDashboard/MilestoneSettings.tsx:108-110 | the seed is never empty: the current list when non-empty, else the single blank template |
| Settings.MilestoneSettings.constructor | src/pages/projectDashboard/MilestoneSettings.tsx:19 | the panel starts with an empty list and the editor closed |
| Settings.MilestoneSettings.SyncProject | src/pages/projectDashboard/MilestoneSettings.tsx:27-31 | a non-empty project list replaces the displayed one; a missing or empty one leaves it unchanged |
| Settings.MilestoneSettings.OpenMilestoneModal | src/pages/projectDashboard/MilestoneSettings.tsx:21-25 | opening marks the editor open |
| Settings.MilestoneSettings.AvailableMilestones | src/pages/projectDashboard/MilestoneSettings.tsx:108-110 | the seed holds EditorSeed of the list; it is the panel's own array when that is non-empty, a fresh one otherwise |
| Settings.MilestoneSettings.HandleMilestoneSubmit | src/pages/projectDashboard/MilestoneSettings.tsx:33-36 | the displayed list becomes exactly the submitted one and the editor closes |
| Settings.MilestoneSettings.HandleMilestoneModalClose | src/pages/projectDashboard/MilestoneSettings.tsx:38-41 | the displayed list becomes exactly the one passed and the editor closes |
| MilestoneModal.MilestoneAdditionModal.constructor | src/pages/creation/projectCreate/components/MilestoneAdditionModal.tsx:56-68 | the working list is the given array itself; no messages, requests or callback calls yet |
| MilestoneModal.MilestoneAdditionModal.AddMilestone | src/pages/creation/projectCreate/components/MilestoneAdditionModal.tsx:70-72 | a fresh list equal to the old one plus one blank template at the end |
| MilestoneModal.MilestoneAdditionModal.AmountChange | src/pages/creation/projectCreate/components/MilestoneAdditionModal.tsx:101-112 | same array, only the amount of the given row changes; messages cleared |
| MilestoneModal.MilestoneAdditionModal.TextChange | src/pages/creation/projectCreate/components/MilestoneAdditionModal.tsx:114-126 | a null event changes nothing; otherwise only the given row's name changes (nothing for an index outside the list) and messages are cleared |
| MilestoneModal.MilestoneAdditionModal.GetFilteredMilestones | src/pages/creation/projectCreate/components/MilestoneAdditionModal.tsx:74-78 | a fresh array holding the submittable rows |
| MilestoneModal.MilestoneAdditionModal.ValidateMilestones | src/pages/creation/projectCreate/components/MilestoneAdditionModal.tsx:236-280 | returns whether every row passes every rule; stores the full message list only when invalid, otherwise keeps the old messages |
| MilestoneModal.MilestoneAdditionModal.HandleModalClose | src/pages/creation/projectCreate/components/MilestoneAdditionModal.tsx:128-136 | valid: one close call with the filtered list; invalid: two calls, whole list then filtered list; the panel always ends with the filtered list, closed |
| MilestoneModal.MilestoneAdditionModal.HandleModalCloseIntended | src/pages/creation/projectCreate/components/MilestoneAdditionModal.tsx:128-136 | one close call; an invalid list reaches the panel whole (the working array itself), a valid one filtered, which equals it |
| MilestoneModal.MilestoneAdditionModal.ConfirmMilestone | src/pages/creation/projectCreate/components/MilestoneAdditionModal.tsx:142-196 | invalid: no request, no submit, messages stored; valid: exactly Requests of the filtered list are sent, and the panel receives CommitOutcome's list only when it succeeds |
| MilestoneModal.MilestoneAdditionModal.CommitBatch | src/pages/creation/projectCreate/components/MilestoneAdditionModal.tsx:151-187 | every row's request is sent whatever the responses; failure iff CommitOutcome fails; otherwise the committed list is CommitOutcome's |
| MilestoneModal.MilestoneAdditionModal.RemoveMilestone | src/pages/creation/projectCreate/components/MilestoneAdditionModal.tsx:198-222 | a row with an id: exactly one delete; removed on success, list untouched on failure; any other index: no request, RemoveAt applied |
| MilestoneModal.OpenEditor | src/pages/projectDashboard/MilestoneSettings.tsx:104-114 | the editor opens seeded with EditorSeed of the panel's list, sharing the panel's array when it is non-empty |
| MilestoneModal.AmountEditReachesPanel | src/pages/creation/projectCreate/components/MilestoneAdditionModal.tsx:101-112 | an amount edit right after opening on a non-empty list changes the panel's own list in place |
| MilestoneModal.CloseDropsTypedRow | src/pages/creation/projectCreate/components/MilestoneAdditionModal.tsx:128-136 | closing [Phase 1 (500), Phase 2 (amount 0)] leaves the panel with only Phase 1 |
| MilestoneModal.IntendedCloseKeepsTypedRow | src/pages/creation/projectCreate/components/MilestoneAdditionModal.tsx:128-136 | with the early return the same close keeps both rows |
| RewardModal.RewardErrorsOf | src/pages/projectView/projectMainBody/components/RewardAdditionModal.tsx:204-241 | no message iff the reward is valid; each field's message is fixed by its own rule: name Required iff missing, TooLong iff too long, none otherwise; cost AboveMaximum iff above the ceiling (winning over the "greater than 0" message), BelowMinimum iff not positive and within the ceiling, none iff 0 < cost <= ceiling; description TooLong iff present and too long, none otherwise |
| RewardModal.ImageOrAbsent | src/pages/projectView/projectMainBody/components/RewardAdditionModal.tsx:132 | absent iff the image is absent or empty; otherwise the image itself |
| RewardModal.StockOrAbsent | src/pages/projectView/projectMainBody/components/RewardAdditionModal.tsx:134 | absent iff the stock is absent or 0; otherwise the stock itself |
| RewardModal.CreationInput | src/pages/projectView/projectMainBody/components/RewardAdditionModal.tsx:126-136 | carries the project id, the reward's cost, name and description, currency Usdcent, falsy image and stock as absent |
| RewardModal.UpdateInput | src/pages/projectView/projectMainBody/components/RewardAdditionModal.tsx:138-148 | addressed by the reward's id, same payload rules as the create input |
| RewardModal.InputsCarrySamePayload | src/pages/projectView/projectMainBody/components/RewardAdditionModal.tsx:126-148 | both builders send the same cost, currency, description, image, name and stock |
| RewardModal.RewardRequestFor | src/pages/projectView/projectMainBody/components/RewardAdditionModal.tsx:187-197 | an update with UpdateInput iff the reward has an id, else a create with CreationInput |
| RewardModal.RewardAdditionModal.constructor | src/pages/projectView/projectMainBody/components/RewardAdditionModal.tsx:74-85 | edits the given reward, or the default one when none is given; no messages |
| RewardModal.RewardAdditionModal.TextChange | src/pages/projectView/projectMainBody/components/RewardAdditionModal.tsx:156-164 | messages cleared; only the named field takes the value; an input without a name changes nothing else |
| RewardModal.RewardAdditionModal.CostAmountChange | src/pages/projectView/projectMainBody/components/RewardAdditionModal.tsx:166-178 | messages cleared; only the cost changes |
| RewardModal.RewardAdditionModal.Upload | src/pages/projectView/projectMainBody/components/RewardAdditionModal.tsx:200-202 | only the image changes, to the uploaded url |
| RewardModal.RewardAdditionModal.ValidateReward | src/pages/projectView/projectMainBody/components/RewardAdditionModal.tsx:204-247 | returns RewardValid; stores RewardErrorsOf only when invalid |
| RewardModal.RewardAdditionModal.ConfirmReward | src/pages/projectView/projectMainBody/components/RewardAdditionModal.tsx:180-198 | invalid: no request and the messages stored; valid: exactly one request, RewardRequestFor, and the messages left as they were |
| DashboardEntries.WithoutEntry | src/pages/projectDashboard/ProjectDashboardEntries.tsx:91-99 | an entry is kept iff it is in the list and its id differs; never longer |
| DashboardEntries.WithoutEntryKeepsOrder | src/pages/projectDashboard/ProjectDashboardEntries.tsx:91-99 | removal distributes over concatenation (order kept) and removes nothing when the id is absent |
| DashboardEntries.ProjectDashboardEntries.constructor | src/pages/projectDashboard/ProjectDashboardEntries.tsx:39-40 | both lists empty, nothing selected, dialog closed |
| DashboardEntries.ProjectDashboardEntries.EntriesLoaded | src/pages/projectDashboard/ProjectDashboardEntries.tsx:47-53 | the lists become the query's published and unpublished entries |
| DashboardEntries.ProjectDashboardEntries.TriggerDeleteEntry | src/pages/projectDashboard/ProjectDashboardEntries.tsx:75-78 | the entry becomes selected and the dialog opens |
| DashboardEntries.ProjectDashboardEntries.HandleRemoveEntry | src/pages/projectDashboard/ProjectDashboardEntries.tsx:80-115 | no selection or no id: nothing changes, dialog stays; otherwise one delete, on success the id leaves the list its flag names and only that list, on failure both stay; dialog closed |
| ActivityFeed.RemapResource | src/pages/landing/feed/activity.graphql.ts:111-120 | Entry: fundersCount and description set from their source keys, other fields kept; ProjectReward: name and project from rewardName and rewardProject; any other typename unchanged |
| ActivityFeed.RemapActivity | src/pages/landing/feed/activity.graphql.ts:110-123 | every non-resource field kept; resource replaced by the remapped copy of its spread |
| ActivityFeed.MapAliasedActivityProperties | src/pages/landing/feed/activity.graphql.ts:109-125 | same length and order; each activity remapped reading the description from `entrydescription` |
| ActivityFeed.MapAliasedActivityPropertiesIntended | src/pages/landing/feed/activity.graphql.ts:109-125 | the same, reading the description from the query's alias `entryDescription` |
| ActivityFeed.RemapResourceIdempotent | src/pages/landing/feed/activity.graphql.ts:111-122 | remapping a resource twice equals remapping it once |
| ActivityFeed.MapAliasedActivityPropertiesIdempotent | src/pages/landing/feed/activity.graphql.ts:109-124 | applying the remapping twice equals applying it once |
| ActivityFeed.MapAliasedActivityPropertiesIntendedIdempotent | src/pages/landing/feed/activity.graphql.ts:109-124 | the intended remapping is idempotent too |
| ActivityFeed.EntryDescriptionIsLost | src/pages/landing/feed/activity.graphql.ts:112-115 | for an entry as the query returns it, the remapping as written yields an undefined description while fundersCount is copied; the intended one copies the text |

## Left out

- Unit conversion (`getMutationConvertedMilestoneAmount`, `getFormConvertedMilestoneAmount`, MilestoneAdditionModal.tsx:80-99): the model works in satoshi mode, where both are the identity. The dollar mode uses float rounding and an exchange-rate hook that is not part of this model.
- RewardModal.RewardAdditionModal.CostAmountChange: takes the new cost already in cents. The float parsing and rounding of the typed dollar value (RewardAdditionModal.tsx:171-177) is not modelled.
- RewardModal.RewardErrorsOf: compares `cost` in cents with the ceiling. The source compares the float dollar field times 100, and the initial field is `cost / 100` (RewardAdditionModal.tsx:70-72, 223-231). The two agree whenever that field mirrors the cost, which every modelled handler preserves. Float rounding at the boundary is not modelled.
- The reward form's prop-sync effect (RewardAdditionModal.tsx:150-154) is React bookkeeping and is not modelled. It could leave the dollar field stale.
- The reward mutations' completion callbacks (`onCompleted`/`onError`, RewardAdditionModal.tsx:87-124) are transport. The model records the request only, not the later `onSubmit`/`onClose`.
- MilestoneModal.MilestoneAdditionModal.RemoveMilestone, MilestoneModal.MilestoneAdditionModal.ConfirmMilestone and DashboardEntries.ProjectDashboardEntries.HandleRemoveEntry treat each awaited server call as atomic. The source computes its new list before the await (MilestoneAdditionModal.tsx:202-204 and 149; ProjectDashboardEntries.tsx:91-99 filter the lists captured at render) and writes that snapshot afterwards. Edits or removals interleaved while the call is pending, which that snapshot would overwrite, are not modelled.
- Length limits (Milestones.ItemValid, RewardModal.RewardValid and the message functions): a character outside the basic multilingual plane, such as an emoji, counts once in `|s|` but twice in the source's UTF-16 `.length`. So a name of `nameMaxLength` emoji passes the model's check and fails the source's. The model does not capture surrogate pairs.
- `Promise.all` (MilestoneAdditionModal.tsx:152) is a loop that sends every request and then aggregates failure. Which rejection is reported first, and the timing, are not modelled.
- MilestoneModal.MilestoneAdditionModal.AmountChange: requires an index inside the list. Its only caller passes the index of a rendered row. With any other index, JavaScript would write a sparse slot or a stray property.
- RewardModal.RewardAdditionModal.TextChange: only the two inputs bound to it, `name` and `description`, are modelled, plus an input without a name.
- Validation limits (`MilestoneValidations`, `ProjectRewardValidations`) are parameters. Those constants, and `defaultProjectReward`, are not part of this model.
- Numbers are unbounded integers: NaN, fractional amounts and number-vs-string ids are not modelled, and `toInt` is the identity. A null string is the empty string.
- ActivityFeed.Spread: spreading a string or an array (which copies index keys) is treated like spreading `undefined`. The order of an object's keys is not modelled.
- Activity records are immutable values here, so the source's property of never mutating the input resources holds by construction.
- Toasts, navigation (`handleCreateEntry`, `handleEntryEditButtonTapped`), file upload widgets, loading flags and all rendering are not modelled. So are re-render effects of React state, such as `setMilestones` with the same array not re-rendering.
- ProjectsDisplay.tsx, UserProfilePageProjectsListItem.tsx, LandingPage.tsx and Mono.tsx hold only rendering and query wiring, and are not part of this model.

## Findings

| source | as written | input that shows it | evidently intended | confidence | as-written member | corrected member |
|---|---|---|---|---|---|---|
| src/pages/creation/projectCreate/components/MilestoneAdditionModal.tsx:128-136 | on an invalid list `onClose` runs with the whole list and then again with the filtered list, so the parent keeps the filtered one | rows [Phase 1 (id 7, 500), Phase 2 (no id, amount 0)]: the panel ends with [Phase 1]; the typed "Phase 2" is lost | `return` after the first `onClose`, handing an invalid draft back whole | high; not executed | MilestoneModal.MilestoneAdditionModal.HandleModalClose, shown by MilestoneModal.CloseDropsTypedRow | MilestoneModal.MilestoneAdditionModal.HandleModalCloseIntended, shown by MilestoneModal.IntendedCloseKeepsTypedRow |
| src/pages/landing/feed/activity.graphql.ts:114 | the description is read from the key `entrydescription`, which the query (line 54) never produces | an Entry resource with `entryDescription: "First update"`: the remapped `description` is undefined | read `entryDescription` | high; not executed | ActivityFeed.MapAliasedActivityProperties, shown by ActivityFeed.EntryDescriptionIsLost | ActivityFeed.MapAliasedActivityPropertiesIntended, with ActivityFeed.MapAliasedActivityPropertiesIntendedIdempotent |

# Deliverable review portal: the in-memory mirror, the chat counter and the helpers

The portal shows a client the media a studio delivers (pictures, short videos,
long videos), lets the client approve and comment on each item, lets an admin add,
edit and delete items, and carries a small live chat. Every page variant keeps the
same in-memory state: a **mirror** of three category buckets that the page loads
from the hosted backend and then updates in place when the user acts. This project
models that mirror and the handlers that change it, file by file, together with the
chat session's unread counter and badge, the HTML escaper, and the small pure
helpers the pages render with (badge class, status text, progress text, the
plain-text report).

Modules, one per concern of the source:

- `Wrappers`, `Remote` — `Option`, and `Reply` (`Ok(data)` or `Err`), the outcome
  of a backend call. No call is performed: every handler receives the call's
  outcome as an argument.
- `Text` — `String.prototype.trim`, decimal numerals, first-letter capitalisation,
  and the five-character HTML escaper with its inverse.
- `Mirror` — categories, fetched rows, items, the three buckets (`Buckets`), the
  load partition, find-and-set patches, filter-by-id, and the class `Store` whose
  three `seq` fields the handlers update.
- `DeliverablesCore` — js/deliverables-core.js: load, approval and comment
  handlers, the status badge map and text, the card's approval look, the progress
  line, the realtime reload.
- `Feedback` — the report builder of every page, abstracted from the page to
  sections of (title, approved, comment) entries, and the submit summary.
- `DeliverablesAdmin` — js/deliverables-admin.js: add, admin list, delete, edit,
  the submit guard.
- `DeliverablesPage` — what js/deliverables.js does differently: the
  `classList.replace` badge swap.
- `MainPage` — what js/main.js does differently: the mirror changes only after the
  backend reported success.
- `Chat` — js/chat.js (and its copy inside js/main.js): user identity, message
  bubbles, the history query, the badge rule and the class `ChatSession` holding
  the unread counter, panel flag and displayed messages.
- `LegacyScript` — script.js: the page with a separate comments table, a local id
  counter (`itemIdCounter`) and built-in fallback data, as the class `Portal`.

Where two source files carry the same code, one member models it; the section
"Copies in the other pages" lists the copies.

Points where the source's behaviour is easy to mistake:

- A failed load does not fall back to an empty or placeholder state. In
  js/deliverables-core.js, js/main.js and js/deliverables.js the error is thrown
  before the buckets are reset, so the previous buckets stay; only script.js falls
  back to its four built-in items (and it does so on any error, not when the
  table is empty).
- Progress values of a new item being rendered are 0 to 99:
  `Math.floor(Math.random() * 100)` (`DeliverablesAdmin.Roll`).

The model departs from the source in one place on purpose:
`Chat.ChatSession.LoadMessages` loads the latest 100 messages. The history query
in js/chat.js:121-125 sorts ascending and takes the first 100, so it returns the
oldest ones; `Chat.OldestMessages` and `Chat.OldestMissesNewest` model the query as
written, and the discrepancy is recorded under "Findings".

## Model

| member | source | states |
|---|---|---|
| Text.TrimStart | js/chat.js:87 | the result is a suffix of the input, every removed character is whitespace, and it does not start with whitespace |
| Text.TrimEnd | js/chat.js:87 | the result is a prefix of the input, every removed character is whitespace, and it does not end with whitespace |
| Text.Trim | js/chat.js:87-89 | the trimmed text is no longer than the input, starts and ends with non-whitespace, and is empty exactly when the input is all whitespace |
| Text.TrimIdempotent | js/deliverables-core.js:229 | a trimmed comment is unchanged by trimming it again |
| Text.DigitChar | js/deliverables-core.js:250 | a digit value below ten is written as a decimal digit |
| Text.Decimal | js/chat.js:67 | a number is written with at least one digit, all digits, one digit exactly below 10 and two exactly from 10 to 99 |
| Text.DecimalRoundTrip | js/deliverables-core.js:250 | reading back the numeral of `n` gives `n` |
| Text.DecimalInjective | js/deliverables-core.js:250 | two numbers with the same numeral are equal |
| Text.Capitalize | js/deliverables-core.js:66 | the status text has the status's length, its first character upper-cased and the rest unchanged |
| Text.EscapeHtml | js/chat.js:179-188 | the escaped text is at least as long, contains none of `< > " '`, and text without the five special characters is unchanged |
| Text.EscapeHtmlDistributes | js/chat.js:187 | escaping is character by character: escaping a concatenation concatenates the escapes |
| Text.UnescapeEntity | js/chat.js:180-186 | each of the five character references reads back as its character |
| Text.EscapeHtmlRoundTrip | js/chat.js:179-188 | unescaping the escaped text gives the original message back, so the bubble shows the text as sent |
| Mirror.ParseCategory | js/deliverables-core.js:40-44 | a category string names a bucket exactly when it is one of the three keys |
| Mirror.Buckets.With | js/deliverables-admin.js:193 | assigning one bucket changes that bucket only |
| Mirror.Select | js/deliverables-core.js:40-44 | a bucket never holds more items than rows were fetched |
| Mirror.SelectAppend | js/deliverables-core.js:40-44 | rows keep their input order inside a bucket: selecting from a concatenation concatenates the selections |
| Mirror.SelectMembers | js/deliverables-core.js:28-44 | an item is in a bucket exactly when some fetched row of that category formats to it |
| Mirror.PartitionSnoc | js/deliverables-core.js:40-44 | one more row is appended to the bucket its category names, and a row of any other category changes nothing |
| Mirror.PartitionCounts | js/deliverables-core.js:40-44 | the three buckets plus the dropped rows of unknown category account for every fetched row |
| Mirror.FirstIndex | js/deliverables-core.js:219 | `find` by id yields the first position holding the id, or none when no item has it |
| Mirror.PatchFirstAtFirstIndex | js/deliverables-core.js:218-221 | find-and-set changes the first item with the id and nothing else, and nothing when the id is absent |
| Mirror.PatchFirstEffect | js/deliverables-core.js:218-221 | a patched bucket keeps its length, items with another id are unchanged, and with unique ids every item with the id is patched |
| Mirror.PatchAllEffect | js/deliverables-core.js:218-221 | the same for all three buckets |
| Mirror.LastPatchWins | js/deliverables-core.js:227-240 | a second comment (or approval) change for the same id overrides the first: the latest write wins |
| Mirror.WithoutId | js/deliverables-admin.js:193 | filtering keeps exactly the items with another id, and leaves a bucket without the id unchanged |
| Mirror.WithoutIdAppend | js/deliverables-admin.js:193 | filtering keeps the order of the remaining items |
| Mirror.RemoveAgreesWithReload | js/deliverables-admin.js:189-193 | filtering a bucket gives what a reload would show once the table lost the rows with that id |
| Mirror.Store.constructor | js/deliverables-core.js:8-12 | the mirror starts with three empty buckets |
| Mirror.Store.Assign | js/deliverables-core.js:24 | the mirror is replaced wholesale |
| Mirror.Store.SetBucket | js/deliverables-admin.js:193 | one bucket is reassigned, the others kept |
| Mirror.Store.Push | js/deliverables-admin.js:105-115 | one item is appended at the end of one bucket |
| Mirror.Store.LoadRows | js/deliverables-core.js:24-45 | after the reset and the pushes the mirror equals the partition of the fetched rows |
| Mirror.Store.Find | js/deliverables-admin.js:209 | the lookup finds an item exactly when the bucket holds the id, and then the first such item |
| Mirror.Store.PatchEach | js/deliverables-core.js:218-221 | the three-bucket find-and-set leaves the mirror patched at the first item with the id in each bucket |
| Mirror.Store.RemoveId | js/deliverables-admin.js:193 | the bucket is replaced by its filtered copy, the others kept |
| DeliverablesCore.StatusBadge | js/deliverables-core.js:58-64 | the badge class is `badge-<status>` exactly for the four known statuses, and `badge-pending` for every other status that is not the name of an `Object.prototype` property |
| DeliverablesCore.StatusTextPending | js/deliverables-core.js:66 | the status text reads "Pending" exactly for `pending` and `Pending` |
| DeliverablesCore.StatusTextApproved | js/deliverables-core.js:66 | the status text reads "Approved" exactly for `approved` and `Approved` |
| DeliverablesCore.ToggleView | js/deliverables-core.js:195-209 | the card shows approved exactly when checked, the badge says "Approved" or "Pending" and carries the matching class and not the other |
| DeliverablesCore.RenderedLabel | js/deliverables-core.js:156-176 | a rendered card reads "Approved" exactly when the item is approved or its status says approved |
| DeliverablesCore.RenderedBadge | js/deliverables-core.js:156-176 | a rendered badge carries `badge` and exactly one `badge-` class, for statuses that are not names of `Object.prototype` properties |
| DeliverablesCore.ToggleAgreesWithRender | js/deliverables-core.js:190-224 | checking a box shows what a fresh render of the patched item shows; unchecking does so exactly for pending items |
| DeliverablesCore.CheckBoxes | js/deliverables-core.js:243-251 | the page has one approval box per item |
| DeliverablesCore.Flags | js/deliverables-core.js:243-251 | each box is checked exactly when its item is approved |
| DeliverablesCore.CountChecked | js/deliverables-core.js:243-251 | approved is at most total, zero exactly when no box is checked, total exactly when all are |
| DeliverablesCore.CountCheckedIsMultiplicity | js/deliverables-core.js:243-251 | the approved count is the number of checked boxes (the multiplicity of `true`) |
| DeliverablesCore.FirstSlash | js/deliverables-core.js:250 | in a numeral followed by `/` the first slash ends the numeral |
| DeliverablesCore.DigitsThenSlash | js/deliverables-core.js:250 | `x/y` with a numeral `x` splits back into its two parts |
| DeliverablesCore.ProgressTextInjective | js/deliverables-core.js:243-251 | the progress text `approved/total Approved` determines both counts |
| DeliverablesCore.LoadData | js/deliverables-core.js:15-50 | a fetch error leaves the buckets unchanged; success makes them the partition of the fetched rows |
| DeliverablesCore.HandleApprovalChange | js/deliverables-core.js:190-224 | the card flips at once and the first item with the id in every bucket takes the new approval, whatever the update returned |
| DeliverablesCore.HandleCommentChange | js/deliverables-core.js:227-240 | the trimmed comment is set on the first item with the id in every bucket, whatever the update returned |
| DeliverablesCore.OnDeliverablesChange | js/deliverables-core.js:254-266 | any change notice reloads: the mirror equals a fresh partition of the fetched rows |
| Feedback.Boxes | js/deliverables-admin.js:258-261 | the report counts one box per listed entry, checked exactly when it is approved |
| Feedback.JoinAppend | js/deliverables-admin.js:284-301 | appending pieces appends their texts |
| Feedback.JoinOne | js/deliverables-admin.js:284-301 | one piece appends its own text |
| Feedback.JoinEntry | js/deliverables-admin.js:293-296 | an entry's pieces spell its title line, status line, optional comment line and blank line |
| Feedback.JoinEntries | js/deliverables-admin.js:289-297 | a section's entries spell the concatenation of their texts |
| Feedback.JoinSections | js/deliverables-admin.js:284-298 | the listed sections spell their headings and entries in page order, skipping the other sections |
| Feedback.ReportTextIsJoin | js/deliverables-admin.js:271-301 | the report text is the concatenation of the header, section and notes pieces |
| Feedback.EntriesSnoc | js/deliverables-admin.js:289-297 | appending one more entry appends its text |
| Feedback.SectionsSnoc | js/deliverables-admin.js:284-298 | appending one more section appends its text |
| Feedback.AppendEntry | js/deliverables-admin.js:293-296 | the `+=` steps for one card append exactly that card's text |
| Feedback.AppendEntries | js/deliverables-admin.js:289-297 | the loop over a section's cards appends exactly the entries' text |
| Feedback.BuildReport | js/deliverables-admin.js:271-301 | the report built by `+=` equals the report text of the sections and notes |
| Feedback.WithoutTitlesAppend | js/deliverables-admin.js:284-298 | dropping section headings distributes over concatenation |
| Feedback.EntriesHaveNoTitles | js/deliverables-admin.js:289-297 | entry pieces carry no section heading |
| Feedback.ReportBody | js/deliverables-admin.js:284-298 | without its headings the report body is exactly the listed entries, in order |
| Feedback.EntriesAppend | js/deliverables-admin.js:289-297 | entry pieces of a concatenation are the concatenated pieces |
| Feedback.EntryComment | js/deliverables-admin.js:295 | a card has a `Comment:` line exactly when its comment is not blank, and the line carries the untrimmed comment |
| Feedback.EntriesComments | js/deliverables-admin.js:289-297 | a `Comment:` line with text `t` appears exactly when some entry has the non-blank comment `t` |
| Feedback.WithoutTitlesKeeps | js/deliverables-admin.js:284-298 | dropping headings keeps every other piece |
| Feedback.ReportComments | js/deliverables-admin.js:284-298 | the report has a comment line `t` exactly when some listed entry has the non-blank comment `t` |
| Feedback.SectionsHaveNoNotes | js/deliverables-admin.js:284-298 | the section part holds no header and no notes block |
| Feedback.EntriesHaveNoNotes | js/deliverables-admin.js:289-297 | entry pieces hold no header and no notes block |
| Feedback.FinalNotesIff | js/deliverables-admin.js:300-301 | the FINAL NOTES block appears exactly when the notes are not blank, and carries the notes untrimmed |
| Feedback.RemarksMembers | js/main.js:576-583 | a remark is collected exactly for each entry with a non-blank comment, with its title and untrimmed comment |
| Feedback.Submit | js/main.js:565-597 | submitting is refused exactly when no box is checked; otherwise 1 ≤ approved ≤ total = number of boxes, with the remarks and notes |
| DeliverablesAdmin.DraftOf | js/deliverables-admin.js:92-95 | the new row carries a duration exactly for a video with a non-empty duration and a progress exactly for a rendering item, below 100 |
| DeliverablesAdmin.AddAgreesWithReload | js/deliverables-admin.js:105-115 | appending the inserted row, unapproved with an empty comment, gives what a reload would show |
| DeliverablesAdmin.AddItem | js/deliverables-admin.js:83-128 | an insert error (or no returned row) changes nothing; otherwise exactly one item is appended to the form's bucket, unapproved with an empty comment |
| DeliverablesAdmin.Tagged | js/deliverables-admin.js:136-152 | each item of a bucket is listed once, tagged with its bucket and the bucket's display name |
| DeliverablesAdmin.AdminList | js/deliverables-admin.js:133-161 | the admin list is pictures, then short videos, then long videos; its length is the sum of the bucket sizes; it is empty exactly when all buckets are |
| DeliverablesAdmin.TaggedMembers | js/deliverables-admin.js:136-152 | a tagged row comes from its bucket |
| DeliverablesAdmin.AdminRowsPointHome | js/deliverables-admin.js:136-182 | every admin row's edit and delete buttons name a bucket that holds the row's item |
| DeliverablesAdmin.DeleteItem | js/deliverables-admin.js:187-203 | a declined confirmation changes nothing; otherwise the bucket loses every item with the id, whatever the delete returned |
| DeliverablesAdmin.PrefillOf | js/deliverables-admin.js:212-220 | the form is pre-filled with a duration exactly when the item has a non-empty one |
| DeliverablesAdmin.EditItem | js/deliverables-admin.js:208-235 | an absent id changes nothing; otherwise the form is pre-filled from the first item with the id and the bucket loses the id, whatever the delete returned |
| DeliverablesAdmin.EditRemovesId | js/deliverables-admin.js:223-225 | after an edit the bucket holds no item with the edited id, which it held before |
| DeliverablesAdmin.AdminSubmit | js/deliverables-admin.js:257-266 | submitting is refused exactly when no box is checked; otherwise 1 ≤ approved ≤ total = number of boxes |
| DeliverablesPage.ReplaceView | js/deliverables.js:195-203 | the text always becomes "Approved" or "Pending", but a class is swapped only when the old class is present |
| DeliverablesPage.ReplaceAgreesWithToggle | js/deliverables.js:195-203 | on a freshly rendered card, checking the box with `replace` shows the same as the remove-and-add swap exactly when the status is neither uploaded nor rendering |
| DeliverablesPage.HandleApprovalChange | js/deliverables.js:190-220 | the card is swapped with `replace`, and the first item with the id in every bucket takes the approval, whatever the update returned |
| MainPage.HandleApprovalChange | js/main.js:222-264 | the card flips at once, but the mirror takes the approval only when the update succeeded |
| MainPage.HandleCommentChange | js/main.js:267-290 | the trimmed comment reaches the mirror only when the update succeeded |
| MainPage.DeleteItem | js/main.js:485-505 | the bucket is filtered only after a confirmed, successful delete |
| MainPage.EditItem | js/main.js:508-542 | an absent id changes nothing; otherwise the form is pre-filled, and the bucket is filtered only when the delete succeeded |
| Chat.ResolveIdentity | js/chat.js:14-30 | a stored id and name are kept; a missing id becomes `user_` plus the random part; a missing name becomes the prompt's answer, or "Guest" when it is empty; both are saved |
| Chat.IdentityIsStable | js/chat.js:14-30 | once saved, the identity comes back unchanged on the next visit whatever the random part or answer |
| Chat.Initial | js/chat.js:149 | the avatar initial is empty exactly for an empty name, and otherwise one character (ASCII upper-casing only) |
| Chat.BubbleFor | js/chat.js:142-162 | a bubble is "sent" exactly when the sender id is the current user's, is signed "You" or the sender's name, carries the sender's initial and admin flag, and its escaped body contains none of `< > " '` and reads back as the message |
| Chat.Bubbles | js/chat.js:129-133 | loading displays one bubble per row, in order |
| Chat.OldestMessages | js/chat.js:121-125 | the history query returns the first (oldest) 100 rows |
| Chat.LatestMessages | js/chat.js:121-125 | the intended history: the last 100 rows, ending with the newest |
| Chat.OldestAre | js/chat.js:121-125 | a message is loaded by the query exactly when fewer than 100 messages precede it |
| Chat.LatestAre | js/chat.js:121-125 | a message is in the intended history exactly when fewer than 100 messages follow it |
| Chat.OldestMissesNewest | js/chat.js:121-125 | with 101 messages the query misses the newest one, which the intended history contains |
| Chat.BadgeFor | js/chat.js:65-72 | the badge is hidden exactly at 0, shows the decimal numeral of the count (at most two digits, reading back as the count) from 1 to 99, and "99+" above |
| Chat.ChatSession.constructor | js/chat.js:7-11 | no user yet, not admin, nothing unread, panel closed, no messages shown |
| Chat.ChatSession.InitializeUser | js/chat.js:14-30 | the session takes the resolved id and name, and the pair to save; nothing else changes |
| Chat.ChatSession.GrantAdmin | js/deliverables-admin.js:52 | after the admin password is accepted, messages carry the admin flag |
| Chat.ChatSession.ToggleChat | js/chat.js:50-58 | the panel toggles; opening it clears the unread count and hides the badge; closing keeps the count |
| Chat.ChatSession.CloseChat | js/chat.js:60-62 | the close button closes the panel and keeps the count |
| Chat.ChatSession.MarkMessagesAsRead | js/chat.js:191-194 | the unread count becomes 0 and the badge is hidden |
| Chat.ChatSession.DisplayMessage | js/chat.js:142-176 | the bubble is appended; the unread count grows by exactly one when the panel is closed, the sender is someone else and the message is new, and is unchanged otherwise; the badge follows the count |
| Chat.ChatSession.LoadMessages | js/chat.js:119-139 | an error or empty history changes nothing; otherwise the shown list becomes the history's bubbles, `lastMessageId` the last row's id, and the unread count is unchanged |
| Chat.ChatSession.SendMessage | js/chat.js:86-116 | a blank message sends nothing; otherwise the insert carries the trimmed text and the user's id, name and admin flag; the input clears only when the insert succeeded |
| LegacyScript.DefaultItems | script.js:74-120 | the built-in data has ids 1, 2, 3, 4 across the buckets, all at most 4 |
| LegacyScript.MaxId | script.js:36-42 | the counter after loading is at least its old value and every loaded id, and is one of them |
| LegacyScript.IdsAtMostWith | script.js:466 | a bucket of items with ids at most the counter keeps every id at most the counter |
| LegacyScript.PartitionIdsAtMost | script.js:36-42 | every loaded item's id is at most the counter the load leaves |
| LegacyScript.LastComment | script.js:53-62 | the comment row that a merge leaves in effect for an id is the last one carrying it |
| LegacyScript.PatchAllKeepsIds | script.js:53-62 | setting comment and approval keeps every bucket's length and every id |
| LegacyScript.MergeKeepsIds | script.js:53-62 | merging the comments keeps every bucket's length and every id |
| LegacyScript.LastCommentWins | script.js:53-62 | after the merge each item (ids unique in its bucket) has the comment and approval of the last comment row for its id, and is unchanged without one |
| LegacyScript.LegacyViewAgrees | script.js:187-198 | an item with `is_approved` is drawn approved with the approved badge whatever its status, exactly as the later pages show it after `updateApprovalStates` |
| LegacyScript.CardEntries | script.js:631-638 | the submit reads one entry per card, in page order |
| LegacyScript.SaveRequests | script.js:617-627 | submitting saves every card: its id, trimmed comment and checkbox |
| LegacyScript.LegacySubmit | script.js:605-652 | submitting is refused, saving nothing, exactly when no box is checked; otherwise every card is saved and the submission summarised |
| LegacyScript.NewItem | script.js:441-456 | the new item takes the counter value as id, is unapproved without a comment, and has a duration and progress under the same conditions as the later pages |
| LegacyScript.Portal.constructor | script.js:10-16 | empty buckets and counter 0 |
| LegacyScript.Portal.LoadDefaultData | script.js:74-120 | the mirror becomes the built-in data and the counter 4 |
| LegacyScript.Portal.PushRows | script.js:36-42 | while every row names a bucket, the mirror is the partition of the rows and the counter the largest of its old value and their ids; a row of another category stops the loop |
| LegacyScript.Portal.PushRow | script.js:37-41 | one row is appended to its bucket and the counter raised to its id |
| LegacyScript.Portal.MergeRows | script.js:53-62 | the comment rows are applied in order, keeping every id at most the counter |
| LegacyScript.Portal.LoadData | script.js:19-71 | a failed fetch of either table or a row of unknown category leaves the built-in data and counter 4; otherwise the rows by category with comments merged, and the counter at least every id |
| LegacyScript.Portal.HandleSaveComment | script.js:276-319 | the trimmed comment and checkbox are upserted, and reach the mirror only when the upsert succeeded |
| LegacyScript.Portal.HandleApprovalChange | script.js:322-349 | the card flips at once and the checkbox is upserted with the trimmed comment; the mirror is not changed |
| LegacyScript.Portal.AddItem | script.js:430-478 | the counter rises by one even when the insert fails; the new id exceeds every existing id; the item is appended only when the insert succeeded |
| LegacyScript.Portal.DeleteItem | script.js:534-559 | the bucket is filtered only after a confirmed, successful delete of the deliverable; the comment delete's result is ignored |
| LegacyScript.Portal.EditItem | script.js:562-582 | an absent id changes nothing; otherwise the form is pre-filled and the item goes through the delete, confirmation included |

## Copies in the other pages

The combined page (js/main.js), the older page (js/deliverables.js) and the first page (script.js) repeat several handlers of the split pages almost line for line. Each copy is modelled by the member of its first occurrence:

- `js/main.js:37-80`: the same load in the combined page, modelled by `DeliverablesCore.LoadData`.
- `js/deliverables.js:17-52`: the same load in the older page, modelled by `DeliverablesCore.LoadData`.
- `js/main.js:837-856`: the combined page's realtime reload, modelled by `DeliverablesCore.OnDeliverablesChange`.
- `js/deliverables.js:553-566`: the older page's realtime reload, modelled by `DeliverablesCore.OnDeliverablesChange`.
- `js/deliverables.js:223-240`: the older page's comment handler, which also ignores the update's result, modelled by `DeliverablesCore.HandleCommentChange`.
- `js/main.js:293-301`: the combined page's progress counts, modelled by `DeliverablesCore.CountChecked`.
- `js/main.js:83-160`: the combined page's badge map, modelled by `DeliverablesCore.StatusBadge`.
- `js/main.js:602-650`: the combined page's report, with its own header lines, modelled by `Feedback.BuildReport`.
- `js/deliverables.js:508-550`: the older page's report, modelled by `Feedback.BuildReport`.
- `script.js:657-705`: the first page's report, modelled by `Feedback.BuildReport`.
- `js/deliverables.js:479-505`: the older page's submit, modelled by `Feedback.Submit`.
- `js/main.js:372-429`: the combined page's add, modelled by `DeliverablesAdmin.AddItem`.
- `js/deliverables.js:315-362`: the older page's add, modelled by `DeliverablesAdmin.AddItem`.
- `js/main.js:432-482`: the combined page's admin list, modelled by `DeliverablesAdmin.AdminList`.
- `js/deliverables.js:365-414`: the older page's admin list, modelled by `DeliverablesAdmin.AdminList`.
- `script.js:481-530`: the first page's admin list, modelled by `DeliverablesAdmin.AdminList`.
- `js/deliverables.js:417-432`: the older page's delete, modelled by `DeliverablesAdmin.DeleteItem`.
- `js/deliverables.js:435-463`: the older page's edit, modelled by `DeliverablesAdmin.EditItem`.
- `js/main.js:685-692`: the combined page's badge rule, modelled by `Chat.BadgeFor`.
- `js/main.js:11-27`: the combined page's user setup, modelled by `Chat.ChatSession.InitializeUser`.
- `js/main.js:670-678`: the combined page's toggle, modelled by `Chat.ChatSession.ToggleChat`.
- `js/main.js:813-816`: the combined page's mark-as-read, modelled by `Chat.ChatSession.MarkMessagesAsRead`.
- `js/main.js:762-798`: the combined page's display, modelled by `Chat.ChatSession.DisplayMessage`.
- `js/main.js:739-759`: the combined page's load, modelled by `Chat.ChatSession.LoadMessages`.
- `js/main.js:706-736`: the combined page's send, modelled by `Chat.ChatSession.SendMessage`.

## Left out

- Page rendering (HTML templates, `querySelector`, event wiring, scrolling, loading
  indicators, alerts), tabs, dark mode and the admin modal. A card's approval look
  is modelled as `CardView` (card class, badge classes, badge text); checkbox state
  is the item's `isApproved`.
- The "approve all in section" buttons: each one checks the boxes of a section and
  fires their change events, i.e. a sequence of the approval handlers modelled here.
- The admin password compare. `Chat.ChatSession.GrantAdmin` models only what
  follows a correct answer.
- Backend calls and realtime channels: each call's outcome is a parameter; a
  deliverables change notice is modelled as a reload (`OnDeliverablesChange`) and
  a pushed chat message as `DisplayMessage(msg, true)`.
- Host inputs: `Math.random` (the `Roll` and the random part of a user id),
  `prompt`, `confirm`, `localStorage` (`Chat.Stored`) and the current date and
  time are parameters; locale date and time formatting and the file download are
  not modelled (the report takes the date and time strings as given).
- Message times in chat bubbles and the avatar's admin class are not modelled.
- Asynchronous interleaving: every handler runs as one atomic step; overlapping
  reloads and writes, `Promise.all` and `setTimeout` are not modelled.
- JavaScript values: ids are unbounded integers (the source's numbers are
  doubles); an absent or `null` `is_approved` is `false`; absent optional fields
  are `None`.
- Text.Trim: the contract does not state that the result is the contiguous middle
  of the input, only its bounds and that it is empty exactly for blank input.
- Text.Capitalize: only `a`–`z` are upper-cased; `toUpperCase` also maps other
  letters (and may lengthen some).
- Chat.Initial: only `a`–`z` are upper-cased, and the initial is at most one
  character; `toUpperCase` also maps other letters and can return two characters
  (`"ß"` becomes `"SS"`).
- DeliverablesCore.StatusBadge: a status naming an `Object.prototype` property
  (`constructor`, `toString`, `valueOf`, `__proto__`, …) is not modelled. The
  source's object-literal lookup returns that inherited function or object, which
  is truthy, so the card gets its string form as classes and no `badge-` class;
  the model gives `badge-pending`. `DeliverablesCore.RenderedBadge` inherits this.
- Chat.ChatSession.LoadMessages: loads the latest 100 messages (see "Findings")
  rather than the oldest 100 the query returns; `Chat.OldestMessages` models the
  query as written.
- LegacyScript.Portal.PushRows: on a row of unknown category the mirror is left
  half-loaded; the caller replaces it with the built-in data, as the catch block does.

## Findings

| source | as written | input that shows it | evidently intended | confidence | as-written member | corrected member |
|---|---|---|---|---|---|---|
| js/chat.js:121-125 | the history query sorts by creation time ascending and keeps the first 100 rows, so it returns the 100 oldest messages | a chat table of 101 messages: the newest one is not loaded when the page opens | the latest 100 messages, shown oldest first | medium, not executed | Chat.OldestMissesNewest | Chat.LatestMessages |

# Job application tracker: board reconciler and record store

A Dafny model of the core of a single-page job application tracker.
It covers two parts:

- **The kanban board** (`KanbanBoard.tsx`). It derives five ordered columns
  of application ids from the application list: newest application first,
  then pushed by status. It resolves which column holds a card, applies the
  offer rule (an offer-like application may only go to the offer, accepted
  or rejected column), and handles the end of a drag. A drag inside one
  column is a reorder with `arrayMove`. A drag across columns moves the
  card and reports the new status upstream.
- **The page's record store** (`page.tsx`). This covers adding, updating
  and deleting applications, and the status change the board reports. It
  also covers the company autocomplete list, grouping by status for the
  statistics, and the follow-up reminder. In the form, it covers the
  interview list edits and the role templates: selecting a role fills the
  interview list, and reopening an application looks the role up again.

Modules, one per file:

| file | module | what it holds |
|---|---|---|
| `wrappers.dfy` | `Wrappers` | `Option` |
| `seqs.dfy` | `Seqs` | `filter`, `indexOf`, splice insert and remove, `arrayMove` |
| `strings.dfy` | `Strings` | string order for `localeCompare`, `join(",")`, decimal digits |
| `records.dfy` | `Records` | statuses, interviews, offer details, applications, drafts |
| `board.dfy` | `Board` | the five-column board and `findContainerByItem` |
| `derive.dfy` | `Derive` | `initialBoard`: the stable newest-first sort and the push into columns |
| `drag.dfy` | `Drag` | `isOfferApp`, `canDropTo`, the `appById` lookup, `handleDragEnd` |
| `store.dfy` | `Store` | `needsFollowUp`, add, update, delete, the status change, companies, grouping, statistics |
| `form.dfy` | `Form` | interview edits, `ROLE_TEMPLATES`, `handleRoleSelect`, `startEditing` |
| `endtoend.dfy` | `EndToEnd` | the board's optimistic move against the board derived after the status change, and the board derived after a delete |

Modelling choices:

- **Clock readings are parameters.** This covers the fresh application id
  from `Date.now()`, the interview id stamp and the number of days since
  a date.
- **Dates compare by code point.** `localeCompare` on ISO dates is modelled
  as lexicographic order of code points (`LexLe`).
- **The sort is modelled as a stable insertion sort.** `SortIsTheStableSort`
  proves it is the only newest-first permutation of the list that keeps
  applications of one date in list order. So it agrees with any stable
  sort the runtime uses.
- **A background drop in the card's own column does nothing.** One might
  expect such a card to go to the end of its column, as a cross-column
  background drop does. The code instead sets the target index to the
  card's own index (`KanbanBoard.tsx:174-177`), which skips `arrayMove`.
  The model follows the code (`Drag.DragEndOwnColumnBackground`).
- **`arrayMove` is splice-out then splice-in.** The drag-and-drop library's
  `arrayMove(list, from, to)` is modelled as removing the element at
  `from` and inserting it at index `to` of the shortened list
  (`Seqs.ArrayMove`). The library's own source is not part of this model.
- **A drag reads and writes one board.** `handleDragEnd` reads the
  rendered `board` (`KanbanBoard.tsx:156-176`) but applies its update to
  the `prev` state (`KanbanBoard.tsx:178-192`). The model uses one board
  for both, which is the same board unless another update is queued
  between render and drop.
- **The `appById` lookup returns the last match.** It is built with
  `Object.fromEntries`, so when two applications share an id the later one
  wins. `Drag.FindApp` returns that last match.
- **An empty editing id saves nothing.** `updateApplication` returns early
  when `editingId` is falsy. So an empty string is a no-op like `null`.
- **An empty follow-up date counts as missing.** `lastFollowUp ||
  dateApplied` treats an empty string as absent.

## Model

| member | source | states |
|---|---|---|
| Records.StatusOfName | src/components/ui/KanbanBoard.tsx:160 | a string names a column exactly when it is one of the five status names; the status found has that name |
| Records.NameRoundTrip | src/components/ui/KanbanBoard.tsx:29 | every status's name resolves back to that status |
| Records.DraftOf | src/app/page.tsx:387-403 | the form draft of an application, given the application's id back, is the application |
| Seqs.IndexOf | src/components/ui/KanbanBoard.tsx:173 | `indexOf` gives -1 exactly for an absent element, otherwise the first position holding it |
| Seqs.RemoveAllMultiset | src/components/ui/KanbanBoard.tsx:185 | `filter(id => id !== activeId)` removes every occurrence of the id and keeps every other count |
| Seqs.FilterMembers | src/app/page.tsx:616 | `filter` keeps exactly the elements its predicate accepts |
| Seqs.FilterConcat | src/app/page.tsx:616 | `filter` works piecewise on a split list, so it keeps relative order |
| Seqs.InsertAt | src/components/ui/KanbanBoard.tsx:190 | the spread-and-slice insert puts the element at the index, keeps the prefix, shifts the rest by one and adds one occurrence |
| Seqs.RemoveInserted | src/components/ui/KanbanBoard.tsx:190 | removing at the index just inserted at gives the list back |
| Seqs.ArrayMove | src/components/ui/KanbanBoard.tsx:178 | `arrayMove` is a permutation: the element lands at the target index, elements between the two indices shift one place toward the source, the rest stay |
| Seqs.ArrayMoveUndo | src/components/ui/KanbanBoard.tsx:178 | moving back from the target to the source index undoes a move |
| Seqs.ArrayMoveNeighbours | src/components/ui/KanbanBoard.tsx:178 | moving an element onto its successor's index swaps the two |
| Strings.LexLeTotal | src/components/ui/KanbanBoard.tsx:113 | the date comparison is total, so every pair of dates is ordered |
| Strings.LexLeTransitive | src/components/ui/KanbanBoard.tsx:113 | the date comparison is transitive |
| Strings.LexLeAntisymmetric | src/components/ui/KanbanBoard.tsx:113 | dates that compare equal both ways are the same string |
| Strings.JoinInjective | src/app/page.tsx:662-664 | `join(",")` is injective on non-empty lists whose elements contain no comma |
| Strings.NatToStringInjective | src/app/page.tsx:533 | distinct indices give distinct decimal strings |
| Board.With | src/components/ui/KanbanBoard.tsx:178 | `{ ...prev, [col]: list }` replaces that column and keeps the other four |
| Board.IdsWith | src/components/ui/KanbanBoard.tsx:192 | replacing one column changes the board's ids by exactly that column's difference |
| Board.PartitionedUnique | src/components/ui/KanbanBoard.tsx:111-116 | on a board whose ids are all distinct, an id is in at most one column, once |
| Board.FindContainer | src/components/ui/KanbanBoard.tsx:124-125 | `findContainerByItem` finds a column holding the id, and finds none exactly when no column holds it |
| Board.FindContainerExact | src/components/ui/KanbanBoard.tsx:124-125 | on a board with distinct ids, the column found is the column holding the id, both ways |
| Derive.InsertByDateSorted | src/components/ui/KanbanBoard.tsx:113 | a stable insertion step keeps a newest-first list newest first |
| Derive.SortByDateDesc | src/components/ui/KanbanBoard.tsx:113 | the sort returns a permutation of the input, newest first |
| Derive.InsertByDateStable | src/components/ui/KanbanBoard.tsx:113 | among the applications of one date, an inserted application comes first and the others keep their order |
| Derive.SortStable | src/components/ui/KanbanBoard.tsx:113 | applications with the same date keep their list order |
| Derive.SortIsTheStableSort | src/components/ui/KanbanBoard.tsx:113 | every newest-first permutation that keeps equal dates in list order is the sort's result |
| Derive.PushAllColumns | src/components/ui/KanbanBoard.tsx:114 | pushing a list appends to each column the ids of the applications with that status, in list order |
| Derive.PushAllIds | src/components/ui/KanbanBoard.tsx:114 | pushing a list adds each application's id once |
| Derive.IdsOfSort | src/components/ui/KanbanBoard.tsx:113 | sorting keeps the multiset of ids |
| Derive.InitialBoard | src/components/ui/KanbanBoard.tsx:111-116 | `initialBoard`: sorts newest first and pushes each id onto its status's column; `Derive.InitialBoardColumn`, `InitialBoardMembership`, `InitialBoardIds` and `InitialBoardPartitioned` state what the board holds |
| Derive.InitialBoardColumn | src/components/ui/KanbanBoard.tsx:111-116 | each derived column lists the ids of exactly that status's applications, newest first, with equal dates in list order |
| Derive.InitialBoardMembership | src/components/ui/KanbanBoard.tsx:111-116 | an id is in a derived column exactly when some application with that id has that status |
| Derive.InitialBoardIds | src/components/ui/KanbanBoard.tsx:111-116 | the derived board holds each application id once per application carrying it |
| Derive.InitialBoardPartitioned | src/components/ui/KanbanBoard.tsx:111-125 | with distinct ids, the derived board has every id once, and `findContainerByItem` returns the status of the id's application |
| Drag.FindApp | src/components/ui/KanbanBoard.tsx:105-108 | `appById[id]` is the last application with the id, and is absent exactly when no application has it |
| Drag.FindAppUnique | src/components/ui/KanbanBoard.tsx:105-108 | with distinct ids the lookup returns the one application with the id |
| Drag.IsOfferApp | src/components/ui/KanbanBoard.tsx:129-133 | `isOfferApp`: offer-like exactly when the status is offer or one of the six offer fields is non-empty, as `Drag.CanDropToRule` states |
| Drag.CanDropTo | src/components/ui/KanbanBoard.tsx:136-141 | `canDropTo`: an offer-like application only to offer, accepted or rejected, any other application anywhere, as `Drag.CanDropToRule` and `Drag.OfferNeverMovesBack` state |
| Drag.CanDropToRule | src/components/ui/KanbanBoard.tsx:129-141 | an application is offer-like when its status is offer or any offer field is non-empty; an offer-like application may go only to offer, accepted or rejected, any other anywhere |
| Drag.DropColumn | src/components/ui/KanbanBoard.tsx:159-161 | a status name targets that column; any other id targets a column holding it, and no column exactly when none holds it |
| Drag.DropOnColumn | src/components/ui/KanbanBoard.tsx:160 | dropping on a column id targets that column |
| Drag.DropOnCard | src/components/ui/KanbanBoard.tsx:160-161 | dropping on a card targets the column holding the card |
| Drag.Reorder | src/components/ui/KanbanBoard.tsx:171-181 | a same-column drop keeps every column's contents as a multiset and keeps the board's ids |
| Drag.Move | src/components/ui/KanbanBoard.tsx:184-193 | a cross-column drop removes the card from the source column, adds it once to the target column and leaves the other columns alone |
| Drag.DragEnd | src/components/ui/KanbanBoard.tsx:148-197 | a reported change names the dragged card, which is then in the new column; with no change reported every column keeps its contents |
| Drag.DragEndChangeEligible | src/components/ui/KanbanBoard.tsx:151-169 | a change is reported only for a card on the board with a known application, dropped on a resolvable other column the offer rule allows |
| Drag.DragEndIgnored | src/components/ui/KanbanBoard.tsx:151-166 | no target, a card on no column, a target naming no column or an unknown application leaves the board alone and reports nothing |
| Drag.DragEndIneligible | src/components/ui/KanbanBoard.tsx:165-169 | a drop the offer rule forbids leaves the board alone and reports nothing |
| Drag.OfferNeverMovesBack | src/components/ui/KanbanBoard.tsx:136-141 | an offer-like card dropped on the applied or interviewing column, or on one of their cards, stays put |
| Drag.DragEndOwnColumnBackground | src/components/ui/KanbanBoard.tsx:171-180 | a drop on the card's own column background changes nothing, because the target index is the card's own |
| Drag.DragEndReorder | src/components/ui/KanbanBoard.tsx:171-180 | a drop on a card of the same column applies `arrayMove` from the card's index to that card's index, keeps the other columns and reports nothing |
| Drag.DragEndSwapsNeighbours | src/components/ui/KanbanBoard.tsx:171-180 | dropping a card on the card below it swaps the two |
| Drag.DragEndMove | src/components/ui/KanbanBoard.tsx:183-196 | a cross-column drop removes the card at its index, inserts it before the card dropped on or appends it on a column drop, keeps the other columns and reports the card with its new status |
| Drag.NonOfferGoesAnywhere | src/components/ui/KanbanBoard.tsx:140 | a card that is not offer-like can be moved to any other column |
| Drag.DragEndKeepsIds | src/components/ui/KanbanBoard.tsx:148-197 | on a board with distinct ids a drag neither gains nor loses a card, so the ids stay distinct |
| Drag.MoveKeepsIds | src/components/ui/KanbanBoard.tsx:184-193 | moving a card between columns keeps the board's multiset of ids |
| Store.NeedsFollowUp | src/app/page.tsx:293-301 | `needsFollowUp`, with the day count a parameter; `Store.FollowUpRule` states the rule and `Store.FollowUpMonotone` its monotonicity in the interval |
| Store.FollowUpRule | src/app/page.tsx:293-301 | rejected and accepted applications never need a follow-up; others do once the days since the last non-empty follow-up date, else since the application date, reach the interval |
| Store.FollowUpMonotone | src/app/page.tsx:293-301 | a shorter interval flags every application a longer one flags |
| Store.AddApplication | src/app/page.tsx:544-550 | adding appends one record, the draft under the fresh id, and keeps every earlier record in place |
| Store.AddThenDelete | src/app/page.tsx:544-550 | deleting the record just added under a fresh id gives the list back |
| Store.ReplaceById | src/app/page.tsx:583-585 | each record with the edited id becomes the draft under that id; every other record is unchanged |
| Store.UpdateApplication | src/app/page.tsx:580-585 | without an editing id the list is unchanged; in every case no record's id changes |
| Store.UpdateOnlyMatching | src/app/page.tsx:583-585 | an update replaces exactly the records with the edited id |
| Store.UpdateKeepsUniqueIds | src/app/page.tsx:580-585 | an update keeps ids distinct |
| Store.DeleteApplication | src/app/page.tsx:615-616 | `deleteApplication` never lengthens the list; `Store.DeleteMembers`, `DeleteKeepsOrder`, `DeleteIdempotent` and `AddThenDelete` state what it keeps |
| Store.DeleteMembers | src/app/page.tsx:615-616 | deletion keeps exactly the records with another id |
| Store.DeleteKeepsOrder | src/app/page.tsx:615-616 | deletion works piecewise on any split, so relative order is kept |
| Store.DeleteIdempotent | src/app/page.tsx:615-616 | deleting twice is deleting once |
| Store.DeleteAbsent | src/app/page.tsx:615-616 | deleting an id nobody has changes nothing |
| Store.SetStatus | src/app/page.tsx:1153-1157 | the status change sets the status of the records with the id and leaves every other record alone |
| Store.SetStatusIsUpdate | src/app/page.tsx:1153-1157 | the status change equals an edit saving the record with only its status changed |
| Store.SetStatusUndo | src/app/page.tsx:1153-1157 | setting the old status back restores the list |
| Store.RememberCompany | src/app/page.tsx:552-555 | the company list only grows, by at most one entry at the end |
| Store.RememberCompanyRule | src/app/page.tsx:552-555 | a non-empty new company is appended; the list gains no duplicate and no entry other than the company |
| Store.RememberAllRule | src/app/page.tsx:587-590 | across many saves the list holds exactly its old entries plus every non-empty saved company, without duplicates |
| Store.Group | src/app/page.tsx:715-721 | the `reduce` grouping by status; `Store.GroupIsFilter`, `GroupKeys` and `GroupSizesSum` state its groups |
| Store.GroupIsFilter | src/app/page.tsx:715-721 | a group exists exactly for each status some application has, and holds those applications in list order |
| Store.GroupKeys | src/app/page.tsx:715-721 | a status is a key of the grouping exactly when some application has it |
| Store.GroupSizesSum | src/app/page.tsx:715-721 | every application is in exactly one group, so the group sizes add up to the list length |
| Store.Stats | src/app/page.tsx:723-727 | the interviewing and rejected counts together are at most the total, which is the list length; the follow-up count is at most the total |
| Store.StatsCount | src/app/page.tsx:723-727 | the counts are the numbers of interviewing, rejected and follow-up-due applications; the follow-up figure counts the filter that keeps exactly the applications the reminder rule flags |
| Form.SetField | src/app/page.tsx:689 | `{ ...interview, [field]: value }` writes the field and keeps the other four |
| Form.SetFieldLaws | src/app/page.tsx:689 | writing a field's own value changes nothing; a second write of a field overrides the first |
| Form.UpdateInterview | src/app/page.tsx:686-696 | `updateInterview` changes only the draft's interview list and keeps its length; `Form.UpdateInterviewRule` states each interview's new value |
| Form.UpdateInterviewRule | src/app/page.tsx:686-696 | each interview with the id gets the new value in that field and keeps its other fields; other interviews are unchanged |
| Form.UpdateInterviewAbsent | src/app/page.tsx:686-696 | updating an id no interview has changes nothing |
| Form.DeleteInterview | src/app/page.tsx:699-704 | `deleteInterview` changes only the draft's interview list and never lengthens it; `Form.DeleteInterviewRule` states what it keeps |
| Form.DeleteInterviewRule | src/app/page.tsx:699-704 | deleting keeps exactly the interviews with another id, in order |
| Form.AddInterview | src/app/page.tsx:669-683 | `addInterview` appends one blank interview with id `interview-<stamp>` after the existing ones and changes nothing else in the draft |
| Form.AddThenDeleteInterview | src/app/page.tsx:669-704 | deleting the blank interview just added under a fresh id gives the draft back |
| Form.Lookup | src/app/page.tsx:529 | `ROLE_TEMPLATES[key]` is absent exactly for keys not in the table, otherwise an entry's template |
| Form.Expand | src/app/page.tsx:532-538 | one interview per template type; `Form.ExpandRule` states their types, ids and blank fields |
| Form.ExpandRule | src/app/page.tsx:532-538 | a template expands to interviews with its types in order, the interview at index `i` having id `interview-<i>` (so all ids are distinct), and blank date, time and notes |
| Form.RoleSelect | src/app/page.tsx:527-541 | the role is always recorded; only the interview list may change, and not at all for a role without a template |
| Form.RoleSelectFills | src/app/page.tsx:527-541 | selecting a role from the table replaces the interviews by its template's expansion: the template's types in order, ids `interview-<index>`, blank date, time and notes, and no other draft field changed |
| Form.TemplateKey | src/app/page.tsx:662-664 | the role recognised from an interview list; `Form.TemplateKeySound` and `Form.TemplateKeyComplete` relate it to the templates in both directions |
| Form.FindKey | src/app/page.tsx:662-664 | the key found names an entry whose joined types equal the joined interview types; none is found exactly when no entry matches |
| Form.TemplatesCommaFree | src/app/page.tsx:277-291 | every template is non-empty and no type in it contains a comma |
| Form.TemplateKeySound | src/app/page.tsx:662-664 | for non-empty, comma-free interview types, a recognised role's template is exactly those types |
| Form.TemplateKeyComplete | src/app/page.tsx:662-664 | interview types equal to a template are recognised, as the first role with that template |
| Form.RoleSelectThenLookup | src/app/page.tsx:527-541 | selecting `software_engineer` and reopening the application recognises `software_engineer` |
| Form.SharedTemplateCollapses | src/app/page.tsx:283-284 | a `mechanical_engineer` selection is reopened as `electrical_engineer`, because both roles share a template |
| Form.TemplateKeyCommaCollision | src/app/page.tsx:662-664 | two interviews typed `Technical,System Design` and `Behavioral` are recognised as `software_engineer` although the types differ from its template |
| Form.StartEditingAsWritten | src/app/page.tsx:647-666 | reopening for editing, as written: the draft with the id restored is the application with its follow-up date unset, the form edits that id, and the role is empty exactly when no template is recognised, otherwise the recognised one |
| Form.StartEditingAsWrittenLosesFollowUp | src/app/page.tsx:647-658 | saving an application reopened as written, with the form untouched, changes the list: the follow-up date is gone |
| Form.StartEditing | src/app/page.tsx:647-666 | the corrected reopening: the draft holds every field of the application, the form edits its id, and the role is empty exactly when no template is recognised, otherwise the recognised one |
| Form.SaveUnchangedEdit | src/app/page.tsx:580-585 | with distinct ids, saving an application reopened with the correction, with the form untouched, leaves the list as it was |
| EndToEnd.SetStatusKeepsUniqueIds | src/app/page.tsx:1153-1157 | the status change keeps ids distinct |
| EndToEnd.StatusChangeLands | src/components/ui/KanbanBoard.tsx:196 | after a reported change is applied to the records, the re-derived board has the card in the new column and in no other |
| EndToEnd.MoveMembership | src/components/ui/KanbanBoard.tsx:184-193 | a move changes where the moved card is and the membership of no other card |
| EndToEnd.DerivedShowsRecords | src/components/ui/KanbanBoard.tsx:111-119 | with distinct ids the freshly derived board is partitioned and shows every id in its record's columns |
| EndToEnd.QuietDropKeepsShowing | src/components/ui/KanbanBoard.tsx:171-181 | a drop that reports nothing, such as a reorder within a column, leaves a board that is still partitioned and still shows every id in the same columns as the derived board |
| EndToEnd.OptimisticBoardAgrees | src/components/ui/KanbanBoard.tsx:118-119 | from any partitioned board that shows the records (the derived board, or one reorders have left), the board left on screen after a cross-column drop has every id in the same column as the board derived once the page applies the change |
| EndToEnd.DeleteThenSort | src/components/ui/KanbanBoard.tsx:111-116 | after a delete the newest-first order of the remaining applications is the old order with the deleted id's records taken out |
| EndToEnd.DeleteFromBoard | src/components/ui/KanbanBoard.tsx:111-119 | after a delete the re-derived board's every column is the old column with the id removed, so the other cards keep their columns and relative order |
| EndToEnd.DeleteLeavesBoard | src/components/ui/KanbanBoard.tsx:111-119 | after a delete the id is in no column of the re-derived board, and every other id is in a column exactly when it was before |

## Left out

- Rendering, styling, the hover preview, overlays, tooltips and the card expansion toggles are UI only.
- The drag-and-drop library's sensors and collision detection are external. The model takes the drop target id they report as input.
- `handleDragStart` stores the dragged id in state that nothing reads, since `handleDragEnd` uses its own local `activeId`; `handleDragOver` does nothing.
- The `useEffect` that replaces the board when the applications change is not a separate operation. Re-derivation is modelled by calling `InitialBoard` on the new list (`EndToEnd`).
- Reading and writing browser storage, the calendar export and pasting a job URL are I/O.
- The clock is a parameter throughout. `Date.now()` becomes the fresh id, and the reminder's day count becomes `daysSince`. The current date used to reset the form is left out.
- `handleFollowUp` opens the mail client, which is I/O. Its record change sets `lastFollowUp` to today's date, which would need the clock; the model leaves that change out.
- Resetting the form and the selected role after an add or update, and removing the expanded-card flag after a delete, touch only form and view state.
- `handleInputChange` on top-level fields is a plain record update. Only the interview edits are modelled.
- The static tables of interview tips, the status colours and labels, and the build configuration files hold no logic.
- `Form.Lookup`: keys inherited from the object prototype, such as `constructor`, are not in the table. In the source they would be truthy and break `handleRoleSelect`.
- `Store.NeedsFollowUp`: `daysSince` returns an integer. An unparsable date, which gives NaN in the source and never flags, is not modelled.
- `Drag.FindApp`: keys inherited from the object prototype, such as `toString`, are found by `appById[...]` in the source but not by the model. Board ids come from the applications, so such a lookup does not arise.
- `Drag.CanDropToRule`: offer details are always present in the model. The `|| {}` fallback for a missing object is not modelled.
- `Derive.SortByDateDesc`: `localeCompare` is modelled as code-point order. For the ISO `yyyy-mm-dd` dates the form produces the two agree, but for arbitrary strings a locale's collation may differ.

## Findings

| source | as written | input that shows it | evidently intended | confidence | as-written member | corrected member |
|---|---|---|---|---|---|---|
| src/app/page.tsx:647-657 | `startEditing` builds the draft from the application's fields but leaves out `lastFollowUp`, and `updateApplication` saves `{ ...newApplication, id }` over the record | application `1` with `lastFollowUp` `2024-02-01`, reopened and saved without changes, loses its follow-up date, so the reminder falls back to the application date | reopening and saving without changes leaves the record as it was | not executed | Form.StartEditingAsWrittenLosesFollowUp | Form.SaveUnchangedEdit |

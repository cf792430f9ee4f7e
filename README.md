# condensedinlinepanel in Dafny

A model of the core of wagtail-condensedinlinepanel, a Wagtail edit-handler widget. It
shows an inline formset as a list of cards that can be edited, deleted, added and
reordered by drag and drop. The browser part keeps every sub-form as a record in a Redux
store. The server part hands the widget its initial state as JSON and unpacks what the
widget submits back into the flat keys that Django's formset reads.

Modules, one per source file:

- `Reducer` (`state.dfy`): the store's reducer (SET_STATE, SET_FORM, ADD_FORM,
  MOVE_FORM) and `emptyState`.
  - The older `state.ts` and the reducer of `condensedinlinepanel.jsx` are the same code
    as `src/state.ts`, so they are covered by the same members.
  - Positions take a base: 1 for the current client, 0 for the legacy one.
  - The central invariant is `Valid`: ids are indices, and the positions of all records,
    deleted ones included, are a permutation of base..base+n-1. It holds after every
    action the widget dispatches (`ReplayKeepsValid`).
- `Ordering` (`ordering.dfy`): the comparator of `init` and the sorted copy that `render`
  shows.
- `CardComponent` (`card.dfy`): `Card.tsx`.
  - Its decisions: form HTML, actions, class names, when the form must stay in the page.
  - Its delete-confirmation state, as a class whose methods update `showDeleteConfirm`.
  - The chooser-id field-name parser.
- `CardSet` (`card_set.dfy`): `CardSet.tsx`.
  - The gap layout of `initGaps`, including the closing gaps of deeper levels.
  - `render`'s split into live and deleted cards.
  - The edit, delete, add and drop handlers, as the actions they dispatch.
- `Panel` (`panel.dfy`): `init` in `src/condensedinlinepanel.tsx`.
  - The option defaults.
  - The hidden fields the store subscribers write: sort order, deleted ids, TOTAL_FORMS.
- `LegacyPanel` (`legacy.dfy`): where `condensedinlinepanel.jsx` differs.
  - One flat gap between every two cards, numbered 0..k, deleted cards included.
  - An add handler that appends at position n.
  - Subscribers without the null-state fallback.
- `EditHandlers` (`edit_handlers.dfy`): `process_post_data` and the id/position shape of
  `to_json`, in both versions of `edit_handlers.py`.
- `CardHeader` (`card_header.dfy`): `renderCardHeader` of the page's JS template. It
  picks the header value by mode and HTML-escapes it.

Helper modules:

- `Wrappers`: Option and Result.
- `JsonValue`: JSON values.
- `Strings`: decimal rendering and parsing, and global replacement.
- `Types`: `types.ts`.

Where the source mutates state in place, the model is imperative:

- the MOVE_FORM loop;
- `initGaps`;
- the subscribers' loops;
- the card's delete-confirmation flag;
- `process_post_data`'s nested dictionary updates.

Each of these methods is proved equal to a specification function. The properties are
stated about that function.

## Model

| member | source | states |
|---|---|---|
| Reducer.EmptyState | condensedinlinepanel/static/condensedinlinepanel/src/state.ts:44-63 | the placeholder state has no records and a template record with id 0, position 1, every flag off, no fields or extras, and an empty (present) error map |
| Reducer.Reduce | condensedinlinepanel/static/condensedinlinepanel/src/state.ts:66-111 | SET_STATE yields the supplied state whatever the prior state; every other action on a null state yields null; otherwise the template record is kept and the result is the table the action describes |
| Reducer.RepositionForms | condensedinlinepanel/static/condensedinlinepanel/src/state.ts:84-108 | the in-place MOVE_FORM loop over the copied table computes exactly the moved table `MovedForms` |
| Reducer.SetFormReplacesOne | condensedinlinepanel/static/condensedinlinepanel/src/state.ts:76-78 | SET_FORM replaces exactly `forms[formId]` by the data; length, template and every other record are unchanged |
| Reducer.AddFormAppends | condensedinlinepanel/static/condensedinlinepanel/src/state.ts:80-82 | ADD_FORM appends the data as the last record; the earlier records and the template are unchanged |
| Reducer.MoveFormEffect | condensedinlinepanel/static/condensedinlinepanel/src/state.ts:85-90 | the moved record gets the requested gap, minus one when the gap lies below its old position, and is marked changed; on every other record only the position may change |
| Reducer.ShiftedPositionMonotone | condensedinlinepanel/static/condensedinlinepanel/src/state.ts:98-106 | the two shifts of the other records are strictly increasing on all positions except the vacated one |
| Reducer.MoveKeepsRelativeOrder | condensedinlinepanel/static/condensedinlinepanel/src/state.ts:93-107 | on distinct positions, any two records other than the moved one stay in the same relative order |
| Reducer.MoveToOwnGapIsNoOp | condensedinlinepanel/static/condensedinlinepanel/src/state.ts:87-89 | dropping a record on either gap next to itself changes no position |
| Reducer.MoveLandsBefore | condensedinlinepanel/static/condensedinlinepanel/src/state.ts:84-107 | dropping on the gap numbered by another record's position puts the moved record immediately above that record |
| Reducer.MoveLandsAfter | condensedinlinepanel/static/condensedinlinepanel/src/state.ts:84-107 | dropping on the gap numbered one past another record's position puts the moved record immediately below it |
| Reducer.MoveKeepsDensePositions | condensedinlinepanel/static/condensedinlinepanel/src/state.ts:84-107 | a move to any gap base..base+n keeps the positions a permutation of base..base+n-1 |
| Reducer.MovedForms | condensedinlinepanel/static/condensedinlinepanel/src/state.ts:84-107 | the table after MOVE_FORM: the moved record takes the target gap (one less when it lies below its old position) and is marked changed; every other record at or after the old position first moves up one, and then every other record at or after the new position moves down one |
| Reducer.PositionSetCardinality | condensedinlinepanel/static/condensedinlinepanel/src/state.ts:84-107 | records with distinct positions use as many positions as there are records |
| Reducer.DensePositionsCoverRange | condensedinlinepanel/static/condensedinlinepanel/src/state.ts:84-107 | with dense positions every value base..base+n-1 is some record's position, so the positions leave no hole |
| Reducer.AdmissibleKeepsValid | condensedinlinepanel/static/condensedinlinepanel/src/state.ts:66-111 | each action the widget dispatches (a valid state, a record keeping its id and position, an appended record with the next id and position, a move to a shown gap) keeps ids equal to indices and positions dense |
| Reducer.ReplayKeepsValid | condensedinlinepanel/static/condensedinlinepanel/src/state.ts:66-111 | every state reached through such actions is valid |
| Reducer.AddThenMove | condensedinlinepanel/static/condensedinlinepanel/src/state.ts:80-107 | appending a record at the end and moving it to gap p keeps the state valid with one more record, puts the new record at p directly above the record that was there, and changes only the positions of the old records, keeping their order |
| Ordering.SortCompare | condensedinlinepanel/static/condensedinlinepanel/src/condensedinlinepanel.tsx:49-57 | the comparator is 1, -1 or 0 exactly as the first record sits below, above or level with the second |
| Ordering.SortCompareAntisymmetric | condensedinlinepanel/static/condensedinlinepanel/src/condensedinlinepanel.tsx:49-57 | swapping the arguments negates the result |
| Ordering.SortCompareTransitive | condensedinlinepanel/static/condensedinlinepanel/src/condensedinlinepanel.tsx:49-57 | "not after" is transitive, so the comparator is a consistent total preorder |
| Ordering.SortByPosition | condensedinlinepanel/static/condensedinlinepanel/src/components/CardSet.tsx:113-118 | the copy of the table sorted by position with the panel's comparator, records at equal positions keeping their order |
| Ordering.SortByPositionProperties | condensedinlinepanel/static/condensedinlinepanel/src/components/CardSet.tsx:113-118 | the sorted copy is a permutation of the records, is sorted by position, uses the same positions and keeps them distinct |
| Ordering.StrictlyIncreasing | condensedinlinepanel/static/condensedinlinepanel/src/components/CardSet.tsx:113-118 | in a sorted list with distinct positions, positions grow by at least the index distance |
| Ordering.SortedDensePositions | condensedinlinepanel/static/condensedinlinepanel/src/components/CardSet.tsx:113-118 | sorted records on dense positions base..base+n-1 have position base + j at index j |
| CardComponent.PrefixTokenHasNoDigit | condensedinlinepanel/static/condensedinlinepanel/src/components/Card.tsx:86 | the placeholder `__prefix__` shares no character with a decimal id |
| CardComponent.FormHtml | condensedinlinepanel/static/condensedinlinepanel/src/components/Card.tsx:84-88 | after the global replacement no `__prefix__` is left in the form HTML; a template without one comes back unchanged |
| CardComponent.FormHtmlSplices | condensedinlinepanel/static/condensedinlinepanel/src/components/Card.tsx:84-88 | each `__prefix__` of the template becomes the decimal form id: the text up to the first placeholder is kept (underscores in it included), that placeholder becomes the id, and the rest of the template is filled in the same way |
| CardComponent.FormHtmlFillsLabel | condensedinlinepanel/static/condensedinlinepanel/src/components/Card.tsx:84-88 | Django's `<label for="id_items-__prefix__-title">` becomes `<label for="id_items-` + the id + `-title">` |
| CardComponent.ShouldRenderForm | condensedinlinepanel/static/condensedinlinepanel/src/components/Card.tsx:185-191 | the form HTML is needed when the record is being edited, has changed or is deleted, and editing is allowed |
| CardComponent.BuiltinActions | condensedinlinepanel/static/condensedinlinepanel/src/components/Card.tsx:234-256 | an edit or close button (close while editing) exactly when editing is allowed, and a delete button, last, exactly when deleting is allowed |
| CardComponent.Card.constructor | condensedinlinepanel/static/condensedinlinepanel/src/components/Card.tsx:76-82 | a card starts with the delete confirmation hidden |
| CardComponent.Card.OnDelete | condensedinlinepanel/static/condensedinlinepanel/src/components/Card.tsx:214-220 | the delete button only shows the confirmation; nothing else changes |
| CardComponent.Card.OnDeleteCancel | condensedinlinepanel/static/condensedinlinepanel/src/components/Card.tsx:222-228 | cancelling hides the confirmation |
| CardComponent.Card.OnDeleteConfirm | condensedinlinepanel/static/condensedinlinepanel/src/components/Card.tsx:230-232 | confirming hands the deletion to the card set and leaves the card's own state alone |
| CardComponent.Card.OnEditStart | condensedinlinepanel/static/condensedinlinepanel/src/components/Card.tsx:196-198 | the edit button hands the edit start to the card set |
| CardComponent.Card.OnEditClose | condensedinlinepanel/static/condensedinlinepanel/src/components/Card.tsx:200-212 | the new field values are exactly the record's fields whose input element exists, each with that element's value |
| CardComponent.Card.RenderActions | condensedinlinepanel/static/condensedinlinepanel/src/components/Card.tsx:234-273 | while a deletion awaits confirmation (and deleting is allowed) only message, confirm and cancel are shown, whatever the customising hook did; otherwise the built-in buttons, as the hook left them |
| CardComponent.Card.GetClassNames | condensedinlinepanel/static/condensedinlinepanel/src/components/Card.tsx:275-300 | the base class first; errors iff the error map is non-empty; new iff new; changed iff changed and not new; deleted iff deleted; editing iff editing and not deleted; dragging iff dragged |
| CardComponent.Card.FormElement | condensedinlinepanel/static/condensedinlinepanel/src/components/Card.tsx:302-306 | the form HTML is in the page exactly when editing is allowed and the record is being edited, has changed or is deleted; it is then the template filled with the record's id, and carries no `__prefix__` |
| CardComponent.Card.CanDrag | condensedinlinepanel/static/condensedinlinepanel/src/components/Card.tsx:340-342 | a card can be dragged exactly when the panel is orderable |
| CardComponent.Card.BeginDrag | condensedinlinepanel/static/condensedinlinepanel/src/components/Card.tsx:343-347 | the drag payload is the id of the card's record |
| CardComponent.FirstDash | condensedinlinepanel/static/condensedinlinepanel/src/components/Card.tsx:140 | the index found is the first `-` of the text, and none is found only when there is none |
| CardComponent.ChooserFieldName | condensedinlinepanel/static/condensedinlinepanel/src/components/Card.tsx:140 | a field name captured by the chooser-id pattern contains no `-` |
| CardComponent.ChooserFieldNameRoundTrip | condensedinlinepanel/static/condensedinlinepanel/src/components/Card.tsx:140-143 | the id Django gives a chooser of form `id` and field `f` (dash-free prefix and name) yields `f` back |
| CardSet.GapNumbers | condensedinlinepanel/static/condensedinlinepanel/src/components/CardSet.tsx:33-62 | the regular gaps are numbered 1, 2, ..., k + 1 |
| CardSet.InitGaps | condensedinlinepanel/static/condensedinlinepanel/src/components/CardSet.tsx:30-65 | the loop with its closing-gap loops builds exactly the gapped list `Layout` |
| CardSet.ClosingGapsShape | condensedinlinepanel/static/condensedinlinepanel/src/components/CardSet.tsx:41-44 | no closing gap unless the depth drops; when it drops from d to e, one last-child gap per level d, d-1, ..., e+1, all at the current number |
| CardSet.LayoutSelections | condensedinlinepanel/static/condensedinlinepanel/src/components/CardSet.tsx:30-65 | the gapped list holds every card exactly once in input order, and its regular gaps are exactly the numbered gaps, in order |
| CardSet.GapAboveCard | condensedinlinepanel/static/condensedinlinepanel/src/components/CardSet.tsx:46-50 | each card is directly preceded by its own regular gap |
| CardSet.LayoutNumberedGapsWithin | condensedinlinepanel/static/condensedinlinepanel/src/components/CardSet.tsx:30-65 | when every gap number lies in lo..hi, so does every gap of the list, last-child gaps included |
| CardSet.LayoutGapsWithin | condensedinlinepanel/static/condensedinlinepanel/src/components/CardSet.tsx:30-65 | with k cards every gap, last-child gaps included, carries a number in 1..k+1 |
| CardSet.FilterFrom | condensedinlinepanel/static/condensedinlinepanel/src/components/CardSet.tsx:192-196 | each part holds only records with the flag asked for, all from the list |
| CardSet.FilterSplits | condensedinlinepanel/static/condensedinlinepanel/src/components/CardSet.tsx:192-196 | the live and the deleted part together are a permutation of the list |
| CardSet.FilterSorted | condensedinlinepanel/static/condensedinlinepanel/src/components/CardSet.tsx:192-196 | each part of a sorted list is sorted |
| CardSet.Render | condensedinlinepanel/static/condensedinlinepanel/src/components/CardSet.tsx:113-218 | the add button is shown iff editing is allowed; the gapped list is laid out from the live records of the sorted copy, and the deleted records follow it |
| CardSet.RenderShowsEveryRecordOnce | condensedinlinepanel/static/condensedinlinepanel/src/components/CardSet.tsx:113-200 | every record is shown exactly once: live ones in the gapped list in order of position, deleted ones after it in order |
| CardSet.HandlerAction | condensedinlinepanel/static/condensedinlinepanel/src/components/CardSet.tsx:125-173 | the SET_FORM a card event dispatches, for the record's own id: a copy with editing started and the record marked changed, with the deletion set, or with editing closed and the harvested field values |
| CardSet.HandlerKeepsValid | condensedinlinepanel/static/condensedinlinepanel/src/components/CardSet.tsx:125-173 | an edit, delete or close handler replaces only its own record, keeping its id and position, so the state stays valid; an edited or deleted record keeps its form in the page; a closed record takes the new field values and stops editing |
| CardSet.NewForm | condensedinlinepanel/static/condensedinlinepanel/src/components/CardSet.tsx:83-101 | the record `onAdd` creates: the next id, the template's field values, new, changed and editing, at position n + 1 and depth 1 |
| CardSet.AddActions | condensedinlinepanel/static/condensedinlinepanel/src/components/CardSet.tsx:83-111 | `onAdd(position)` dispatches ADD_FORM of that record, then MOVE_FORM of its id to the requested gap |
| CardSet.AddActionsInsert | condensedinlinepanel/static/condensedinlinepanel/src/components/CardSet.tsx:83-111 | adding at gap p of 1..n+1 keeps the state valid with one more record: new, changed, editing, depth 1, with the template's fields, at p directly above the record that was there, the old records keeping their order |
| CardSet.TopAddPutsFirst | condensedinlinepanel/static/condensedinlinepanel/src/components/CardSet.tsx:202-212 | the top add button puts the new record above every other record |
| CardSet.DropAction | condensedinlinepanel/static/condensedinlinepanel/src/components/Gap.tsx:22-26 | a drop on a gap dispatches MOVE_FORM of the dropped card's id to the gap's number |
| CardSet.LayoutGapsAreAdmissible | condensedinlinepanel/static/condensedinlinepanel/src/components/CardSet.tsx:73-81 | dropping a draggable card on any shown gap dispatches MOVE_FORM of the card's id to a gap in 1..n+1, an action that keeps the state valid |
| CardSet.CorrectedGapNumbers | condensedinlinepanel/static/condensedinlinepanel/src/components/CardSet.tsx:33-62 | the intended numbering gives each gap the position of the card below it, and the bottom gap one past the last card |
| CardSet.CorrectedGapsAreAdmissible | condensedinlinepanel/static/condensedinlinepanel/src/components/CardSet.tsx:73-81 | every gap of the corrected list is a drop target in 1..n+1 that keeps the state valid |
| CardSet.LiveCardIsRecord | condensedinlinepanel/static/condensedinlinepanel/src/components/CardSet.tsx:120-134 | on a valid state each live card is the record its id names |
| CardSet.CorrectedDropLandsAboveCard | condensedinlinepanel/static/condensedinlinepanel/src/components/CardSet.tsx:46-47 | with the intended numbering, dropping any other record on the gap above a live card puts it directly above that card |
| CardSet.CorrectedOwnGapIsNoOp | condensedinlinepanel/static/condensedinlinepanel/src/components/CardSet.tsx:46-47 | with the intended numbering, dropping a card on the gap directly above it changes nothing |
| CardSet.CorrectedBottomGapLandsLast | condensedinlinepanel/static/condensedinlinepanel/src/components/CardSet.tsx:61-62 | with the intended numbering, dropping another record on the bottom gap puts it directly below the last live card |
| CardSet.FilterAllLive | condensedinlinepanel/static/condensedinlinepanel/src/components/CardSet.tsx:192-196 | without deleted records the live part is the whole list |
| CardSet.SortedCopyIsDense | condensedinlinepanel/static/condensedinlinepanel/src/components/CardSet.tsx:113-118 | the sorted copy of a valid state is sorted, a permutation, and on the same dense positions |
| CardSet.GapNumbersRightWithoutDeletions | condensedinlinepanel/static/condensedinlinepanel/src/components/CardSet.tsx:33-62 | while no record is deleted, the numbers `initGaps` hands out are the intended ones |
| CardSet.DenseCardsNumbers | condensedinlinepanel/static/condensedinlinepanel/src/components/CardSet.tsx:33-62 | for cards sorted on positions 1..k both numberings coincide |
| CardSet.OwnGapDropReordersAfterDelete | condensedinlinepanel/static/condensedinlinepanel/src/components/CardSet.tsx:33-47 | as written, with a deleted record at position 1, dropping the card at position 3 on the gap directly above it (numbered 2) moves it above the card at position 2 |
| Panel.ResolveOptions | condensedinlinepanel/static/condensedinlinepanel/src/condensedinlinepanel.tsx:30-34 | as written editing and deleting are always on; ordering is on iff the option is true; the label is the option unless absent or empty, then "Add"; the legacy `init` resolves the three flags the same way (condensedinlinepanel.jsx:581-583) |
| Panel.ExplicitFalseIgnored | condensedinlinepanel/static/condensedinlinepanel/src/condensedinlinepanel.tsx:30-31 | `canEdit: false, canDelete: false` still yields editing and deleting on |
| Panel.ResolveOptionsIntended | condensedinlinepanel/static/condensedinlinepanel/src/condensedinlinepanel.tsx:30-34 | an explicit canEdit is used as given (default on); canDelete defaults to canEdit; ordering and label as written |
| Panel.ResolveOptionsAgreeUnlessSwitchedOff | condensedinlinepanel/static/condensedinlinepanel/src/condensedinlinepanel.tsx:30-31 | the two resolutions differ only when a page switches editing or deleting off |
| Panel.Init | condensedinlinepanel/static/condensedinlinepanel/src/condensedinlinepanel.tsx:29-119 | nothing is set up iff the root element is missing; otherwise the settings are the resolved options and the store holds the data field's state, or null when there is no data field |
| Panel.Positions | condensedinlinepanel/static/condensedinlinepanel/src/condensedinlinepanel.tsx:84-88 | one sort-order entry per record |
| Panel.SortOrders | condensedinlinepanel/static/condensedinlinepanel/src/condensedinlinepanel.tsx:84-88 | the subscriber's loop lists the records' positions by id |
| Panel.PositionsArePermutation | condensedinlinepanel/static/condensedinlinepanel/src/condensedinlinepanel.tsx:80-94 | on a valid state the sort order lists each position base..base+n-1 exactly once |
| Panel.DeletedIds | condensedinlinepanel/static/condensedinlinepanel/src/condensedinlinepanel.tsx:100-106 | the subscriber's loop collects the deleted records' ids in table order |
| Panel.DeletedIdsExact | condensedinlinepanel/static/condensedinlinepanel/src/condensedinlinepanel.tsx:96-111 | when ids are indices the delete value holds exactly the ids of the deleted records, increasing |
| Panel.TotalForms | condensedinlinepanel/static/condensedinlinepanel/src/condensedinlinepanel.tsx:121-128 | TOTAL_FORMS is a decimal numeral that reads back as the number of records, deleted ones included |
| Panel.Publish | condensedinlinepanel/static/condensedinlinepanel/src/condensedinlinepanel.tsx:79-128 | a sort order is written iff ordering is on; the delete value and the total are those of the state, a null state reading as the empty one |
| LegacyPanel.InitGaps | condensedinlinepanel/static/condensedinlinepanel/condensedinlinepanel.jsx:411-428 | gaps and cards alternate, starting and ending with a gap; gap m/2 sits at every even index and card m/2 at every odd one, so the gaps carry 0..k |
| LegacyPanel.NewForm | condensedinlinepanel/static/condensedinlinepanel/condensedinlinepanel.jsx:526-547 | the legacy new record: the next id, the template's field values, new, changed and editing, at 0-based position n, without a depth |
| LegacyPanel.AddActions | condensedinlinepanel/static/condensedinlinepanel/condensedinlinepanel.jsx:526-552 | the legacy `onAdd(position)` dispatches ADD_FORM of that record, then MOVE_FORM of its id to the requested gap |
| LegacyPanel.AddActionsInsert | condensedinlinepanel/static/condensedinlinepanel/condensedinlinepanel.jsx:526-552 | on 0-based positions, adding at gap p of 0..n keeps the state valid with one more record, new, changed and editing, at p directly above the record that was there, the old records keeping their order |
| LegacyPanel.TopAddPutsFirst | condensedinlinepanel/static/condensedinlinepanel/condensedinlinepanel.jsx:559-565 | the legacy add button (gap 0) puts the new record above every other record |
| LegacyPanel.Publish | condensedinlinepanel/static/condensedinlinepanel/condensedinlinepanel.jsx:595-649 | a sort order is written iff ordering is on; the delete value and the total are those of the state |
| LegacyPanel.SortOrderIsPermutation | condensedinlinepanel/static/condensedinlinepanel/condensedinlinepanel.jsx:610-622 | on a valid 0-based state the sort order lists each position 0..n-1 exactly once |
| EditHandlers.DeleteKey | condensedinlinepanel/edit_handlers.py:43 | a delete key ends in `-DELETE` |
| EditHandlers.OrderKey | condensedinlinepanel/edit_handlers.py:48 | an order key ends in `-ORDER` |
| EditHandlers.SuffixesExclusive | condensedinlinepanel/edit_handlers.py:41-48 | no key is both a delete key and an order key |
| EditHandlers.FieldKeyInjective | condensedinlinepanel/edit_handlers.py:39 | different forms or different field names never share a `prefix-i-field` key |
| EditHandlers.SetDefaults | condensedinlinepanel/edit_handlers.py:38-39 | `setdefault` of one form's fields adds exactly their keys, keeps every present value, and fills each absent key with the form's value |
| EditHandlers.WithFieldDefaultsEffect | condensedinlinepanel/edit_handlers.py:37-39 | after the field stage every key of every form is present, submitted values are untouched, and an absent key holds the blob's value |
| EditHandlers.MarkDeletedEffect | condensedinlinepanel/edit_handlers.py:41-43 | the delete stage writes `'on'` under the key of every listed id and changes no key not ending in `-DELETE` |
| EditHandlers.WithOrderEffect | condensedinlinepanel/edit_handlers.py:46-48 | the order stage writes entry i under `prefix-i-ORDER` and changes no key not ending in `-ORDER` |
| EditHandlers.SetDefaultsEach | condensedinlinepanel/edit_handlers.py:38-39 | the inner loop computes `SetDefaults` |
| EditHandlers.DeleteIdsFailure | condensedinlinepanel/edit_handlers.py:42-43 | an id that is neither a number nor a string makes the whole delete stage fail |
| EditHandlers.FieldDefaultsLoop | condensedinlinepanel/edit_handlers.py:37-39 | the outer loop computes the field stage |
| EditHandlers.MarkDeletedLoop | condensedinlinepanel/edit_handlers.py:41-43 | the delete loop computes the delete stage, or fails as the decoding of the ids fails |
| EditHandlers.WithOrderLoop | condensedinlinepanel/edit_handlers.py:46-48 | the order loop computes the order stage |
| EditHandlers.ProcessPostData | condensedinlinepanel/edit_handlers.py:22-50 | without the blob the data comes back unchanged; otherwise the result is the three stages in order, with a missing key or a wrong JSON shape as the error |
| EditHandlers.FieldKeysAvoidLists | condensedinlinepanel/edit_handlers.py:39-41 | no field key is the name of the delete list or the order list |
| EditHandlers.ProcessedKeepsSubmitted | condensedinlinepanel/edit_handlers.py:32-48 | every submitted key is kept, and its value too unless it is a DELETE or ORDER entry |
| EditHandlers.ProcessedFillsFields | condensedinlinepanel/edit_handlers.py:37-39 | every field of every form in the blob gets its key, with the blob's value when the browser did not submit it |
| EditHandlers.ProcessedMarksDeletions | condensedinlinepanel/edit_handlers.py:41-43 | every id of the submitted delete list ends up with `'on'` under its DELETE key |
| EditHandlers.ProcessedWritesOrder | condensedinlinepanel/edit_handlers.py:45-48 | when ordering is on, entry i of the order list ends up under `prefix-i-ORDER`; otherwise no ORDER key is added beyond submitted ones and blob fields |
| EditHandlers.ToJsonShape | condensedinlinepanel/edit_handlers.py:109-135 | form i gets id i, position i + 1, its field values, and forceFormRender exactly when its instance has no database id |
| EditHandlers.FieldsOfObjects | condensedinlinepanel/edit_handlers.py:37-38 | the field maps of a list of form objects are read back in order |
| EditHandlers.ToJsonRoundTrip | condensedinlinepanel/edit_handlers.py:109-135 | `process_post_data` reads back exactly the field values `to_json` wrote, form by form |
| EditHandlers.UnsubmittedFieldsRestored | condensedinlinepanel/edit_handlers.py:37-39 | with the blob `to_json` rendered, every unsubmitted field comes back with its rendered value |
| EditHandlers.LegacyToJsonShape | wagtailcondensedinlinepanel/edit_handlers.py:75-102 | legacy form i gets id i and 0-based position i; its extra names the linked page's title exactly when there is a link |
| EditHandlers.LegacyToJsonRoundTrip | wagtailcondensedinlinepanel/edit_handlers.py:75-102 | the legacy `process_post_data` reads back exactly the field values the legacy `to_json` wrote |
| CardHeader.EscapeConcat | condensedinlinepanel/templates/condensedinlinepanel/condensedinlinepanel.js:40-45 | the replacement chain distributes over concatenation |
| CardHeader.EscapeSingle | condensedinlinepanel/templates/condensedinlinepanel/condensedinlinepanel.js:40-45 | on one character the chain gives that character's entity, or the character itself |
| CardHeader.EscapeIsCharwise | condensedinlinepanel/templates/condensedinlinepanel/condensedinlinepanel.js:40-45 | the chain escapes each character independently |
| CardHeader.UnescapeStep | condensedinlinepanel/templates/condensedinlinepanel/condensedinlinepanel.js:40-45 | decoding an escaped character followed by anything gives the character back, then goes on |
| CardHeader.UnescapeEscape | condensedinlinepanel/templates/condensedinlinepanel/condensedinlinepanel.js:39-46 | decoding the five entities gives back the original text: because `&` goes first, nothing is lost |
| CardHeader.EscapeInjective | condensedinlinepanel/templates/condensedinlinepanel/condensedinlinepanel.js:39-46 | different texts escape differently |
| CardHeader.EscapeEachLeavesNoMarkup | condensedinlinepanel/templates/condensedinlinepanel/condensedinlinepanel.js:40-45 | escaping character by character never emits `<`, `>`, `"` or `'` |
| CardHeader.EscapeLeavesNoMarkup | condensedinlinepanel/templates/condensedinlinepanel/condensedinlinepanel.js:39-46 | the escaped text holds no `<`, `>`, `"` or `'` |
| CardHeader.SelectValue | condensedinlinepanel/templates/condensedinlinepanel/condensedinlinepanel.js:7-30 | field mode: the new-card text on a new card, else the field's value when present; default mode: the instance text, or the new-card text when there is none |
| CardHeader.RenderCardHeader | condensedinlinepanel/templates/condensedinlinepanel/condensedinlinepanel.js:32-50 | a missing value gives the empty header, unescaped; the safe mode passes the value through; every other mode's header decodes back to the value and holds no markup characters |
| CardHeader.EscapedHeaderHasNoMarkup | condensedinlinepanel/templates/condensedinlinepanel/condensedinlinepanel.js:13-46 | in every escaping mode the header holds no `<`, `>`, `"` or `'`, whatever the form holds |
| CardHeader.NewCardHeader | condensedinlinepanel/templates/condensedinlinepanel/condensedinlinepanel.js:10-29 | a new card in field mode, or a card without instance text in the default mode, shows the escaped new-card text |
| Strings.NatToString | condensedinlinepanel/static/condensedinlinepanel/src/condensedinlinepanel.tsx:126 | a decimal numeral: non-empty, digits only, no leading zero |
| Strings.ParseNatToString | condensedinlinepanel/static/condensedinlinepanel/src/condensedinlinepanel.tsx:126 | reading a rendered number back gives the number |
| Strings.NatToStringInjective | condensedinlinepanel/edit_handlers.py:39 | different numbers render differently |
| Strings.LeadingDigitsOf | condensedinlinepanel/edit_handlers.py:39 | the run of digits at the start of a rendered number followed by a non-digit is exactly that number |
| Strings.ReplaceAllSplices | condensedinlinepanel/static/condensedinlinepanel/src/components/Card.tsx:86 | a global replacement keeps text inside which no occurrence of the pattern starts, turns the next occurrence into the replacement, then goes on |
| Strings.ReplaceAllKeepsUnmatched | condensedinlinepanel/static/condensedinlinepanel/src/components/Card.tsx:86 | a global replacement copies a prefix inside which no occurrence of the pattern starts |
| Strings.ReplaceAllRemovesPattern | condensedinlinepanel/static/condensedinlinepanel/src/components/Card.tsx:86 | after a global replacement by a text sharing no character with the pattern, the pattern no longer occurs |
| Strings.ReplaceAllAbsent | condensedinlinepanel/static/condensedinlinepanel/src/components/Card.tsx:86 | a text without the pattern comes back unchanged |
| Strings.ReplaceCharConcat | condensedinlinepanel/templates/condensedinlinepanel/condensedinlinepanel.js:40-45 | replacing one character distributes over concatenation |
| Strings.ReplaceCharAbsent | condensedinlinepanel/templates/condensedinlinepanel/condensedinlinepanel.js:40-45 | replacing a character that does not occur changes nothing |

## Left out

- The DOM.
  - `initialiseForm`: field initialisation, error markup, `eval` of scripts, patching of
    page and image choosers.
  - Reading the hidden fields and writing them: the fields are parameters and results.
  - Only the chooser-id pattern is modelled, as `ChooserFieldName`.
- React and react-dnd wiring: `DragSource`, `DropTarget`, `DragDropContext`,
  `ReactDOM.render`, Redux `createStore`/`subscribe`.
  - A subscriber is modelled as the value it writes after a store change (`Publish`).
  - The drop delivers the dragged card's id and the gap's number (`DropAction`).
  - Rejection of drops across panels is react-dnd's type key and is not modelled.
- JSON encoding. `JSON.stringify` / `JSON.parse` of the state and `json.loads` /
  `json.dumps` of the hidden fields are taken as the identity on values.
- The `depth` that MOVE_FORM actions carry. The reducer ignores it.
- forceFormRender. The comment on the field in `src/types.ts:29` says that setting it makes
  the form fields render in the page. `Card.tsx` never reads it (`shouldRenderForm` does not
  consult it), so it has no effect in the model either.
- The renderCardHeader option of `init` and the legacy header text. They are a caller's
  function, and a field lookup (`form.fields[summaryTextField]`) in the `.jsx`.
  - CardHeader models the template's function.
  - The eval of `card_header_from_js` is a parameter, its result already turned into a
    string (`None` for null or undefined).
  - `toString` of non-string values is not modelled.
  - The new-card text is a parameter: the template's text after Django's own escaping.
- The legacy sort. `condensedinlinepanel.jsx` sorts with `a.position > b.position`, a
  boolean comparator whose result `Array.prototype.sort` leaves unspecified. The legacy
  layout takes the cards in the order given.
- The legacy card's `onEditClose`. It reads every field's element without checking it
  exists, and fails when one is missing. `CardComponent.Card.OnEditClose` covers the case
  where every element exists.
- The legacy handlers mutate the rendered record before dispatching. The data they
  dispatch equals that of the current handlers (`HandlerAction`). The aliasing with the
  render-time copy is not modelled.
- get_form_extra_data and errors.as_json of `to_json`, and `form[field].value()`. These
  are Django queries and are parameters of `BoundForm`. The legacy link lookup is reduced
  to an optional title.
- EditHandlers.ProcessPostData: a blob whose `forms` or `fields` is not a list or object,
  or a delete or order value that is not a list. Python would iterate over strings or
  dict keys, or raise TypeError; the model reports `Malformed` for all of these.
- EditHandlers.PyStr: `str()` of floats, booleans and None in the delete list. The model
  reports `Malformed` for ids that are not integers or strings; the widget only ever
  sends integer ids.
- The error paths of the browser code. These become requires.
  - `Object.keys(undefined)` in `getClassNames` crashes; it becomes `form.errors.Some?`.
  - MOVE_FORM of a missing record crashes at `movedForm.hasChanged`; `Addresses` excludes it.
  - Reducer.Reduce: SET_FORM past the end of the table is excluded by `Addresses` too, although
    the source accepts it: the array grows, and `JSON.stringify` writes the holes as `null`.
    Every caller passes the id of a rendered record, so the widget never does this.
- Panel.Publish: the TOTAL_FORMS subscriber is registered after the initial SET_STATE
  dispatch, in both the current and the legacy panel. That first dispatch does not write
  TOTAL_FORMS, so the page's own value stays until the next change. `Publish` (and
  `LegacyPanel.Publish`) writes all three fields after every change.
- CardComponent.Card.RenderActions: the `customiseActions` hook is modelled as a pure
  function from the record and the buttons to the new buttons. The source hook receives all
  of the card's props and edits the `actions` array in place; aliasing and props other
  than the record are not modelled.
- A field holding null. `Form.fields` maps names to strings, as the type of the browser's
  records says. `to_json` sends `form[field].value()`, which is `None` for an empty
  nullable field; the template then shows an empty, unescaped header. The model cannot
  express a present field holding null, so `SelectValue` never yields `None` for a field
  that is present.
- Integer width. Positions and ids are unbounded integers. JavaScript's doubles are exact
  far beyond any formset size.

## Findings

`CardSet.Render` and `CardSet.InitGaps` model the numbering as written. The corrected
numbering and what it guarantees are stated by the `CardSet.Corrected…` members.

| source | as written | input that shows it | evidently intended | confidence | as-written member | corrected member |
|---|---|---|---|---|---|---|
| condensedinlinepanel/static/condensedinlinepanel/src/components/CardSet.tsx:33-62 | `initGaps` numbers the gaps 1..k+1 over the live cards only, while MOVE_FORM positions count deleted records too | records A (deleted, position 1), B (2), C (3): the gap directly above C is numbered 2, and dropping C there moves it above B | the gap above a card carries that card's position, so a drop lands directly above the card and a drop on a card's own gap changes nothing | not executed | CardSet.OwnGapDropReordersAfterDelete | CardSet.CorrectedGapNumbers |
| condensedinlinepanel/static/condensedinlinepanel/src/condensedinlinepanel.tsx:30-31 | `options['canEdit'] \|\| true` is always true, and so is `canDelete`; the legacy `init` has the same lines (condensedinlinepanel.jsx:581-582) | options `{canEdit: false, canDelete: false}` still give a panel with edit and delete buttons | an explicit `false` switches editing (and by default deleting) off | not executed | Panel.ExplicitFalseIgnored | Panel.ResolveOptionsIntended |

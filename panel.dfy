/** The panel's entry point: option defaults, the initial state and the hidden fields that
    the store's subscribers keep up to date for submission. */
module Panel {
  import opened Wrappers
  import opened Types
  import opened Reducer
  import opened Strings

  /** The options a page passes to `init`; an absent option is `None`. */
  datatype Options = Options(
    canEdit: Option<bool>,
    canDelete: Option<bool>,
    canOrder: Option<bool>,
    panelLabel: Option<string>)

  /** The options after the defaults are applied. */
  datatype Settings = Settings(canEdit: bool, canDelete: bool, canOrder: bool, panelLabel: string)

  /** JavaScript's `x || d` for an optional boolean: `x` when it is true, `d` otherwise. */
  function OrBool(x: Option<bool>, d: bool): bool {
    if x == Some(true) then true else d
  }

  /** The defaults as written: editing and deleting are always on, ordering is on only when
      asked for, and an absent or empty label reads "Add". */
  function ResolveOptions(options: Options): (settings: Settings)
    ensures settings.canEdit && settings.canDelete
    ensures settings.canOrder <==> options.canOrder == Some(true)
    ensures options.panelLabel.None? || options.panelLabel == Some("") ==> settings.panelLabel == "Add"
    ensures options.panelLabel.Some? && options.panelLabel != Some("") ==> settings.panelLabel == options.panelLabel.value
  {
    var canEdit := OrBool(options.canEdit, true);
    var canDelete := OrBool(options.canDelete, canEdit);
    var canOrder := OrBool(options.canOrder, false);
    var panelLabel := if options.panelLabel.Some? && options.panelLabel.value != "" then options.panelLabel.value else "Add";
    Settings(canEdit, canDelete, canOrder, panelLabel)
  }

  /** As written, `canEdit: false` and `canDelete: false` are ignored. */
  lemma ExplicitFalseIgnored()
    ensures var settings := ResolveOptions(Options(Some(false), Some(false), None, None));
      settings.canEdit && settings.canDelete
  {
  }

  /** The defaults as evidently intended: an option given explicitly is used as it is,
      editing defaults to on and deleting to whatever editing is. */
  function ResolveOptionsIntended(options: Options): (settings: Settings)
    ensures options.canEdit.Some? ==> settings.canEdit == options.canEdit.value
    ensures options.canEdit.None? ==> settings.canEdit
    ensures settings.canDelete == (if options.canDelete.Some? then options.canDelete.value else settings.canEdit)
    ensures settings.canOrder == ResolveOptions(options).canOrder
    ensures settings.panelLabel == ResolveOptions(options).panelLabel
  {
    var canEdit := options.canEdit.GetOr(true);
    var canDelete := options.canDelete.GetOr(canEdit);
    ResolveOptions(options).(canEdit := canEdit, canDelete := canDelete)
  }

  /** The two differ only when a page switches editing or deleting off. */
  lemma ResolveOptionsAgreeUnlessSwitchedOff(options: Options)
    requires options.canEdit != Some(false) && options.canDelete != Some(false)
    ensures ResolveOptionsIntended(options) == ResolveOptions(options)
  {
  }

  /** A running panel: its settings and the store's state (null until SET_STATE). */
  datatype Panel = Panel(settings: Settings, store: Option<State>)

  /** `init`: nothing happens when the root element is missing; otherwise the store starts
      empty and takes the data field's state, when the page has one, through SET_STATE. */
  function Init(rootPresent: bool, options: Options, dataField: Option<State>): (panel: Option<Panel>)
    ensures panel.None? <==> !rootPresent
    ensures panel.Some? ==> panel.value.settings == ResolveOptions(options) && panel.value.store == dataField
  {
    if !rootPresent then None
    else
      var store := if dataField.Some? then Reduced(None, SetState(dataField.value)) else None;
      Some(Panel(ResolveOptions(options), store))
  }

  // ---------------------------------------------------------------------------
  // Hidden fields

  /** The positions of the records, indexed by id. */
  function Positions(forms: seq<Form>): (positions: seq<int>)
    ensures |positions| == |forms|
  {
    seq(|forms|, i requires 0 <= i < |forms| => forms[i].position)
  }

  /** The sort-order subscriber's loop. */
  method SortOrders(forms: seq<Form>) returns (sortOrders: seq<int>)
    ensures sortOrders == Positions(forms)
  {
    sortOrders := [];
    for i := 0 to |forms|
      invariant sortOrders == Positions(forms[..i])
    {
      sortOrders := sortOrders + [forms[i].position];
    }
    assert forms[..|forms|] == forms;
  }

  /** On a valid state the sort-order value lists each of the positions base..base+n-1
      once. */
  lemma PositionsArePermutation(s: State, base: int)
    requires Valid(s, base)
    ensures var positions := Positions(s.forms);
      && (forall i, j :: 0 <= i < j < |positions| ==> positions[i] != positions[j])
      && (forall p :: p in positions <==> base <= p < base + |s.forms|)
  {
    DensePositionsCoverRange(s.forms, base);
    RangeFacts(base, |s.forms|);
    var positions := Positions(s.forms);
    forall p | base <= p < base + |s.forms|
      ensures p in positions
    {
      assert p in PositionSet(s.forms);
      var i :| 0 <= i < |s.forms| && s.forms[i].position == p;
      assert positions[i] == p;
    }
  }

  /** The ids of the deleted records, in array order. */
  function DeletedIdsOf(forms: seq<Form>): seq<nat>
    decreases |forms|
  {
    if forms == [] then []
    else
      var last := forms[|forms| - 1];
      DeletedIdsOf(forms[..|forms| - 1]) + (if last.isDeleted then [last.id] else [])
  }

  /** The delete subscriber's loop. */
  method DeletedIds(forms: seq<Form>) returns (deletedForms: seq<nat>)
    ensures deletedForms == DeletedIdsOf(forms)
  {
    deletedForms := [];
    for i := 0 to |forms|
      invariant deletedForms == DeletedIdsOf(forms[..i])
    {
      assert forms[..i + 1][..i] == forms[..i];
      if forms[i].isDeleted {
        deletedForms := deletedForms + [forms[i].id];
      }
    }
    assert forms[..|forms|] == forms;
  }

  /** When ids are indices the delete value holds exactly the deleted records' ids, in
      increasing order. */
  lemma {:induction false} DeletedIdsExact(forms: seq<Form>)
    requires IdsAreIndices(forms)
    ensures var ids := DeletedIdsOf(forms);
      && (forall k: nat :: k in ids <==> k < |forms| && forms[k].isDeleted)
      && (forall i, j :: 0 <= i < j < |ids| ==> ids[i] < ids[j])
    decreases |forms|
  {
    if forms != [] {
      var init, last := forms[..|forms| - 1], forms[|forms| - 1];
      DeletedIdsExact(init);
      var head := DeletedIdsOf(init);
      forall i | 0 <= i < |head|
        ensures head[i] < |init|
      {
        assert head[i] in head;
      }
      assert last.id == |init|;
      assert forall k: nat :: k < |init| ==> forms[k] == init[k];
    }
  }

  /** TOTAL_FORMS: the number of records, deleted ones included, in decimal. */
  function TotalForms(forms: seq<Form>): (value: string)
    ensures AllDigits(value) && ParseNat(value) == |forms|
  {
    ParseNatToString(|forms|);
    NatToString(|forms|)
  }

  /** What the subscribers write after a store change: the sort order (only when ordering
      is on), the deleted ids and the total; a null state reads as the empty state. */
  datatype HiddenFields = HiddenFields(sortOrder: Option<seq<int>>, deleted: seq<nat>, totalForms: string)

  method Publish(settings: Settings, store: Option<State>) returns (fields: HiddenFields)
    ensures var forms := store.GetOr(EmptyState()).forms;
      && (fields.sortOrder.Some? <==> settings.canOrder)
      && (settings.canOrder ==> fields.sortOrder.value == Positions(forms))
      && fields.deleted == DeletedIdsOf(forms)
      && AllDigits(fields.totalForms) && ParseNat(fields.totalForms) == |forms|
  {
    var state := store.GetOr(EmptyState());
    var sortOrder := None;
    if settings.canOrder {
      var sortOrders := SortOrders(state.forms);
      sortOrder := Some(sortOrders);
    }
    var deletedForms := DeletedIds(state.forms);
    fields := HiddenFields(sortOrder, deletedForms, TotalForms(state.forms));
  }
}

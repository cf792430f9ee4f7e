/** The earlier single-file client (`condensedinlinepanel.jsx`) where it differs from the
    current one: 0-based positions, one flat gap between every two cards (deleted ones
    included), an add handler that appends at position n, and subscribers without the
    null-state fallback. Its reducer, card decisions and card handlers behave as the
    current ones and are modelled by the same members. */
module LegacyPanel {
  import opened Wrappers
  import opened Types
  import opened Reducer
  import opened Strings
  import Panel

  /** An entry of the legacy card list: a gap (a drop target and add button) or a card. */
  datatype LegacyItem = LGap(position: int) | LCard(form: Form)

  /** `initGaps`: a gap numbered 0 on top, then each card followed by the next gap; so
      the gaps carry exactly the numbers 0..k, each a target MOVE_FORM keeps valid when
      every record is shown. */
  method InitGaps(cards: seq<Form>) returns (newForms: seq<LegacyItem>)
    ensures |newForms| == 2 * |cards| + 1
    ensures forall m :: 0 <= m < |newForms| ==>
      newForms[m] == if m % 2 == 0 then LGap(m / 2) else LCard(cards[m / 2])
    ensures forall m :: 0 <= m < |newForms| && newForms[m].LGap? ==> 0 <= newForms[m].position <= |cards|
  {
    var positionId := 0;
    newForms := [];

    // Add the top gap
    newForms := newForms + [LGap(positionId)];
    positionId := positionId + 1;

    for i := 0 to |cards|
      invariant positionId == i + 1
      invariant |newForms| == 2 * i + 1
      invariant forall m :: 0 <= m < |newForms| ==>
        newForms[m] == if m % 2 == 0 then LGap(m / 2) else LCard(cards[m / 2])
    {
      newForms := newForms + [LCard(cards[i])];

      // Add a gap
      newForms := newForms + [LGap(positionId)];
      positionId := positionId + 1;
    }
  }

  /** The record the legacy `onAdd` creates: new, changed and open for editing, with the
      template's field values, at position n (the end of a 0-based list). */
  function NewForm(forms: seq<Form>, emptyForm: Form): Form {
    Form(|forms|, None, true, true, false, true, |forms|, false, emptyForm.fields, map[], Some(map[]), None)
  }

  function AddActions(forms: seq<Form>, emptyForm: Form, position: int): seq<Action> {
    [AddForm(NewForm(forms, emptyForm)), MoveForm(|forms|, position)]
  }

  /** On 0-based positions 0..n-1, appending at position n gives 0..n, and the move then
      puts the new record at gap `position` of 0..n, directly above the record that was
      there, keeping the others' order. */
  lemma AddActionsInsert(s: State, position: int)
    requires Valid(s, 0) && 0 <= position <= |s.forms|
    ensures AdmissibleRun(Some(s), AddActions(s.forms, s.emptyForm, position), 0)
    ensures var r := Replay(Some(s), AddActions(s.forms, s.emptyForm, position), 0);
      var n := |s.forms|;
      && r.Some? && Valid(r.value, 0) && |r.value.forms| == n + 1
      && r.value.forms[n].position == position
      && r.value.forms[n].isNew && r.value.forms[n].isEditing && r.value.forms[n].hasChanged
      && r.value.forms[n].fields == s.emptyForm.fields
      && (forall x :: 0 <= x < n && s.forms[x].position == position ==>
            r.value.forms[n].position + 1 == r.value.forms[x].position)
      && (forall x, y :: 0 <= x < n && 0 <= y < n ==>
            (s.forms[x].position < s.forms[y].position <==> r.value.forms[x].position < r.value.forms[y].position))
  {
    AddThenMove(s, NewForm(s.forms, s.emptyForm), position, 0);
  }

  /** The top add button (`onAdd(0)`) puts the new record first. */
  lemma TopAddPutsFirst(s: State)
    requires Valid(s, 0)
    ensures AdmissibleRun(Some(s), AddActions(s.forms, s.emptyForm, 0), 0)
    ensures var r := Replay(Some(s), AddActions(s.forms, s.emptyForm, 0), 0);
      && r.Some? && |r.value.forms| == |s.forms| + 1
      && forall x :: 0 <= x < |s.forms| ==> r.value.forms[|s.forms|].position < r.value.forms[x].position
  {
    AddActionsInsert(s, 0);
    var r := Replay(Some(s), AddActions(s.forms, s.emptyForm, 0), 0).value;
    forall x | 0 <= x < |s.forms|
      ensures r.forms[|s.forms|].position < r.forms[x].position
    {
      assert r.forms[x].position in PositionSet(r.forms);
      DensePositionsCoverRange(r.forms, 0);
      RangeFacts(0, |r.forms|);
      assert r.forms[x].position != r.forms[|s.forms|].position;
    }
  }

  /** The legacy subscribers: the state is parsed without a fallback (the first dispatch
      is SET_STATE, so it is never null when they run); the sort order only when ordering
      is on; TOTAL_FORMS is the record count. */
  method Publish(settings: Panel.Settings, state: State) returns (fields: Panel.HiddenFields)
    ensures fields.sortOrder.Some? <==> settings.canOrder
    ensures settings.canOrder ==> fields.sortOrder.value == Panel.Positions(state.forms)
    ensures fields.deleted == Panel.DeletedIdsOf(state.forms)
    ensures AllDigits(fields.totalForms) && ParseNat(fields.totalForms) == |state.forms|
  {
    var sortOrder := None;
    if settings.canOrder {
      var sortOrders := Panel.SortOrders(state.forms);
      sortOrder := Some(sortOrders);
    }
    var deletedForms := Panel.DeletedIds(state.forms);
    fields := Panel.HiddenFields(sortOrder, deletedForms, Panel.TotalForms(state.forms));
  }

  /** On a valid legacy state the sort-order value is a permutation of 0..n-1. */
  lemma SortOrderIsPermutation(s: State)
    requires Valid(s, 0)
    ensures var positions := Panel.Positions(s.forms);
      && (forall i, j :: 0 <= i < j < |positions| ==> positions[i] != positions[j])
      && (forall p :: p in positions <==> 0 <= p < |s.forms|)
  {
    Panel.PositionsArePermutation(s, 0);
  }
}

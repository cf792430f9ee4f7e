/** The reducer of the panel's store (`src/state.ts`).

    The older `state.ts` and the reducer at the top of `condensedinlinepanel.jsx` are the
    same code; the only difference between the clients is whether positions start at 1 or
    at 0, so the invariants below take the first position `base` as a parameter.
    The reducer works on a fresh copy of the state (it parses the stored JSON text);
    here the state is a value, so that copy is simply the local variable. */
module Reducer {
  import opened Wrappers
  import opened Types

  /** The four actions. A move carries only the record and the target gap. */
  datatype Action =
    | SetState(state: State)
    | SetForm(formId: nat, data: Form)
    | AddForm(data: Form)
    | MoveForm(formId: nat, position: int)

  /** `emptyState()`: the placeholder used until the real state has been loaded. */
  function EmptyState(): (s: State)
    ensures s.forms == []
    ensures s.emptyForm.id == 0 && s.emptyForm.position == 1
    ensures !s.emptyForm.isEditing && !s.emptyForm.isNew && !s.emptyForm.isDeleted && !s.emptyForm.hasChanged
    ensures s.emptyForm.fields == map[] && s.emptyForm.extra == map[] && s.emptyForm.errors == Some(map[])
  {
    State([], Form(0, None, false, false, false, false, 1, false, map[], map[], Some(map[]), None))
  }

  // ---------------------------------------------------------------------------
  // Invariants of the collection

  /** Every record's id is its index in the table. */
  predicate IdsAreIndices(forms: seq<Form>) {
    forall i :: 0 <= i < |forms| ==> forms[i].id == i
  }

  /** No two records share a position. */
  predicate DistinctPositions(forms: seq<Form>) {
    forall i, j :: 0 <= i < j < |forms| ==> forms[i].position != forms[j].position
  }

  /** The positions of all records, deleted ones included, are a permutation of
      base, base + 1, ..., base + |forms| - 1. */
  predicate DensePositions(forms: seq<Form>, base: int) {
    && (forall i :: 0 <= i < |forms| ==> base <= forms[i].position < base + |forms|)
    && DistinctPositions(forms)
  }

  predicate Valid(s: State, base: int) {
    IdsAreIndices(s.forms) && DensePositions(s.forms, base)
  }

  // ---------------------------------------------------------------------------
  // MOVE_FORM

  /** The gap indices count the moving record itself, so a gap below the record's
      current position is one too high once the record has been taken out. */
  function TargetPosition(previous: int, requested: int): int {
    if requested > previous then requested - 1 else requested
  }

  /** The new position of a record other than the moved one: first close the hole left
      at `previous`, then open one at `target`. */
  function ShiftedPosition(position: int, previous: int, target: int): int {
    var closed := if position >= previous then position - 1 else position;
    if closed >= target then closed + 1 else closed
  }

  /** The table after moving record `formId` to gap `requested`. */
  function MovedForms(forms: seq<Form>, formId: nat, requested: int): seq<Form>
    requires formId < |forms|
  {
    var previous := forms[formId].position;
    var target := TargetPosition(previous, requested);
    seq(|forms|, i requires 0 <= i < |forms| =>
      if i == formId then forms[i].(position := target, hasChanged := true)
      else forms[i].(position := ShiftedPosition(forms[i].position, previous, target)))
  }

  /** The in-place pass of MOVE_FORM over the copied table. */
  method RepositionForms(forms: seq<Form>, formId: nat, requested: int) returns (r: seq<Form>)
    requires formId < |forms|
    ensures r == MovedForms(forms, formId, requested)
  {
    r := forms;
    var movedForm := r[formId].(hasChanged := true);
    var previous := movedForm.position;
    var target := requested;
    if target > previous {
      target := target - 1;
    }
    r := r[formId := movedForm.(position := target)];

    ghost var spec := MovedForms(forms, formId, requested);
    for i := 0 to |r|
      invariant |r| == |forms|
      invariant r[formId] == spec[formId]
      invariant forall k :: 0 <= k < i && k != formId ==> r[k] == spec[k]
      invariant forall k :: i <= k < |r| && k != formId ==> r[k] == forms[k]
    {
      if i == formId {
        continue;
      }
      var form := r[i];
      if form.position >= previous {
        form := form.(position := form.position - 1);
      }
      if form.position >= target {
        form := form.(position := form.position + 1);
      }
      r := r[i := form];
    }
  }

  // ---------------------------------------------------------------------------
  // The reducer

  /** The record an action names exists. MOVE_FORM reads `forms[formId]` without a check
      and crashes on a missing record; SET_FORM past the end would grow the array with
      holes, which is excluded here as well. Callers only name records of the state. */
  predicate Addresses(state: Option<State>, action: Action) {
    state.Some? ==>
      match action
      case SetForm(id, _) => id < |state.value.forms|
      case MoveForm(id, _) => id < |state.value.forms|
      case _ => true
  }

  /** The next state, as a value. */
  function Reduced(state: Option<State>, action: Action): Option<State>
    requires Addresses(state, action)
  {
    if action.SetState? then Some(action.state)
    else if state.None? then None
    else if action.SetForm? then
      Some(state.value.(forms := state.value.forms[action.formId := action.data]))
    else if action.AddForm? then
      Some(state.value.(forms := state.value.forms + [action.data]))
    else
      Some(state.value.(forms := MovedForms(state.value.forms, action.formId, action.position)))
  }

  /** `reducer(state, action)`. */
  method Reduce(state: Option<State>, action: Action) returns (r: Option<State>)
    requires Addresses(state, action)
    ensures r == Reduced(state, action)
    ensures action.SetState? ==> r == Some(action.state)
    ensures !action.SetState? ==> (r.None? <==> state.None?)
    ensures !action.SetState? && r.Some? ==> r.value.emptyForm == state.value.emptyForm
  {
    if action.SetState? {
      return Some(action.state);
    } else if state.None? {
      // Ignore everything until the initial state has arrived.
      return None;
    }
    var deserializedState := state.value;
    var forms := deserializedState.forms;
    match action {
      case SetForm(formId, data) =>
        forms := forms[formId := data];
      case AddForm(data) =>
        forms := forms + [data];
      case MoveForm(formId, position) =>
        forms := RepositionForms(forms, formId, position);
    }
    r := Some(deserializedState.(forms := forms));
  }

  // ---------------------------------------------------------------------------
  // What each action does

  /** SET_FORM replaces exactly one record and nothing else. */
  lemma SetFormReplacesOne(s: State, formId: nat, data: Form)
    requires formId < |s.forms|
    ensures var r := Reduced(Some(s), SetForm(formId, data)).value;
      && |r.forms| == |s.forms| && r.emptyForm == s.emptyForm
      && r.forms[formId] == data
      && forall i :: 0 <= i < |s.forms| && i != formId ==> r.forms[i] == s.forms[i]
  {
  }

  /** ADD_FORM appends: one more record, the old ones untouched. */
  lemma AddFormAppends(s: State, data: Form)
    ensures var r := Reduced(Some(s), AddForm(data)).value;
      && |r.forms| == |s.forms| + 1 && r.emptyForm == s.emptyForm
      && r.forms[|s.forms|] == data
      && r.forms[..|s.forms|] == s.forms
  {
  }

  /** MOVE_FORM sets the moved record's position to the adjusted target and marks it
      changed; on every other record only the position may change. */
  lemma MoveFormEffect(forms: seq<Form>, formId: nat, requested: int)
    requires formId < |forms|
    ensures var r := MovedForms(forms, formId, requested);
      var previous := forms[formId].position;
      && |r| == |forms|
      && r[formId].position == (if requested > previous then requested - 1 else requested)
      && r[formId].hasChanged
      && r[formId].(position := previous, hasChanged := forms[formId].hasChanged) == forms[formId]
      && forall i :: 0 <= i < |forms| && i != formId ==> r[i].(position := forms[i].position) == forms[i]
  {
  }

  /** ShiftedPosition is strictly increasing on every position other than the vacated one. */
  lemma ShiftedPositionMonotone(p: int, q: int, previous: int, target: int)
    requires p < q && p != previous && q != previous
    ensures ShiftedPosition(p, previous, target) < ShiftedPosition(q, previous, target)
  {
  }

  /** MOVE_FORM keeps the relative order of every two records other than the moved one. */
  lemma {:induction false} MoveKeepsRelativeOrder(forms: seq<Form>, formId: nat, requested: int)
    requires formId < |forms| && DistinctPositions(forms)
    ensures var r := MovedForms(forms, formId, requested);
      forall i, j :: 0 <= i < |forms| && 0 <= j < |forms| && i != formId && j != formId ==>
        (forms[i].position < forms[j].position <==> r[i].position < r[j].position)
  {
    var r := MovedForms(forms, formId, requested);
    var previous := forms[formId].position;
    var target := TargetPosition(previous, requested);
    forall i, j | 0 <= i < |forms| && 0 <= j < |forms| && i != formId && j != formId
      ensures forms[i].position < forms[j].position <==> r[i].position < r[j].position
    {
      assert forms[i].position != previous && forms[j].position != previous by {
        assert i < formId ==> forms[i].position != forms[formId].position;
        assert i > formId ==> forms[formId].position != forms[i].position;
        assert j < formId ==> forms[j].position != forms[formId].position;
        assert j > formId ==> forms[formId].position != forms[j].position;
      }
      if forms[i].position < forms[j].position {
        ShiftedPositionMonotone(forms[i].position, forms[j].position, previous, target);
      } else if forms[j].position < forms[i].position {
        ShiftedPositionMonotone(forms[j].position, forms[i].position, previous, target);
      }
    }
  }

  /** Dropping a record into either gap next to itself changes no position. */
  lemma {:induction false} MoveToOwnGapIsNoOp(forms: seq<Form>, formId: nat, requested: int)
    requires formId < |forms| && DistinctPositions(forms)
    requires requested == forms[formId].position || requested == forms[formId].position + 1
    ensures var r := MovedForms(forms, formId, requested);
      forall i :: 0 <= i < |forms| ==> r[i].position == forms[i].position
  {
    var r := MovedForms(forms, formId, requested);
    forall i | 0 <= i < |forms| && i != formId
      ensures r[i].position == forms[i].position
    {
      assert i < formId ==> forms[i].position != forms[formId].position;
      assert i > formId ==> forms[formId].position != forms[i].position;
    }
  }

  /** Dropping on the gap numbered by another record's position puts the moved record
      immediately before it. */
  lemma {:induction false} MoveLandsBefore(forms: seq<Form>, formId: nat, other: nat)
    requires formId < |forms| && other < |forms| && other != formId && DistinctPositions(forms)
    ensures var r := MovedForms(forms, formId, forms[other].position);
      r[formId].position + 1 == r[other].position
  {
    assert other < formId ==> forms[other].position != forms[formId].position;
    assert other > formId ==> forms[formId].position != forms[other].position;
  }

  /** Dropping on the gap just past another record's position puts the moved record
      immediately after it. */
  lemma {:induction false} MoveLandsAfter(forms: seq<Form>, formId: nat, other: nat)
    requires formId < |forms| && other < |forms| && other != formId && DistinctPositions(forms)
    ensures var r := MovedForms(forms, formId, forms[other].position + 1);
      r[other].position + 1 == r[formId].position
  {
    assert other < formId ==> forms[other].position != forms[formId].position;
    assert other > formId ==> forms[formId].position != forms[other].position;
  }

  /** MOVE_FORM to any gap base..base+n keeps the positions a permutation of base..base+n-1. */
  lemma {:induction false} MoveKeepsDensePositions(forms: seq<Form>, formId: nat, requested: int, base: int)
    requires formId < |forms| && DensePositions(forms, base)
    requires base <= requested <= base + |forms|
    ensures DensePositions(MovedForms(forms, formId, requested), base)
  {
    var r := MovedForms(forms, formId, requested);
    var previous := forms[formId].position;
    var target := TargetPosition(previous, requested);
    assert base <= target < base + |forms|;
    forall i | 0 <= i < |forms| && i != formId
      ensures forms[i].position != previous
    {
      assert i < formId ==> forms[i].position != forms[formId].position;
      assert i > formId ==> forms[formId].position != forms[i].position;
    }
    forall i, j | 0 <= i < j < |forms|
      ensures r[i].position != r[j].position
    {
      if i != formId && j != formId {
        if forms[i].position < forms[j].position {
          ShiftedPositionMonotone(forms[i].position, forms[j].position, previous, target);
        } else {
          ShiftedPositionMonotone(forms[j].position, forms[i].position, previous, target);
        }
      }
    }
  }

  // ---------------------------------------------------------------------------
  // Density means every position is taken

  /** The integers lo, lo + 1, ..., lo + n - 1. */
  function Range(lo: int, n: nat): set<int>
    decreases n
  {
    if n == 0 then {} else Range(lo, n - 1) + {lo + n - 1}
  }

  lemma {:induction false} RangeFacts(lo: int, n: nat)
    ensures |Range(lo, n)| == n
    ensures forall p :: p in Range(lo, n) <==> lo <= p < lo + n
    decreases n
  {
    if n > 0 {
      RangeFacts(lo, n - 1);
    }
  }

  /** The positions in use. */
  function PositionSet(forms: seq<Form>): set<int> {
    set i | 0 <= i < |forms| :: forms[i].position
  }

  lemma PositionSetConcat(a: seq<Form>, b: seq<Form>)
    ensures PositionSet(a + b) == PositionSet(a) + PositionSet(b)
  {
    var ab := a + b;
    forall p | p in PositionSet(a + b)
      ensures p in PositionSet(a) + PositionSet(b)
    {
      var i :| 0 <= i < |ab| && ab[i].position == p;
      if i >= |a| {
        assert b[i - |a|].position == p;
      }
    }
    forall p | p in PositionSet(a)
      ensures p in PositionSet(a + b)
    {
      var i :| 0 <= i < |a| && a[i].position == p;
      assert ab[i] == a[i];
    }
    forall p | p in PositionSet(b)
      ensures p in PositionSet(a + b)
    {
      var i :| 0 <= i < |b| && b[i].position == p;
      assert ab[|a| + i] == b[i];
    }
  }

  lemma {:induction false} PositionSetCardinality(forms: seq<Form>)
    requires DistinctPositions(forms)
    ensures |PositionSet(forms)| == |forms|
    decreases |forms|
  {
    if forms != [] {
      var init := forms[..|forms| - 1];
      PositionSetCardinality(init);
      assert PositionSet(forms) == PositionSet(init) + {forms[|forms| - 1].position};
      assert forms[|forms| - 1].position !in PositionSet(init);
    }
  }

  /** With dense positions every value base..base+n-1 is some record's position: no gaps. */
  lemma DensePositionsCoverRange(forms: seq<Form>, base: int)
    requires DensePositions(forms, base)
    ensures PositionSet(forms) == Range(base, |forms|)
  {
    var range := Range(base, |forms|);
    RangeFacts(base, |forms|);
    PositionSetCardinality(forms);
    assert PositionSet(forms) <= range;
    assert |range - PositionSet(forms)| == |range| - |PositionSet(forms)| == 0;
  }

  // ---------------------------------------------------------------------------
  // Runs of actions, as the widget dispatches them

  /** The actions the widget dispatches on a valid state: a complete valid state, a
      replacement record keeping id and position, an appended record carrying the next id
      and the next free position, a move to one of the gaps base..base+n. */
  predicate Admissible(state: Option<State>, action: Action, base: int) {
    match action
    case SetState(v) => Valid(v, base)
    case SetForm(id, data) =>
      state.Some? ==> id < |state.value.forms| && data.id == id && data.position == state.value.forms[id].position
    case AddForm(data) =>
      state.Some? ==> data.id == |state.value.forms| && data.position == base + |state.value.forms|
    case MoveForm(id, target) =>
      state.Some? ==> id < |state.value.forms| && base <= target <= base + |state.value.forms|
  }

  predicate AdmissibleRun(state: Option<State>, actions: seq<Action>, base: int)
    decreases |actions|
  {
    actions == [] ||
    (Admissible(state, actions[0], base) && Addresses(state, actions[0]) &&
     AdmissibleRun(Reduced(state, actions[0]), actions[1..], base))
  }

  /** The state after dispatching `actions` in order. */
  function Replay(state: Option<State>, actions: seq<Action>, base: int): Option<State>
    requires AdmissibleRun(state, actions, base)
    decreases |actions|
  {
    if actions == [] then state else Replay(Reduced(state, actions[0]), actions[1..], base)
  }

  /** One admissible action keeps ids equal to indices and positions dense. */
  lemma {:induction false} AdmissibleKeepsValid(state: Option<State>, action: Action, base: int)
    requires Admissible(state, action, base) && Addresses(state, action)
    requires state.Some? ==> Valid(state.value, base)
    ensures Reduced(state, action).Some? ==> Valid(Reduced(state, action).value, base)
  {
    if !action.SetState? && state.Some? {
      var s := state.value;
      match action {
        case SetForm(id, data) =>
          var forms := s.forms[id := data];
          forall i, j | 0 <= i < j < |forms|
            ensures forms[i].position != forms[j].position
          {
            assert forms[i].position == s.forms[i].position;
            assert forms[j].position == s.forms[j].position;
          }
        case AddForm(data) =>
        case MoveForm(id, target) =>
          MoveKeepsDensePositions(s.forms, id, target, base);
      }
    }
  }

  /** Every state reached through admissible actions is valid: after each action, ids are
      indices and the positions of all records are a permutation of base..base+n-1. */
  lemma {:induction false} ReplayKeepsValid(state: Option<State>, actions: seq<Action>, base: int)
    requires AdmissibleRun(state, actions, base)
    requires state.Some? ==> Valid(state.value, base)
    ensures Replay(state, actions, base).Some? ==> Valid(Replay(state, actions, base).value, base)
    decreases |actions|
  {
    if actions != [] {
      AdmissibleKeepsValid(state, actions[0], base);
      ReplayKeepsValid(Reduced(state, actions[0]), actions[1..], base);
    }
  }

  /** ADD_FORM of a record at the end followed by MOVE_FORM of that record to gap
      `position`, the pair of actions behind every add button. The state stays valid with
      one more record; the new record sits at `position`, directly above the record that
      was there, and on the old records only the positions change, in the same order. */
  lemma AddThenMove(s: State, data: Form, position: int, base: int)
    requires Valid(s, base) && data.id == |s.forms| && data.position == base + |s.forms|
    requires base <= position <= base + |s.forms|
    ensures AdmissibleRun(Some(s), [AddForm(data), MoveForm(|s.forms|, position)], base)
    ensures var r := Replay(Some(s), [AddForm(data), MoveForm(|s.forms|, position)], base);
      var n := |s.forms|;
      && r.Some? && Valid(r.value, base) && |r.value.forms| == n + 1 && r.value.emptyForm == s.emptyForm
      && r.value.forms[n] == data.(position := position, hasChanged := true)
      && (forall x :: 0 <= x < n && s.forms[x].position == position ==>
            r.value.forms[n].position + 1 == r.value.forms[x].position)
      && (forall x :: 0 <= x < n ==> r.value.forms[x].(position := s.forms[x].position) == s.forms[x])
      && (forall x, y :: 0 <= x < n && 0 <= y < n ==>
            (s.forms[x].position < s.forms[y].position <==> r.value.forms[x].position < r.value.forms[y].position))
  {
    var n := |s.forms|;
    var actions := [AddForm(data), MoveForm(n, position)];
    var added := Reduced(Some(s), actions[0]);
    AdmissibleKeepsValid(Some(s), actions[0], base);
    var forms := added.value.forms;
    assert forms == s.forms + [data];
    assert actions[1..] == [actions[1]] && actions[1..][1..] == [];
    AdmissibleKeepsValid(added, actions[1], base);
    var moved := Reduced(added, actions[1]);
    assert AdmissibleRun(moved, [], base);
    assert AdmissibleRun(added, actions[1..], base);
    assert Replay(added, actions[1..], base) == moved;
    assert Replay(Some(s), actions, base) == moved;
    assert moved.value.forms == MovedForms(forms, n, position);
    MoveFormEffect(forms, n, position);
    MoveKeepsRelativeOrder(forms, n, position);
    forall x | 0 <= x < n && s.forms[x].position == position
      ensures MovedForms(forms, n, position)[n].position + 1 == MovedForms(forms, n, position)[x].position
    {
      MoveLandsBefore(forms, n, x);
    }
  }
}

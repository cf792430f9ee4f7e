/** `CardSet` (`src/components/CardSet.tsx`): the list of cards with insertion gaps between
    them, and the handlers that turn clicks and drops into store actions. */
module CardSet {
  import opened Wrappers
  import opened Types
  import opened Reducer
  import opened Ordering
  import opened Strings
  import opened CardComponent

  // ---------------------------------------------------------------------------
  // Gaps

  /** A regular gap sits directly above a card (or at the very bottom); a last-child gap
      closes a level of nesting when the depth decreases. */
  datatype GapKind = Regular | LastChild

  /** One entry of the rendered list: a drop target and add button, or a card. */
  datatype Item =
    | Gap(position: int, depth: Option<int>, kind: GapKind)
    | CardItem(form: Form)

  /** `a > b` in JavaScript when either side may be `undefined`: false unless both are numbers. */
  predicate Deeper(a: Option<int>, b: Option<int>) {
    a.Some? && b.Some? && a.value > b.value
  }

  /** The last-child gaps emitted while `lastDepth` steps down towards `depth`, all at the
      upcoming `position`. */
  function ClosingGaps(lastDepth: Option<int>, depth: Option<int>, position: int): seq<Item>
    decreases if Deeper(lastDepth, depth) then lastDepth.value - depth.value else 0
  {
    if Deeper(lastDepth, depth) then
      [Gap(position, lastDepth, LastChild)] + ClosingGaps(Some(lastDepth.value - 1), depth, position)
    else []
  }

  /** `lastDepth` when card `i` is reached: 1 at the start, then the previous card's depth. */
  function DepthBefore(cards: seq<Form>, i: nat): Option<int>
    requires i <= |cards|
  {
    if i == 0 then Some(1) else cards[i - 1].depth
  }

  /** What the gap pass has emitted after the first `i` cards, with gap `j` (the one above
      card `j`, or the bottom one for j == |cards|) numbered `numbers[j]`. */
  function EmittedBefore(cards: seq<Form>, numbers: seq<int>, i: nat): seq<Item>
    requires |numbers| == |cards| + 1 && i <= |cards|
    decreases i
  {
    if i == 0 then []
    else
      EmittedBefore(cards, numbers, i - 1)
      + ClosingGaps(DepthBefore(cards, i - 1), cards[i - 1].depth, numbers[i - 1])
      + [Gap(numbers[i - 1], cards[i - 1].depth, Regular), CardItem(cards[i - 1])]
  }

  /** The whole gapped list: the cards with their gaps, the gaps closing every open level,
      and the bottom gap at depth 1. */
  function LayoutNumbered(cards: seq<Form>, numbers: seq<int>): seq<Item>
    requires |numbers| == |cards| + 1
  {
    var k := |cards|;
    EmittedBefore(cards, numbers, k) + ClosingGaps(DepthBefore(cards, k), Some(1), numbers[k])
    + [Gap(numbers[k], Some(1), Regular)]
  }

  /** The gap numbers `initGaps` hands out: 1, 2, ..., k + 1. */
  function GapNumbers(k: nat): (numbers: seq<int>)
    ensures |numbers| == k + 1
    ensures forall j :: 0 <= j < |numbers| ==> numbers[j] == j + 1
  {
    seq(k + 1, j => j + 1)
  }

  function Layout(cards: seq<Form>): seq<Item> {
    LayoutNumbered(cards, GapNumbers(|cards|))
  }

  /** `initGaps`: inject the gaps into the list of rendered cards. */
  method InitGaps(cards: seq<Form>) returns (newForms: seq<Item>)
    ensures newForms == Layout(cards)
  {
    ghost var numbers := GapNumbers(|cards|);
    var positionId := 1;
    newForms := [];
    var lastDepth: Option<int> := Some(1);

    for i := 0 to |cards|
      invariant positionId == i + 1
      invariant lastDepth == DepthBefore(cards, i)
      invariant newForms == EmittedBefore(cards, numbers, i)
    {
      var depth := cards[i].depth;

      // An extra gap at the end of each list of children
      ghost var before := newForms;
      while Deeper(lastDepth, depth)
        invariant newForms + ClosingGaps(lastDepth, depth, positionId)
               == before + ClosingGaps(DepthBefore(cards, i), depth, positionId)
        decreases if Deeper(lastDepth, depth) then lastDepth.value - depth.value else 0
      {
        newForms := newForms + [Gap(positionId, lastDepth, LastChild)];
        lastDepth := Some(lastDepth.value - 1);
      }

      newForms := newForms + [Gap(positionId, depth, Regular)];
      positionId := positionId + 1;
      newForms := newForms + [CardItem(cards[i])];
      lastDepth := depth;
    }

    ghost var before := newForms;
    while Deeper(lastDepth, Some(1))
      invariant newForms + ClosingGaps(lastDepth, Some(1), positionId)
             == before + ClosingGaps(DepthBefore(cards, |cards|), Some(1), positionId)
      decreases if Deeper(lastDepth, Some(1)) then lastDepth.value - 1 else 0
    {
      newForms := newForms + [Gap(positionId, lastDepth, LastChild)];
      lastDepth := Some(lastDepth.value - 1);
    }

    // The bottom gap
    newForms := newForms + [Gap(positionId, Some(1), Regular)];
  }

  // ---------------------------------------------------------------------------
  // The shape of the gapped list

  /** When the depth drops from `lastDepth` to `depth`, exactly `lastDepth - depth` gaps are
      emitted, at depths `lastDepth` down to `depth + 1`, all at the same position. */
  lemma {:induction false} ClosingGapsShape(lastDepth: Option<int>, depth: Option<int>, position: int)
    ensures !Deeper(lastDepth, depth) ==> ClosingGaps(lastDepth, depth, position) == []
    ensures Deeper(lastDepth, depth) ==>
      && |ClosingGaps(lastDepth, depth, position)| == lastDepth.value - depth.value
      && forall m :: 0 <= m < |ClosingGaps(lastDepth, depth, position)| ==>
           ClosingGaps(lastDepth, depth, position)[m] == Gap(position, Some(lastDepth.value - m), LastChild)
    decreases if Deeper(lastDepth, depth) then lastDepth.value - depth.value else 0
  {
    if Deeper(lastDepth, depth) {
      var rest := ClosingGaps(Some(lastDepth.value - 1), depth, position);
      ClosingGapsShape(Some(lastDepth.value - 1), depth, position);
      assert ClosingGaps(lastDepth, depth, position) == [Gap(position, lastDepth, LastChild)] + rest;
    }
  }

  predicate IsCard(item: Item) {
    item.CardItem?
  }

  predicate IsRegularGap(item: Item) {
    item.Gap? && item.kind == Regular
  }

  /** The entries of `items` that `keep` selects, in order. */
  function Select(items: seq<Item>, keep: Item -> bool): seq<Item>
    decreases |items|
  {
    if items == [] then []
    else Select(items[..|items| - 1], keep) + (if keep(items[|items| - 1]) then [items[|items| - 1]] else [])
  }

  lemma {:induction false} SelectConcat(a: seq<Item>, b: seq<Item>, keep: Item -> bool)
    ensures Select(a + b, keep) == Select(a, keep) + Select(b, keep)
    decreases |b|
  {
    if b != [] {
      var b0 := b[..|b| - 1];
      assert (a + b)[..|a + b| - 1] == a + b0;
      SelectConcat(a, b0, keep);
    } else {
      assert a + b == a;
    }
  }

  lemma {:induction false} ClosingGapsSelectNothing(lastDepth: Option<int>, depth: Option<int>, position: int)
    ensures Select(ClosingGaps(lastDepth, depth, position), IsCard) == []
    ensures Select(ClosingGaps(lastDepth, depth, position), IsRegularGap) == []
    decreases if Deeper(lastDepth, depth) then lastDepth.value - depth.value else 0
  {
    if Deeper(lastDepth, depth) {
      var g := Gap(position, lastDepth, LastChild);
      var rest := ClosingGaps(Some(lastDepth.value - 1), depth, position);
      ClosingGapsSelectNothing(Some(lastDepth.value - 1), depth, position);
      SelectConcat([g], rest, IsCard);
      SelectConcat([g], rest, IsRegularGap);
      assert [g][..0] == [];
    }
  }

  function AsItems(cards: seq<Form>): seq<Item> {
    seq(|cards|, j requires 0 <= j < |cards| => CardItem(cards[j]))
  }

  /** The regular gap above card `j`, or the bottom gap when j == |cards|. */
  function RegularGap(cards: seq<Form>, numbers: seq<int>, j: nat): Item
    requires |numbers| == |cards| + 1 && j <= |cards|
  {
    Gap(numbers[j], if j < |cards| then cards[j].depth else Some(1), Regular)
  }

  function RegularGaps(cards: seq<Form>, numbers: seq<int>, n: nat): seq<Item>
    requires |numbers| == |cards| + 1 && n <= |cards| + 1
  {
    seq(n, j requires 0 <= j < n => RegularGap(cards, numbers, j))
  }

  lemma SelectPair(g: Item, c: Item)
    requires IsRegularGap(g) && IsCard(c)
    ensures Select([g, c], IsCard) == [c]
    ensures Select([g, c], IsRegularGap) == [g]
  {
    assert [g, c][..1] == [g] && [g][..0] == [];
    assert Select([g][..0], IsRegularGap) == [];
    assert Select([g], IsRegularGap) == Select([g][..0], IsRegularGap) + [g];
    assert Select([g], IsCard) == [] && Select([g], IsRegularGap) == [g];
    assert Select([g, c], IsCard) == Select([g], IsCard) + [c];
    assert Select([g, c], IsRegularGap) == Select([g], IsRegularGap) + [];
  }

  /** The step that card `i - 1` adds to the emitted list, split into its parts. */
  lemma EmittedStep(cards: seq<Form>, numbers: seq<int>, i: nat, keep: Item -> bool)
    requires |numbers| == |cards| + 1 && 0 < i <= |cards|
    requires keep == IsCard || keep == IsRegularGap
    ensures Select(EmittedBefore(cards, numbers, i), keep)
         == Select(EmittedBefore(cards, numbers, i - 1), keep)
          + Select([Gap(numbers[i - 1], cards[i - 1].depth, Regular), CardItem(cards[i - 1])], keep)
  {
    var prev := EmittedBefore(cards, numbers, i - 1);
    var closing := ClosingGaps(DepthBefore(cards, i - 1), cards[i - 1].depth, numbers[i - 1]);
    var pair := [Gap(numbers[i - 1], cards[i - 1].depth, Regular), CardItem(cards[i - 1])];
    ClosingGapsSelectNothing(DepthBefore(cards, i - 1), cards[i - 1].depth, numbers[i - 1]);
    SelectConcat(prev + closing, pair, keep);
    SelectConcat(prev, closing, keep);
  }

  lemma {:induction false} EmittedCards(cards: seq<Form>, numbers: seq<int>, i: nat)
    requires |numbers| == |cards| + 1 && i <= |cards|
    ensures Select(EmittedBefore(cards, numbers, i), IsCard) == AsItems(cards[..i])
    decreases i
  {
    if i > 0 {
      var c := CardItem(cards[i - 1]);
      EmittedCards(cards, numbers, i - 1);
      EmittedStep(cards, numbers, i, IsCard);
      SelectPair(Gap(numbers[i - 1], cards[i - 1].depth, Regular), c);
      assert AsItems(cards[..i]) == AsItems(cards[..i - 1]) + [c];
    }
  }

  lemma {:induction false} EmittedRegularGaps(cards: seq<Form>, numbers: seq<int>, i: nat)
    requires |numbers| == |cards| + 1 && i <= |cards|
    ensures Select(EmittedBefore(cards, numbers, i), IsRegularGap) == RegularGaps(cards, numbers, i)
    decreases i
  {
    if i > 0 {
      var g := Gap(numbers[i - 1], cards[i - 1].depth, Regular);
      EmittedRegularGaps(cards, numbers, i - 1);
      EmittedStep(cards, numbers, i, IsRegularGap);
      SelectPair(g, CardItem(cards[i - 1]));
      assert RegularGaps(cards, numbers, i) == RegularGaps(cards, numbers, i - 1) + [g];
    }
  }

  /** The gapped list holds every card exactly once, in input order, and its regular gaps
      are, in order, the gap above each card (numbered `numbers[j]`, at the card's depth)
      and the bottom gap (numbered `numbers[k]`, at depth 1). */
  lemma LayoutSelections(cards: seq<Form>, numbers: seq<int>)
    requires |numbers| == |cards| + 1
    ensures Select(LayoutNumbered(cards, numbers), IsCard) == AsItems(cards)
    ensures Select(LayoutNumbered(cards, numbers), IsRegularGap) == RegularGaps(cards, numbers, |cards| + 1)
  {
    var k := |cards|;
    var emitted := EmittedBefore(cards, numbers, k);
    var closing := ClosingGaps(DepthBefore(cards, k), Some(1), numbers[k]);
    var bottom := Gap(numbers[k], Some(1), Regular);
    EmittedCards(cards, numbers, k);
    EmittedRegularGaps(cards, numbers, k);
    ClosingGapsSelectNothing(DepthBefore(cards, k), Some(1), numbers[k]);
    SelectConcat(emitted + closing, [bottom], IsCard);
    SelectConcat(emitted, closing, IsCard);
    SelectConcat(emitted + closing, [bottom], IsRegularGap);
    SelectConcat(emitted, closing, IsRegularGap);
    assert [bottom][..0] == [];
    assert cards[..k] == cards;
    assert RegularGaps(cards, numbers, k + 1) == RegularGaps(cards, numbers, k) + [bottom];
  }

  /** What is emitted for the first `i` cards stays a prefix of what follows. */
  lemma {:induction false} EmittedPrefix(cards: seq<Form>, numbers: seq<int>, i: nat, m: nat)
    requires |numbers| == |cards| + 1 && i <= m <= |cards|
    ensures |EmittedBefore(cards, numbers, i)| <= |EmittedBefore(cards, numbers, m)|
    ensures EmittedBefore(cards, numbers, m)[..|EmittedBefore(cards, numbers, i)|] == EmittedBefore(cards, numbers, i)
    decreases m - i
  {
    if i < m {
      EmittedPrefix(cards, numbers, i, m - 1);
    }
  }

  /** Each card is directly preceded by its own regular gap. */
  lemma GapAboveCard(cards: seq<Form>, numbers: seq<int>, j: nat) returns (i: nat)
    requires |numbers| == |cards| + 1 && j < |cards|
    ensures i + 1 < |LayoutNumbered(cards, numbers)|
    ensures LayoutNumbered(cards, numbers)[i] == Gap(numbers[j], cards[j].depth, Regular)
    ensures LayoutNumbered(cards, numbers)[i + 1] == CardItem(cards[j])
  {
    var upTo := EmittedBefore(cards, numbers, j + 1);
    var all := EmittedBefore(cards, numbers, |cards|);
    EmittedPrefix(cards, numbers, j + 1, |cards|);
    i := |upTo| - 2;
    assert upTo[i] == Gap(numbers[j], cards[j].depth, Regular);
    assert all[i] == upTo[i] && all[i + 1] == upTo[i + 1];
  }

  /** Every gap is numbered with a value of `numbers`' range. */
  predicate GapsWithin(items: seq<Item>, lo: int, hi: int) {
    forall m :: 0 <= m < |items| && items[m].Gap? ==> lo <= items[m].position <= hi
  }

  lemma GapsWithinConcat(a: seq<Item>, b: seq<Item>, lo: int, hi: int)
    requires GapsWithin(a, lo, hi) && GapsWithin(b, lo, hi)
    ensures GapsWithin(a + b, lo, hi)
  {
    forall m | 0 <= m < |a + b| && (a + b)[m].Gap?
      ensures lo <= (a + b)[m].position <= hi
    {
      if m >= |a| {
        assert (a + b)[m] == b[m - |a|];
      }
    }
  }

  lemma {:induction false} EmittedGapsWithin(cards: seq<Form>, numbers: seq<int>, i: nat, lo: int, hi: int)
    requires |numbers| == |cards| + 1 && i <= |cards|
    requires forall j :: 0 <= j < |numbers| ==> lo <= numbers[j] <= hi
    ensures GapsWithin(EmittedBefore(cards, numbers, i), lo, hi)
    decreases i
  {
    if i > 0 {
      var closing := ClosingGaps(DepthBefore(cards, i - 1), cards[i - 1].depth, numbers[i - 1]);
      EmittedGapsWithin(cards, numbers, i - 1, lo, hi);
      ClosingGapsShape(DepthBefore(cards, i - 1), cards[i - 1].depth, numbers[i - 1]);
      GapsWithinConcat(EmittedBefore(cards, numbers, i - 1), closing, lo, hi);
      GapsWithinConcat(EmittedBefore(cards, numbers, i - 1) + closing,
        [Gap(numbers[i - 1], cards[i - 1].depth, Regular), CardItem(cards[i - 1])], lo, hi);
    }
  }

  /** When every number lies in lo..hi, so does every gap of the list, last-child gaps
      included. */
  lemma LayoutNumberedGapsWithin(cards: seq<Form>, numbers: seq<int>, lo: int, hi: int)
    requires |numbers| == |cards| + 1
    requires forall j :: 0 <= j < |numbers| ==> lo <= numbers[j] <= hi
    ensures GapsWithin(LayoutNumbered(cards, numbers), lo, hi)
  {
    var k := |cards|;
    var closing := ClosingGaps(DepthBefore(cards, k), Some(1), numbers[k]);
    EmittedGapsWithin(cards, numbers, k, lo, hi);
    ClosingGapsShape(DepthBefore(cards, k), Some(1), numbers[k]);
    GapsWithinConcat(EmittedBefore(cards, numbers, k), closing, lo, hi);
    GapsWithinConcat(EmittedBefore(cards, numbers, k) + closing, [Gap(numbers[k], Some(1), Regular)], lo, hi);
  }

  /** With k cards, `initGaps` uses only the gap numbers 1..k+1. */
  lemma LayoutGapsWithin(cards: seq<Form>)
    ensures GapsWithin(Layout(cards), 1, |cards| + 1)
  {
    LayoutNumberedGapsWithin(cards, GapNumbers(|cards|), 1, |cards| + 1);
  }

  // ---------------------------------------------------------------------------
  // Rendering

  /** The records of `forms` that are (or are not) deleted, in order. */
  function Filter(forms: seq<Form>, deleted: bool): seq<Form>
    decreases |forms|
  {
    if forms == [] then []
    else
      Filter(forms[..|forms| - 1], deleted)
      + (if forms[|forms| - 1].isDeleted == deleted then [forms[|forms| - 1]] else [])
  }

  /** Each record kept by the filter has the flag asked for and comes from the list. */
  lemma {:induction false} FilterFrom(forms: seq<Form>, deleted: bool)
    ensures |Filter(forms, deleted)| <= |forms|
    ensures forall f :: f in Filter(forms, deleted) ==> f.isDeleted == deleted && f in forms
    decreases |forms|
  {
    if forms != [] {
      var init := forms[..|forms| - 1];
      assert forms == init + [forms[|forms| - 1]];
      FilterFrom(init, deleted);
    }
  }

  /** Live and deleted records split the list between them. */
  lemma {:induction false} FilterSplits(forms: seq<Form>)
    ensures multiset(Filter(forms, false)) + multiset(Filter(forms, true)) == multiset(forms)
    decreases |forms|
  {
    if forms != [] {
      var init := forms[..|forms| - 1];
      assert forms == init + [forms[|forms| - 1]];
      FilterSplits(init);
    }
  }

  /** Each part keeps the order of the list. */
  lemma {:induction false} FilterSorted(forms: seq<Form>, deleted: bool)
    requires Sorted(forms)
    ensures Sorted(Filter(forms, deleted))
    decreases |forms|
  {
    if forms != [] {
      var init, last := forms[..|forms| - 1], forms[|forms| - 1];
      assert forms == init + [last];
      FilterSorted(init, deleted);
      FilterFrom(init, deleted);
      var head := Filter(init, deleted);
      forall i | 0 <= i < |head|
        ensures head[i].position <= last.position
      {
        assert head[i] in init;
        var k :| 0 <= k < |init| && init[k] == head[i];
        assert forms[k] == init[k];
      }
    }
  }

  /** What `render` shows: the top add button when editing is allowed, the live records in
      order with their gaps, then the deleted records, which get no gaps. */
  datatype View = View(addButton: bool, items: seq<Item>, deletedCards: seq<Form>)

  /** `render`: sort a copy of the records by position, split off the deleted ones and put
      gaps between the rest. */
  method Render(forms: seq<Form>, canEdit: bool) returns (view: View)
    ensures view.addButton == canEdit
    ensures view.items == Layout(Filter(SortByPosition(forms), false))
    ensures view.deletedCards == Filter(SortByPosition(forms), true)
  {
    var sortedForms := SortByPosition(forms);
    var renderedCards := [];
    var deletedCards := [];

    for i := 0 to |sortedForms|
      invariant renderedCards == Filter(sortedForms[..i], false)
      invariant deletedCards == Filter(sortedForms[..i], true)
    {
      var form := sortedForms[i];
      assert sortedForms[..i + 1][..i] == sortedForms[..i];
      if form.isDeleted {
        deletedCards := deletedCards + [form];
      } else {
        renderedCards := renderedCards + [form];
      }
    }
    assert sortedForms[..|sortedForms|] == sortedForms;

    // Add gap objects into the cards
    var items := InitGaps(renderedCards);

    view := View(canEdit, items, deletedCards);
  }

  /** Every record is shown exactly once: the live ones in the gapped list, in order of
      position, the deleted ones after it, also in order. */
  lemma RenderShowsEveryRecordOnce(forms: seq<Form>)
    ensures var sorted := SortByPosition(forms);
      var live, deleted := Filter(sorted, false), Filter(sorted, true);
      && multiset(live) + multiset(deleted) == multiset(forms)
      && (forall f :: f in live ==> !f.isDeleted)
      && (forall f :: f in deleted ==> f.isDeleted)
      && Sorted(live) && Sorted(deleted)
      && Select(Layout(live), IsCard) == AsItems(live)
  {
    var sorted := SortByPosition(forms);
    SortByPositionProperties(forms);
    FilterFrom(sorted, false);
    FilterFrom(sorted, true);
    FilterSplits(sorted);
    FilterSorted(sorted, false);
    FilterSorted(sorted, true);
    LayoutSelections(Filter(sorted, false), GapNumbers(|Filter(sorted, false)|));
  }

  // ---------------------------------------------------------------------------
  // Handlers

  /** `formPrefix` of a card: the formset prefix and the record's id. */
  function FormPrefix(formsetPrefix: string, id: nat): string {
    formsetPrefix + "-" + NatToString(id)
  }

  /** The SET_FORM that a card's event dispatches: a copy of the record with the edit
      started, the deletion set, or the edit closed with the harvested field values. */
  function HandlerAction(form: Form, event: CardEvent): Action {
    match event
    case EditStartRequested => SetForm(form.id, form.(isEditing := true, hasChanged := true))
    case DeleteRequested => SetForm(form.id, form.(isDeleted := true))
    case EditCloseRequested(newFields) => SetForm(form.id, form.(isEditing := false, fields := newFields))
  }

  /** A card handler on a valid state replaces only its own record, keeps its id and
      position (so the state stays valid), and leaves the record as the event says: an
      edited or deleted record keeps its form HTML in the page, so the change is submitted. */
  lemma HandlerKeepsValid(s: State, i: nat, event: CardEvent, base: int)
    requires Valid(s, base) && i < |s.forms|
    ensures var action := HandlerAction(s.forms[i], event);
      && Admissible(Some(s), action, base) && Addresses(Some(s), action)
      && var r := Reduced(Some(s), action).value;
      && Valid(r, base) && |r.forms| == |s.forms| && r.emptyForm == s.emptyForm
      && (forall k :: 0 <= k < |s.forms| && k != i ==> r.forms[k] == s.forms[k])
      && r.forms[i].id == s.forms[i].id && r.forms[i].position == s.forms[i].position
      && (event.EditStartRequested? ==>
            r.forms[i].isEditing && r.forms[i].hasChanged && ShouldRenderForm(r.forms[i], true)
            && BuiltinActions(r.forms[i], true, true)[0] == EditClose)
      && (event.DeleteRequested? ==> r.forms[i].isDeleted && ShouldRenderForm(r.forms[i], true))
      && (event.EditCloseRequested? ==>
            !r.forms[i].isEditing && r.forms[i].fields == event.newFields
            && BuiltinActions(r.forms[i], true, true)[0] == EditStart)
  {
    var action := HandlerAction(s.forms[i], event);
    AdmissibleKeepsValid(Some(s), action, base);
    SetFormReplacesOne(s, i, action.data);
  }

  /** The record `onAdd` creates: a copy of the template's field values, new, changed and
      open for editing, at the end of the list and at depth 1. */
  function NewForm(forms: seq<Form>, emptyForm: Form): Form {
    Form(|forms|, None, true, true, false, true, |forms| + 1, false, emptyForm.fields, map[], Some(map[]), Some(1))
  }

  /** `onAdd(position)`: append the new record, then move it to the requested gap. */
  function AddActions(forms: seq<Form>, emptyForm: Form, position: int): seq<Action> {
    [AddForm(NewForm(forms, emptyForm)), MoveForm(|forms|, position)]
  }

  /** Adding at gap `position` of 1..n+1 gives a valid state with one more record. The new
      record sits at `position`, directly above the record that was there, and the old
      records keep their relative order. */
  lemma AddActionsInsert(s: State, position: int)
    requires Valid(s, 1) && 1 <= position <= |s.forms| + 1
    ensures AdmissibleRun(Some(s), AddActions(s.forms, s.emptyForm, position), 1)
    ensures var r := Replay(Some(s), AddActions(s.forms, s.emptyForm, position), 1);
      var n := |s.forms|;
      && r.Some? && Valid(r.value, 1) && |r.value.forms| == n + 1
      && r.value.forms[n].position == position
      && r.value.forms[n].isNew && r.value.forms[n].isEditing && r.value.forms[n].hasChanged
      && !r.value.forms[n].isDeleted && r.value.forms[n].depth == Some(1)
      && r.value.forms[n].fields == s.emptyForm.fields
      && (forall x :: 0 <= x < n && s.forms[x].position == position ==>
            r.value.forms[n].position + 1 == r.value.forms[x].position)
      && (forall x, y :: 0 <= x < n && 0 <= y < n ==>
            (s.forms[x].position < s.forms[y].position <==> r.value.forms[x].position < r.value.forms[y].position))
  {
    AddThenMove(s, NewForm(s.forms, s.emptyForm), position, 1);
  }

  /** The top add button puts the new record first. */
  lemma TopAddPutsFirst(s: State)
    requires Valid(s, 1)
    ensures AdmissibleRun(Some(s), AddActions(s.forms, s.emptyForm, 1), 1)
    ensures var r := Replay(Some(s), AddActions(s.forms, s.emptyForm, 1), 1);
      && r.Some? && |r.value.forms| == |s.forms| + 1
      && forall x :: 0 <= x < |s.forms| ==> r.value.forms[|s.forms|].position < r.value.forms[x].position
  {
    AddActionsInsert(s, 1);
    var r := Replay(Some(s), AddActions(s.forms, s.emptyForm, 1), 1).value;
    forall x | 0 <= x < |s.forms|
      ensures r.forms[|s.forms|].position < r.forms[x].position
    {
      assert r.forms[x].position in PositionSet(r.forms);
      DensePositionsCoverRange(r.forms, 1);
      RangeFacts(1, |r.forms|);
      assert r.forms[x].position != r.forms[|s.forms|].position;
    }
  }

  /** A drop delivers the dragged card's id and the gap's number to MOVE_FORM. */
  function DropAction(formId: nat, gap: Item): Action
    requires gap.Gap?
  {
    MoveForm(formId, gap.position)
  }

  /** A dragged card delivers its record's id, and every gap the panel shows is a target
      MOVE_FORM keeps valid: dropping the card there is admissible. */
  lemma LayoutGapsAreAdmissible(s: State, card: Card, m: nat)
    requires Valid(s, 1) && card.CanDrag() && card.form.id < |s.forms|
    requires var items := Layout(Filter(SortByPosition(s.forms), false)); m < |items| && items[m].Gap?
    ensures var gap := Layout(Filter(SortByPosition(s.forms), false))[m];
      && DropAction(card.BeginDrag(), gap) == MoveForm(card.form.id, gap.position)
      && Admissible(Some(s), DropAction(card.BeginDrag(), gap), 1)
      && 1 <= gap.position <= |s.forms| + 1
  {
    var sorted := SortByPosition(s.forms);
    var live := Filter(sorted, false);
    SortByPositionProperties(s.forms);
    FilterFrom(sorted, false);
    assert |sorted| == |s.forms| by {
      assert |multiset(sorted)| == |multiset(s.forms)|;
    }
    LayoutGapsWithin(live);
  }

  // ---------------------------------------------------------------------------
  // Gap numbers that match the reducer's positions

  /** The intended numbering: the gap above a card carries that card's position, the bottom
      gap the position just below the last live card. */
  function CorrectedGapNumbers(cards: seq<Form>): (numbers: seq<int>)
    ensures |numbers| == |cards| + 1
  {
    seq(|cards| + 1, j requires 0 <= j <= |cards| =>
      if j < |cards| then cards[j].position
      else if cards == [] then 1
      else cards[|cards| - 1].position + 1)
  }

  function CorrectedLayout(cards: seq<Form>): seq<Item> {
    LayoutNumbered(cards, CorrectedGapNumbers(cards))
  }

  /** A live card is the record its id names. */
  lemma LiveCardIsRecord(s: State, j: nat)
    requires Valid(s, 1)
    requires j < |Filter(SortByPosition(s.forms), false)|
    ensures var c := Filter(SortByPosition(s.forms), false)[j];
      c.id < |s.forms| && s.forms[c.id] == c
  {
    var sorted := SortByPosition(s.forms);
    var c := Filter(sorted, false)[j];
    SortByPositionProperties(s.forms);
    FilterFrom(sorted, false);
    assert c in sorted;
    assert c in multiset(s.forms);
    var k :| 0 <= k < |s.forms| && s.forms[k] == c;
  }

  /** With the intended numbering, dropping any other record on the gap above a live card
      puts it directly above that card. */
  lemma CorrectedDropLandsAboveCard(s: State, j: nat, x: nat)
    requires Valid(s, 1) && x < |s.forms|
    requires j < |Filter(SortByPosition(s.forms), false)|
    requires x != Filter(SortByPosition(s.forms), false)[j].id
    ensures var live := Filter(SortByPosition(s.forms), false);
      var r := MovedForms(s.forms, x, CorrectedGapNumbers(live)[j]);
      live[j].id < |s.forms| && r[x].position + 1 == r[live[j].id].position
  {
    var live := Filter(SortByPosition(s.forms), false);
    LiveCardIsRecord(s, j);
    MoveLandsBefore(s.forms, x, live[j].id);
  }

  /** With the intended numbering, dropping a card on the gap directly above it changes
      no position. */
  lemma CorrectedOwnGapIsNoOp(s: State, j: nat)
    requires Valid(s, 1)
    requires j < |Filter(SortByPosition(s.forms), false)|
    ensures var live := Filter(SortByPosition(s.forms), false);
      live[j].id < |s.forms| &&
      var r := MovedForms(s.forms, live[j].id, CorrectedGapNumbers(live)[j]);
      forall i :: 0 <= i < |s.forms| ==> r[i].position == s.forms[i].position
  {
    var live := Filter(SortByPosition(s.forms), false);
    LiveCardIsRecord(s, j);
    MoveToOwnGapIsNoOp(s.forms, live[j].id, live[j].position);
  }

  /** With the intended numbering, dropping any other record on the bottom gap puts it
      directly below the last live card. */
  lemma CorrectedBottomGapLandsLast(s: State, x: nat)
    requires Valid(s, 1) && x < |s.forms|
    requires var live := Filter(SortByPosition(s.forms), false); live != [] && x != live[|live| - 1].id
    ensures var live := Filter(SortByPosition(s.forms), false);
      var r := MovedForms(s.forms, x, CorrectedGapNumbers(live)[|live|]);
      live[|live| - 1].id < |s.forms| && r[live[|live| - 1].id].position + 1 == r[x].position
  {
    var live := Filter(SortByPosition(s.forms), false);
    LiveCardIsRecord(s, |live| - 1);
    MoveLandsAfter(s.forms, x, live[|live| - 1].id);
  }

  /** Every gap of the corrected list is a target MOVE_FORM keeps valid, so the corrected
      numbering can replace the one `initGaps` hands out. */
  lemma CorrectedGapsAreAdmissible(s: State, card: Card, m: nat)
    requires Valid(s, 1) && card.CanDrag() && card.form.id < |s.forms|
    requires var items := CorrectedLayout(Filter(SortByPosition(s.forms), false)); m < |items| && items[m].Gap?
    ensures var gap := CorrectedLayout(Filter(SortByPosition(s.forms), false))[m];
      && Admissible(Some(s), DropAction(card.BeginDrag(), gap), 1)
      && 1 <= gap.position <= |s.forms| + 1
  {
    var live := Filter(SortByPosition(s.forms), false);
    var numbers := CorrectedGapNumbers(live);
    forall j | 0 <= j < |numbers|
      ensures 1 <= numbers[j] <= |s.forms| + 1
    {
      if j < |live| {
        LiveCardIsRecord(s, j);
      } else if live != [] {
        LiveCardIsRecord(s, |live| - 1);
      }
    }
    LayoutNumberedGapsWithin(live, numbers, 1, |s.forms| + 1);
  }

  lemma {:induction false} FilterAllLive(forms: seq<Form>)
    requires forall i :: 0 <= i < |forms| ==> !forms[i].isDeleted
    ensures Filter(forms, false) == forms
    decreases |forms|
  {
    if forms != [] {
      var init := forms[..|forms| - 1];
      FilterAllLive(init);
      assert forms == init + [forms[|forms| - 1]];
    }
  }

  /** The sorted copy of a valid state is sorted with the same dense positions. */
  lemma SortedCopyIsDense(s: State)
    requires Valid(s, 1)
    ensures Sorted(SortByPosition(s.forms)) && DensePositions(SortByPosition(s.forms), 1)
    ensures multiset(SortByPosition(s.forms)) == multiset(s.forms)
  {
    var sorted := SortByPosition(s.forms);
    SortByPositionProperties(s.forms);
    assert |sorted| == |s.forms| by {
      assert |multiset(sorted)| == |multiset(s.forms)|;
    }
    forall i | 0 <= i < |sorted|
      ensures 1 <= sorted[i].position < 1 + |sorted|
    {
      assert sorted[i] in multiset(s.forms);
    }
  }

  /** Without deleted records the numbering `initGaps` hands out is the intended one. */
  lemma GapNumbersRightWithoutDeletions(s: State)
    requires Valid(s, 1)
    requires forall i :: 0 <= i < |s.forms| ==> !s.forms[i].isDeleted
    ensures var live := Filter(SortByPosition(s.forms), false);
      GapNumbers(|live|) == CorrectedGapNumbers(live)
  {
    var sorted := SortByPosition(s.forms);
    SortedCopyIsDense(s);
    assert forall i :: 0 <= i < |sorted| ==> !sorted[i].isDeleted by {
      forall i | 0 <= i < |sorted|
        ensures !sorted[i].isDeleted
      {
        assert sorted[i] in multiset(s.forms);
      }
    }
    FilterAllLive(sorted);
    DenseCardsNumbers(sorted);
  }

  /** For cards sorted on the dense positions 1..k both numberings coincide. */
  lemma DenseCardsNumbers(cards: seq<Form>)
    requires Sorted(cards) && DensePositions(cards, 1)
    ensures GapNumbers(|cards|) == CorrectedGapNumbers(cards)
  {
    SortedDensePositions(cards, 1);
    var numbers, corrected := GapNumbers(|cards|), CorrectedGapNumbers(cards);
    forall j | 0 <= j <= |cards|
      ensures numbers[j] == corrected[j]
    {
    }
  }

  /** As written, with a deleted record above: A (deleted, position 1), B (position 2) and
      C (position 3). The live list is B, C, and the gap directly above C is numbered 2;
      dropping C there moves it above B. */
  lemma OwnGapDropReordersAfterDelete()
    ensures var a := Form(0, None, false, false, true, false, 1, false, map[], map[], Some(map[]), None);
      var b := Form(1, None, false, false, false, false, 2, false, map[], map[], Some(map[]), None);
      var c := Form(2, None, false, false, false, false, 3, false, map[], map[], Some(map[]), None);
      var s := State([a, b, c], a);
      && Valid(s, 1)
      && Filter(SortByPosition(s.forms), false) == [b, c]
      && (exists i :: 0 <= i < |Layout([b, c])| - 1
            && Layout([b, c])[i] == Gap(2, None, Regular) && Layout([b, c])[i + 1] == CardItem(c))
      && var r := MovedForms(s.forms, 2, 2);
      r[2].position < r[1].position
  {
    var a := Form(0, None, false, false, true, false, 1, false, map[], map[], Some(map[]), None);
    var b := Form(1, None, false, false, false, false, 2, false, map[], map[], Some(map[]), None);
    var c := Form(2, None, false, false, false, false, 3, false, map[], map[], Some(map[]), None);
    var forms := [a, b, c];
    assert forms[..2] == [a, b] && [a, b][..1] == [a];
    assert SortByPosition([a]) == [a];
    assert SortByPosition([a, b]) == [a, b];
    assert SortByPosition(forms) == forms;
    assert Filter([a], false) == [];
    assert Filter([a, b], false) == [b];
    assert Filter(forms, false) == [b, c];
    var i := GapAboveCard([b, c], GapNumbers(2), 1);
    assert Layout([b, c])[i] == Gap(2, None, Regular);
  }
}

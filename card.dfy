/** `Card` (`src/components/Card.tsx`): one record of the panel, drawn as a card with a
    header of action buttons and, when needed, the record's form HTML. */
module CardComponent {
  import opened Wrappers
  import opened Types
  import opened Strings

  // ---------------------------------------------------------------------------
  // Form HTML

  /** The placeholder that the form template carries in place of the form index. */
  const PrefixToken: string := "__prefix__"

  lemma PrefixTokenHasNoDigit(id: nat)
    ensures NoCommonChar(PrefixToken, NatToString(id))
  {
    var digits := NatToString(id);
    forall i, j | 0 <= i < |PrefixToken| && 0 <= j < |digits|
      ensures PrefixToken[i] != digits[j]
    {
      assert IsDigit(digits[j]);
    }
  }

  /** `getFormHtml`: every `__prefix__` of the template replaced by the decimal form id.
      No placeholder survives, and a template without one comes back unchanged. */
  function FormHtml(template: string, id: nat): (html: string)
    ensures !Occurs(html, PrefixToken)
    ensures !Occurs(template, PrefixToken) ==> html == template
  {
    PrefixTokenHasNoDigit(id);
    ReplaceAllRemovesPattern(template, PrefixToken, NatToString(id));
    if !Occurs(template, PrefixToken) then
      ReplaceAllAbsent(template, PrefixToken, NatToString(id));
      ReplaceAll(template, PrefixToken, NatToString(id))
    else
      ReplaceAll(template, PrefixToken, NatToString(id))
  }

  /** `getFormHtml` writes the id where the template has `__prefix__`: the text before the
      first placeholder is kept, the placeholder becomes the decimal id, and the rest of the
      template is filled in the same way. */
  lemma FormHtmlSplices(a: string, b: string, id: nat)
    requires forall i :: 0 <= i < |a| ==> !StartsWith((a + PrefixToken + b)[i..], PrefixToken)
    ensures FormHtml(a + PrefixToken + b, id) == a + NatToString(id) + FormHtml(b, id)
  {
    ReplaceAllSplices(a, PrefixToken, NatToString(id), b);
  }

  /** A label of the form template as Django renders it: the id is written after
      `id_items-`, although an underscore precedes the placeholder, and the rest of the tag
      is kept. */
  lemma FormHtmlFillsLabel(id: nat)
    ensures FormHtml("<label for=\"id" + "_items-" + PrefixToken + "-title\">", id)
         == "<label for=\"id" + "_items-" + NatToString(id) + "-title\">"
  {
    var a, tail := "<label for=\"id" + "_items-", "-title\">";
    LabelHasNoEarlierPlaceholder(tail);
    FormHtmlSplices(a, tail, id);
    NoOccurrenceWithoutFirstChar(tail, PrefixToken);
  }

  /** No placeholder starts before the one that follows `id_items-`: only one character
      there is an underscore, and the character after it is not. */
  lemma LabelHasNoEarlierPlaceholder(tail: string)
    ensures var a := "<label for=\"id" + "_items-";
      forall i :: 0 <= i < |a| ==> !StartsWith((a + PrefixToken + tail)[i..], PrefixToken)
  {
    var head, word := "<label for=\"id", "_items-";
    var rest := word + PrefixToken + tail;
    assert (head + word) + PrefixToken + tail == head + rest;
    UnmatchedWithoutFirstChar(head, rest, PrefixToken);
    forall j | |head| <= j < |head| + |word|
      ensures !StartsWith((head + rest)[j..], PrefixToken)
    {
      var i := j - |head|;
      assert (head + rest)[j..] == rest[i..];
      if i == 0 {
        NoMatchAt(rest, 0, PrefixToken, 1);
      } else {
        assert rest[i] == word[i] && word[i] != '_';
        NoMatchAt(rest, i, PrefixToken, 0);
      }
    }
  }

  /** `shouldRenderForm`: the form HTML must be in the page when the record is being edited,
      has changed or is deleted (so that the change is submitted), and only when editing is
      allowed at all. The record's `forceFormRender` flag is not consulted. */
  predicate ShouldRenderForm(form: Form, canEdit: bool) {
    (form.isEditing || form.hasChanged || form.isDeleted) && canEdit
  }

  // ---------------------------------------------------------------------------
  // Class names

  /** The class names a card can carry, in the order in which they are listed. */
  datatype CardClass = Base | Errors | New | Changed | Deleted | Editing | Dragging

  function ClassName(c: CardClass): string {
    match c
    case Base => "condensed-inline-panel__card"
    case Errors => "condensed-inline-panel__card--errors"
    case New => "condensed-inline-panel__card--new"
    case Changed => "condensed-inline-panel__card--changed"
    case Deleted => "condensed-inline-panel__card--deleted"
    case Editing => "condensed-inline-panel__card--editing"
    case Dragging => "condensed-inline-panel__card--dragging"
  }

  // ---------------------------------------------------------------------------
  // Action buttons

  /** The buttons of a card header. A customising hook may add buttons of its own. */
  datatype ActionButton =
    | EditClose
    | EditStart
    | Delete
    | DeleteConfirmMessage
    | DeleteConfirm
    | DeleteCancel
    | Custom(key: string)

  /** What a card asks its card set to do, through the handler props it was given. */
  datatype CardEvent =
    | EditStartRequested
    | EditCloseRequested(newFields: map<string, string>)
    | DeleteRequested

  /** The buttons before the customising hook runs: edit or close when editing is allowed,
      then delete when deleting is allowed. */
  function BuiltinActions(form: Form, canEdit: bool, canDelete: bool): (actions: seq<ActionButton>)
    ensures |actions| == (if canEdit then 1 else 0) + (if canDelete then 1 else 0)
    ensures canEdit ==> actions[0] == (if form.isEditing then EditClose else EditStart)
    ensures canDelete ==> actions[|actions| - 1] == Delete
    ensures forall a :: a in actions ==> a in {EditClose, EditStart, Delete}
  {
    (if canEdit then [if form.isEditing then EditClose else EditStart] else [])
    + (if canDelete then [Delete] else [])
  }

  /** The id of the element holding field `fieldName` of the form with this prefix. */
  function FieldElementId(formPrefix: string, fieldName: string): string {
    formPrefix + "-" + fieldName
  }

  class Card {
    const form: Form
    const canEdit: bool
    const canDelete: bool
    const canOrder: bool
    const template: string
    const formPrefix: string
    const customiseActions: Option<(Form, seq<ActionButton>) -> seq<ActionButton>>
    const isDragging: bool
    var showDeleteConfirm: bool

    constructor(form: Form, canEdit: bool, canDelete: bool, canOrder: bool, template: string,
                formPrefix: string, customiseActions: Option<(Form, seq<ActionButton>) -> seq<ActionButton>>,
                isDragging: bool)
      ensures this.form == form && this.canEdit == canEdit && this.canDelete == canDelete
      ensures this.canOrder == canOrder && this.template == template && this.formPrefix == formPrefix
      ensures this.customiseActions == customiseActions && this.isDragging == isDragging
      ensures !showDeleteConfirm
    {
      this.form := form;
      this.canEdit := canEdit;
      this.canDelete := canDelete;
      this.canOrder := canOrder;
      this.template := template;
      this.formPrefix := formPrefix;
      this.customiseActions := customiseActions;
      this.isDragging := isDragging;
      showDeleteConfirm := false;
    }

    /** The delete button only asks for confirmation. */
    method OnDelete()
      modifies this
      ensures showDeleteConfirm
    {
      showDeleteConfirm := true;
    }

    method OnDeleteCancel()
      modifies this
      ensures !showDeleteConfirm
    {
      showDeleteConfirm := false;
    }

    /** Confirming hands the deletion to the card set; the card's own state is untouched. */
    method OnDeleteConfirm() returns (event: CardEvent)
      ensures event == DeleteRequested
    {
      event := DeleteRequested;
    }

    method OnEditStart() returns (event: CardEvent)
      ensures event == EditStartRequested
    {
      event := EditStartRequested;
    }

    /** `onEditClose`: read back the value of every field of the record whose element is
        an input in the page (`inputs` maps element ids to input values). */
    method OnEditClose(inputs: map<string, string>) returns (event: CardEvent)
      ensures event.EditCloseRequested?
      ensures event.newFields.Keys == set f | f in form.fields && FieldElementId(formPrefix, f) in inputs
      ensures forall f :: f in event.newFields ==> event.newFields[f] == inputs[FieldElementId(formPrefix, f)]
    {
      var newFields: map<string, string> := map[];
      var remaining := form.fields.Keys;
      while remaining != {}
        invariant remaining <= form.fields.Keys
        invariant newFields.Keys == set f | f in form.fields && f !in remaining && FieldElementId(formPrefix, f) in inputs
        invariant forall f :: f in newFields ==> newFields[f] == inputs[FieldElementId(formPrefix, f)]
        decreases remaining
      {
        var fieldName :| fieldName in remaining;
        var elementId := FieldElementId(formPrefix, fieldName);
        if elementId in inputs {
          newFields := newFields[fieldName := inputs[elementId]];
        }
        remaining := remaining - {fieldName};
      }
      event := EditCloseRequested(newFields);
    }

    /** `renderActions`: while a deletion awaits confirmation the header shows only the
        question, confirm and cancel; otherwise the built-in buttons, as the hook leaves them. */
    method RenderActions() returns (actions: seq<ActionButton>)
      ensures canDelete && showDeleteConfirm ==> actions == [DeleteConfirmMessage, DeleteConfirm, DeleteCancel]
      ensures !(canDelete && showDeleteConfirm) && customiseActions.None? ==>
        actions == BuiltinActions(form, canEdit, canDelete)
      ensures !(canDelete && showDeleteConfirm) && customiseActions.Some? ==>
        actions == customiseActions.value(form, BuiltinActions(form, canEdit, canDelete))
    {
      actions := [];

      // Edit/close action
      if canEdit {
        if form.isEditing {
          actions := actions + [EditClose];
        } else {
          actions := actions + [EditStart];
        }
      }

      // Delete action
      if canDelete {
        actions := actions + [Delete];
      }

      assert actions == BuiltinActions(form, canEdit, canDelete);

      // Custom actions
      if customiseActions.Some? {
        actions := customiseActions.value(form, actions);
      }

      // Delete confirm hides all other actions
      if canDelete && showDeleteConfirm {
        actions := [DeleteConfirmMessage, DeleteConfirm, DeleteCancel];
      }
    }

    /** `getClassNames`. The record must carry an `errors` mapping: the keys of a missing one
        cannot be counted. */
    method GetClassNames() returns (classes: seq<CardClass>)
      requires form.errors.Some?
      ensures |classes| > 0 && classes[0] == Base
      ensures Errors in classes <==> |form.errors.value| > 0
      ensures New in classes <==> form.isNew
      ensures Changed in classes <==> !form.isNew && form.hasChanged
      ensures Deleted in classes <==> form.isDeleted
      ensures Editing in classes <==> !form.isDeleted && form.isEditing
      ensures Dragging in classes <==> isDragging
      ensures !(New in classes && Changed in classes) && !(Deleted in classes && Editing in classes)
      ensures |classes| == 1 + (if |form.errors.value| > 0 then 1 else 0)
        + (if form.isNew || form.hasChanged then 1 else 0)
        + (if form.isDeleted || form.isEditing then 1 else 0) + (if isDragging then 1 else 0)
    {
      classes := [Base];

      if |form.errors.value| > 0 {
        classes := classes + [Errors];
      }

      if form.isNew {
        classes := classes + [New];
      } else if form.hasChanged {
        classes := classes + [Changed];
      }

      if form.isDeleted {
        classes := classes + [Deleted];
      } else if form.isEditing {
        classes := classes + [Editing];
      }

      if isDragging {
        classes := classes + [Dragging];
      }
    }

    /** The form element of `render`: the form HTML when it must be in the page, an empty
        element otherwise. */
    function FormElement(): (html: Option<string>)
      ensures html.Some? <==> canEdit && (form.isEditing || form.hasChanged || form.isDeleted)
      ensures html.Some? ==> html.value == FormHtml(template, form.id)
      ensures html.Some? ==> !Occurs(html.value, PrefixToken)
    {
      if ShouldRenderForm(form, canEdit) then Some(FormHtml(template, form.id)) else None
    }

    /** react-dnd's `canDrag`: only an orderable panel lets cards be dragged. */
    predicate CanDrag() {
      canOrder
    }

    /** react-dnd's `beginDrag`: the payload a drop receives is the record's id. */
    function BeginDrag(): nat {
      form.id
    }
  }

  // ---------------------------------------------------------------------------
  // Chooser ids

  /** The index of the first `-` in `s`, if any. */
  function FirstDash(s: string): (r: Option<nat>)
    ensures r.Some? ==> r.value < |s| && s[r.value] == '-' && '-' !in s[..r.value]
    ensures r.None? ==> '-' !in s
    decreases |s|
  {
    if s == [] then None
    else if s[0] == '-' then Some(0)
    else match FirstDash(s[1..]) {
      case None => None
      case Some(i) =>
        assert s[..i + 1] == [s[0]] + s[1..][..i];
        Some(i + 1)
    }
  }

  /** The pattern `id_[^-]*-\d+-([^-]*)-chooser` matched at the start of `s`. Each part is
      forced: `[^-]*` can only stop at the next `-`, and `\d+` only at the end of the digit
      run, so there is at most one match, and this is the group it captures. */
  function ChooserMatchAt(s: string): Option<string> {
    if StartsWith(s, "id_") then MatchFormsetPrefix(s[3..]) else None
  }

  /** `[^-]*-` then the rest. */
  function MatchFormsetPrefix(u: string): Option<string> {
    match FirstDash(u) {
      case None => None
      case Some(a) => MatchFormIndex(u[a + 1..])
    }
  }

  /** `\d+-` then the rest. */
  function MatchFormIndex(v: string): Option<string> {
    var d := LeadingDigits(v);
    if d == 0 || d == |v| || v[d] != '-' then None else MatchFieldName(v[d + 1..])
  }

  /** `([^-]*)-chooser`. */
  function MatchFieldName(w: string): Option<string> {
    match FirstDash(w) {
      case None => None
      case Some(b) => if StartsWith(w[b..], "-chooser") then Some(w[..b]) else None
    }
  }

  /** `elementId.match(...)`: the leftmost match, and its captured field name. */
  function ChooserFieldName(elementId: string): (name: Option<string>)
    ensures name.Some? ==> '-' !in name.value
    decreases |elementId|
  {
    match ChooserMatchAt(elementId) {
      case Some(name) => Some(name)
      case None => if elementId == [] then None else ChooserFieldName(elementId[1..])
    }
  }

  /** The field name comes back out of the id Django gives a chooser widget of form `id`
      in the formset `prefix` (`id_<prefix>-<id>-<field>-chooser`), when neither the prefix
      nor the field name contains a dash. */
  lemma ChooserFieldNameRoundTrip(prefix: string, id: nat, fieldName: string)
    requires '-' !in prefix && '-' !in fieldName
    ensures ChooserFieldName("id_" + prefix + "-" + NatToString(id) + "-" + fieldName + "-chooser") == Some(fieldName)
  {
    var digits := NatToString(id);
    var w := fieldName + "-chooser";
    var v := digits + "-" + w;
    var u := prefix + "-" + v;
    MatchFieldNameOf(fieldName);
    MatchFormIndexOf(digits, w);
    MatchFormsetPrefixOf(prefix, v);
    ChooserMatchAtOf(u);
    SeqAssoc("id_" + prefix + "-" + digits + "-", fieldName, "-chooser");
    SeqAssoc("id_" + prefix + "-", digits + "-", w);
    SeqAssoc("id_" + prefix + "-", digits, "-");
    SeqAssoc("id_", prefix + "-", v);
    SeqAssoc("id_", prefix, "-");
    assert "id_" + prefix + "-" + digits + "-" + fieldName + "-chooser" == "id_" + u;
  }

  lemma SeqAssoc(a: string, b: string, c: string)
    ensures a + b + c == a + (b + c)
  {
  }

  lemma ChooserMatchAtOf(u: string)
    ensures ChooserMatchAt("id_" + u) == MatchFormsetPrefix(u)
  {
    var s := "id_" + u;
    assert s[..3] == "id_" && s[3..] == u;
  }

  lemma MatchFieldNameOf(fieldName: string)
    requires '-' !in fieldName
    ensures MatchFieldName(fieldName + "-chooser") == Some(fieldName)
  {
    var w := fieldName + "-chooser";
    FirstDashAt(fieldName, "-chooser");
    assert w[|fieldName|..] == "-chooser" && w[..|fieldName|] == fieldName;
  }

  lemma MatchFormIndexOf(digits: string, w: string)
    requires |digits| > 0 && AllDigits(digits)
    ensures MatchFormIndex(digits + "-" + w) == MatchFieldName(w)
  {
    var v := digits + "-" + w;
    LeadingDigitsOf(digits, "-" + w);
    assert v == digits + ("-" + w);
    assert v[|digits|] == '-' && v[|digits| + 1..] == w;
  }

  lemma MatchFormsetPrefixOf(prefix: string, v: string)
    requires '-' !in prefix
    ensures MatchFormsetPrefix(prefix + "-" + v) == MatchFormIndex(v)
  {
    var u := prefix + "-" + v;
    FirstDashAt(prefix, "-" + v);
    assert u == prefix + ("-" + v);
    assert u[|prefix| + 1..] == v;
  }

  lemma FirstDashAt(a: string, rest: string)
    requires '-' !in a && |rest| > 0 && rest[0] == '-'
    ensures FirstDash(a + rest) == Some(|a|)
    decreases |a|
  {
    if a != [] {
      assert (a + rest)[1..] == a[1..] + rest;
      FirstDashAt(a[1..], rest);
    }
  }
}

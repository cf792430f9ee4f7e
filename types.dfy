/** The record shapes of the panel: one sub-form ("card") and the whole collection. */
module Types {
  import opened Wrappers
  import opened JsonValue

  /** One validation error reported by the server for a field. */
  datatype FieldError = FieldError(code: string, message: string)

  /** One sub-form of the panel.
      - `id` is the form index Wagtail assigned (not the database key); it is the record's
        index in the collection and is never reassigned.
      - `position` is the record's place in the panel (1-based in the current client,
        0-based in the legacy one); deleted records keep theirs.
      - The optional lifecycle flags are plain booleans: an absent flag reads as false,
        and every read of them is a truthiness test.
      - `fields` maps field names to string values; `extra` holds arbitrary per-field
        metadata (a chosen page's title, an image preview).
      - `errors` is optional: absent and empty are different, because a consumer that
        counts its keys fails on an absent one.
      - `depth` is not among the declared fields, but the add handler writes it and the
        gap layout reads it; records coming from the server carry none. */
  datatype Form = Form(
    id: nat,
    instanceAsStr: Option<string>,
    isEditing: bool,
    isNew: bool,
    isDeleted: bool,
    hasChanged: bool,
    position: int,
    forceFormRender: bool,
    fields: map<string, string>,
    extra: map<string, Json>,
    errors: Option<map<string, seq<FieldError>>>,
    depth: Option<int>)

  /** The collection: an append-only table of records indexed by id (order lives only in
      `position`), and a template record whose field values seed new records. */
  datatype State = State(forms: seq<Form>, emptyForm: Form)
}

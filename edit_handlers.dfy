/** The server side (`edit_handlers.py`, current and legacy): `to_json`, which hands the
    widget its initial state, and `process_post_data`, which turns what the widget submits
    back into the flat `prefix-index-field` keys Django's formset reads. Both versions of
    `process_post_data` are the same code. The submitted data is a map from names to
    decoded JSON values (`json.loads` of a hidden field is its decoded value). */
module EditHandlers {
  import opened Wrappers
  import opened JsonValue
  import opened Strings

  type PostData = map<string, Json>

  /** The exceptions `process_post_data` lets escape: a missing key, or a JSON value of a
      shape the code cannot iterate or index. */
  datatype PostError = KeyError(key: string) | Malformed(what: string)

  predicate EndsWith(s: string, suffix: string) {
    |suffix| <= |s| && s[|s| - |suffix|..] == suffix
  }

  /** `prefix + '-' + str(form_id) + '-'`, the start of every key of form `i`. */
  function FieldKeyStem(prefix: string, i: nat): string {
    prefix + "-" + NatToString(i) + "-"
  }

  function FieldKey(prefix: string, i: nat, name: string): string {
    FieldKeyStem(prefix, i) + name
  }

  function DeleteKey(prefix: string, id: string): (key: string)
    ensures EndsWith(key, "-DELETE")
  {
    var key := prefix + "-" + id + "-DELETE";
    assert key[|key| - 7..] == "-DELETE";
    key
  }

  function OrderKey(prefix: string, i: nat): (key: string)
    ensures EndsWith(key, "-ORDER")
  {
    var key := FieldKey(prefix, i, "ORDER");
    assert key[|key| - 6..] == "-ORDER";
    key
  }

  /** No key ends both in `-DELETE` and in `-ORDER`. */
  lemma SuffixesExclusive(k: string)
    requires EndsWith(k, "-DELETE")
    ensures !EndsWith(k, "-ORDER")
  {
    assert k[|k| - 1] == "-DELETE"[6];
  }

  /** A run of digits, a dash and a rest split only one way. */
  lemma DigitsDashSplit(a: string, f: string, b: string, g: string)
    requires AllDigits(a) && AllDigits(b) && a + "-" + f == b + "-" + g
    ensures a == b && f == g
  {
    var u := a + "-" + f;
    assert u == a + ("-" + f) && u == b + ("-" + g);
    LeadingDigitsOf(a, "-" + f);
    LeadingDigitsOf(b, "-" + g);
    assert a == u[..|a|] && b == u[..|b|];
    assert f == u[|a| + 1..] && g == u[|b| + 1..];
  }

  /** Different forms or different field names never share a key: the index is the run of
      digits between the prefix and the next dash. */
  lemma FieldKeyInjective(prefix: string, i: nat, f: string, j: nat, g: string)
    requires FieldKey(prefix, i, f) == FieldKey(prefix, j, g)
    ensures i == j && f == g
  {
    var a, b := NatToString(i), NatToString(j);
    var u, v := a + "-" + f, b + "-" + g;
    assert FieldKey(prefix, i, f) == (prefix + "-") + u;
    assert FieldKey(prefix, j, g) == (prefix + "-") + v;
    assert u == v by {
      assert ((prefix + "-") + u)[|prefix| + 1..] == u;
      assert ((prefix + "-") + v)[|prefix| + 1..] == v;
    }
    DigitsDashSplit(a, f, b, g);
    NatToStringInjective(i, j);
  }

  // ---------------------------------------------------------------------------
  // The three stages

  /** The keys form `i` of the blob supplies. */
  function FormKeys(stem: string, fields: map<string, Json>): set<string> {
    set f | f in fields :: stem + f
  }

  /** `setdefault` of one form's fields: a key already present keeps its value. */
  function SetDefaults(m: PostData, stem: string, fields: map<string, Json>): (r: PostData)
    ensures r.Keys == m.Keys + FormKeys(stem, fields)
    ensures forall k :: k in m ==> r[k] == m[k]
    ensures forall f :: f in fields && stem + f !in m ==> r[stem + f] == fields[f]
  {
    var r := map k | k in m.Keys + FormKeys(stem, fields) ::
      if k in m then m[k]
      else if |stem| <= |k| && k[|stem|..] in fields then fields[k[|stem|..]]
      else JNull;
    assert forall f :: f in fields ==> (stem + f)[|stem|..] == f;
    r
  }

  /** The setdefault stage for the forms of the blob, in order. */
  function WithFieldDefaults(m: PostData, prefix: string, forms: seq<map<string, Json>>): PostData
    decreases |forms|
  {
    if forms == [] then m
    else
      var n := |forms| - 1;
      SetDefaults(WithFieldDefaults(m, prefix, forms[..n]), FieldKeyStem(prefix, n), forms[n])
  }

  /** The DELETE stage: `'on'` under the key of every listed id. */
  function MarkDeleted(m: PostData, prefix: string, ids: seq<string>): PostData
    decreases |ids|
  {
    if ids == [] then m
    else MarkDeleted(m, prefix, ids[..|ids| - 1])[DeleteKey(prefix, ids[|ids| - 1]) := JStr("on")]
  }

  /** The ORDER stage: the i-th order value under the key of index i. */
  function WithOrder(m: PostData, prefix: string, order: seq<Json>): PostData
    decreases |order|
  {
    if order == [] then m
    else WithOrder(m, prefix, order[..|order| - 1])[OrderKey(prefix, |order| - 1) := order[|order| - 1]]
  }

  // ---------------------------------------------------------------------------
  // Reading the JSON values

  /** `j[key]` on a decoded JSON value. */
  function Member(j: Json, key: string): Result<Json, PostError> {
    if !j.JObj? then Err(Malformed("not an object"))
    else if key !in j.members then Err(KeyError(key))
    else Ok(j.members[key])
  }

  /** The `fields` object of each element of a list of forms. */
  function FieldsOf(items: seq<Json>): Result<seq<map<string, Json>>, PostError>
    decreases |items|
  {
    if items == [] then Ok([])
    else
      match FieldsOf(items[..|items| - 1])
      case Err(e) => Err(e)
      case Ok(init) =>
        match Member(items[|items| - 1], "fields")
        case Err(e) => Err(e)
        case Ok(fields) =>
          if fields.JObj? then Ok(init + [fields.members]) else Err(Malformed("fields"))
  }

  /** `data_json['forms']` and each form's `fields`. */
  function DecodeForms(blob: Json): Result<seq<map<string, Json>>, PostError> {
    match Member(blob, "forms")
    case Err(e) => Err(e)
    case Ok(forms) => if forms.JArr? then FieldsOf(forms.items) else Err(Malformed("forms"))
  }

  /** Python's `str()` on a decoded id: a number's decimal digits, a string itself. */
  function PyStr(j: Json): Option<string> {
    match j
    case JNum(n) => Some(IntToString(n))
    case JStr(s) => Some(s)
    case _ => None
  }

  /** The ids of the delete list, as `str()` renders them. */
  function DeleteIds(items: seq<Json>): Result<seq<string>, PostError>
    decreases |items|
  {
    if items == [] then Ok([])
    else
      match DeleteIds(items[..|items| - 1])
      case Err(e) => Err(e)
      case Ok(init) =>
        match PyStr(items[|items| - 1])
        case None => Err(Malformed("delete id"))
        case Some(id) => Ok(init + [id])
  }

  /** `process_post_data` as a value: the input unchanged when the blob is missing;
      otherwise the three stages, or the exception one of them raises. */
  function Processed(data: PostData, prefix: string, canOrder: bool): Result<PostData, PostError> {
    if prefix !in data then Ok(data)
    else
      match DecodeForms(data[prefix])
      case Err(e) => Err(e)
      case Ok(forms) =>
        var withFields := WithFieldDefaults(data, prefix, forms);
        var deleteKey := prefix + "-DELETE";
        if deleteKey !in withFields then Err(KeyError(deleteKey))
        else if !withFields[deleteKey].JArr? then Err(Malformed("delete list"))
        else
          match DeleteIds(withFields[deleteKey].items)
          case Err(e) => Err(e)
          case Ok(ids) =>
            var withDeletes := MarkDeleted(withFields, prefix, ids);
            var orderKey := prefix + "-ORDER";
            if !canOrder then Ok(withDeletes)
            else if orderKey !in withDeletes then Err(KeyError(orderKey))
            else if !withDeletes[orderKey].JArr? then Err(Malformed("order list"))
            else Ok(WithOrder(withDeletes, prefix, withDeletes[orderKey].items))
  }

  // ---------------------------------------------------------------------------
  // What each stage does

  /** The keys the blob supplies for its forms. */
  function AllFieldKeys(prefix: string, forms: seq<map<string, Json>>): set<string>
    decreases |forms|
  {
    if forms == [] then {}
    else
      var n := |forms| - 1;
      AllFieldKeys(prefix, forms[..n]) + FormKeys(FieldKeyStem(prefix, n), forms[n])
  }

  lemma {:induction false} AllFieldKeysOf(prefix: string, forms: seq<map<string, Json>>, k: string)
    requires k in AllFieldKeys(prefix, forms)
    ensures exists i, f :: 0 <= i < |forms| && f in forms[i] && k == FieldKey(prefix, i, f)
    decreases |forms|
  {
    var n := |forms| - 1;
    if k in AllFieldKeys(prefix, forms[..n]) {
      AllFieldKeysOf(prefix, forms[..n], k);
      var i, f :| 0 <= i < n && f in forms[..n][i] && k == FieldKey(prefix, i, f);
      assert forms[i] == forms[..n][i];
    } else {
      var f :| f in forms[n] && k == FieldKeyStem(prefix, n) + f;
      assert k == FieldKey(prefix, n, f);
    }
  }

  /** The setdefault stage keeps every submitted value and supplies each missing field key
      of the blob with the blob's value. */
  lemma {:induction false} WithFieldDefaultsEffect(m: PostData, prefix: string, forms: seq<map<string, Json>>)
    ensures var r := WithFieldDefaults(m, prefix, forms);
      && r.Keys == m.Keys + AllFieldKeys(prefix, forms)
      && (forall k :: k in m ==> r[k] == m[k])
      && (forall i, f :: 0 <= i < |forms| && f in forms[i] ==> FieldKey(prefix, i, f) in r)
      && (forall i, f :: 0 <= i < |forms| && f in forms[i] && FieldKey(prefix, i, f) !in m ==>
            r[FieldKey(prefix, i, f)] == forms[i][f])
    decreases |forms|
  {
    if forms != [] {
      var n := |forms| - 1;
      var init := forms[..n];
      var prev := WithFieldDefaults(m, prefix, init);
      var stem := FieldKeyStem(prefix, n);
      var r := SetDefaults(prev, stem, forms[n]);
      assert r == WithFieldDefaults(m, prefix, forms);
      WithFieldDefaultsEffect(m, prefix, init);
      forall i, f | 0 <= i < |forms| && f in forms[i]
        ensures FieldKey(prefix, i, f) in r
      {
        if i == n {
          assert FieldKey(prefix, n, f) == stem + f;
        } else {
          assert init[i] == forms[i];
        }
      }
      forall i, f | 0 <= i < |forms| && f in forms[i] && FieldKey(prefix, i, f) !in m
        ensures r[FieldKey(prefix, i, f)] == forms[i][f]
      {
        if i == n {
          LastFormKeysFresh(prefix, forms, f);
          assert FieldKey(prefix, n, f) == stem + f;
        } else {
          assert init[i] == forms[i];
        }
      }
    }
  }

  /** The keys of the last form are not among the keys of the forms before it. */
  lemma LastFormKeysFresh(prefix: string, forms: seq<map<string, Json>>, f: string)
    requires forms != [] && f in forms[|forms| - 1]
    ensures FieldKey(prefix, |forms| - 1, f) !in AllFieldKeys(prefix, forms[..|forms| - 1])
  {
    var n := |forms| - 1;
    if FieldKey(prefix, n, f) in AllFieldKeys(prefix, forms[..n]) {
      AllFieldKeysOf(prefix, forms[..n], FieldKey(prefix, n, f));
      var j, g :| 0 <= j < n && g in forms[..n][j] && FieldKey(prefix, n, f) == FieldKey(prefix, j, g);
      FieldKeyInjective(prefix, n, f, j, g);
    }
  }

  /** The DELETE stage puts `'on'` under the key of every listed id and touches nothing
      that does not end in `-DELETE`. */
  lemma {:induction false} MarkDeletedEffect(m: PostData, prefix: string, ids: seq<string>)
    ensures var r := MarkDeleted(m, prefix, ids);
      && r.Keys == m.Keys + (set id | id in ids :: DeleteKey(prefix, id))
      && (forall id :: id in ids ==> r[DeleteKey(prefix, id)] == JStr("on"))
      && (forall k :: k in m && !EndsWith(k, "-DELETE") ==> r[k] == m[k])
    decreases |ids|
  {
    if ids != [] {
      var init := ids[..|ids| - 1];
      MarkDeletedEffect(m, prefix, init);
      assert ids == init + [ids[|ids| - 1]];
    }
  }

  /** The keys of order indices 0..n-1. */
  function OrderKeys(prefix: string, n: nat): set<string>
    decreases n
  {
    if n == 0 then {} else OrderKeys(prefix, n - 1) + {OrderKey(prefix, n - 1)}
  }

  lemma {:induction false} OrderKeysOf(prefix: string, n: nat, k: string)
    ensures k in OrderKeys(prefix, n) <==> exists i :: 0 <= i < n && k == OrderKey(prefix, i)
    decreases n
  {
    if n > 0 {
      OrderKeysOf(prefix, n - 1, k);
    }
  }

  /** The ORDER stage puts the i-th value under the key of index i and touches nothing that
      does not end in `-ORDER`. */
  lemma {:induction false} WithOrderEffect(m: PostData, prefix: string, order: seq<Json>)
    ensures var r := WithOrder(m, prefix, order);
      && r.Keys == m.Keys + OrderKeys(prefix, |order|)
      && (forall i :: 0 <= i < |order| ==> OrderKey(prefix, i) in r && r[OrderKey(prefix, i)] == order[i])
      && (forall k :: k in m && !EndsWith(k, "-ORDER") ==> r[k] == m[k])
    decreases |order|
  {
    if order != [] {
      var n := |order| - 1;
      var init := order[..n];
      var r := WithOrder(m, prefix, order);
      WithOrderEffect(m, prefix, init);
      forall i | 0 <= i < n
        ensures OrderKey(prefix, i) in r && r[OrderKey(prefix, i)] == order[i]
      {
        if OrderKey(prefix, i) == OrderKey(prefix, n) {
          FieldKeyInjective(prefix, i, "ORDER", n, "ORDER");
        }
      }
    }
  }

  // ---------------------------------------------------------------------------
  // The method

  /** Adding one more field to the setdefault of a form. */
  lemma SetDefaultsStep(m: PostData, stem: string, done: map<string, Json>, f: string, v: Json)
    requires f !in done
    ensures var r := SetDefaults(m, stem, done);
      SetDefaults(m, stem, done[f := v]) == if stem + f in r then r else r[stem + f := v]
  {
    var r := SetDefaults(m, stem, done);
    var r' := SetDefaults(m, stem, done[f := v]);
    var e := if stem + f in r then r else r[stem + f := v];
    assert FormKeys(stem, done[f := v]) == FormKeys(stem, done) + {stem + f};
    if stem + f in r && stem + f !in m {
      var g :| g in done && stem + f == stem + g;
      StemCancels(stem, f, g);
    }
    forall k | k in r'
      ensures k in e && r'[k] == e[k]
    {
      if k !in m {
        var g :| g in done[f := v] && k == stem + g;
        if g != f && k == stem + f {
          StemCancels(stem, f, g);
        }
      }
    }
  }

  lemma StemCancels(stem: string, f: string, g: string)
    requires stem + f == stem + g
    ensures f == g
  {
    assert f == (stem + f)[|stem|..];
    assert g == (stem + g)[|stem|..];
  }

  lemma SetDefaultsNone(m: PostData, stem: string)
    ensures SetDefaults(m, stem, map[]) == m
  {
    assert FormKeys(stem, map[]) == {};
  }

  lemma RemoveOneMore(fields: map<string, Json>, todo: set<string>, f: string)
    requires f in todo && todo <= fields.Keys
    ensures f !in fields - todo
    ensures fields - (todo - {f}) == (fields - todo)[f := fields[f]]
  {
  }

  /** The inner loop of the setdefault stage, over one form's fields in any order. */
  method SetDefaultsEach(newData: PostData, stem: string, fields: map<string, Json>) returns (r: PostData)
    ensures r == SetDefaults(newData, stem, fields)
  {
    r := newData;
    var todo := fields.Keys;
    ghost var done: map<string, Json> := map[];
    SetDefaultsNone(newData, stem);
    while todo != {}
      invariant todo <= fields.Keys && done == fields - todo
      invariant r == SetDefaults(newData, stem, done)
      decreases |todo|
    {
      var f :| f in todo;
      RemoveOneMore(fields, todo, f);
      SetDefaultsStep(newData, stem, done, f, fields[f]);
      if stem + f !in r {
        r := r[stem + f := fields[f]];
      }
      todo := todo - {f};
      done := done[f := fields[f]];
    }
    assert done == fields;
  }

  /** A delete id that `str()` cannot render makes the whole delete list fail. */
  lemma {:induction false} DeleteIdsFailure(items: seq<Json>, k: nat)
    requires k < |items| && DeleteIds(items[..k]).Ok? && PyStr(items[k]).None?
    ensures DeleteIds(items) == Err(Malformed("delete id"))
    decreases |items|
  {
    var n := |items| - 1;
    if k < n {
      assert items[..n][..k] == items[..k];
      DeleteIdsFailure(items[..n], k);
    } else {
      assert items[..n] == items[..k];
    }
  }

  /** The setdefault loop over the forms of the blob. */
  method FieldDefaultsLoop(data: PostData, prefix: string, forms: seq<map<string, Json>>) returns (newData: PostData)
    ensures newData == WithFieldDefaults(data, prefix, forms)
  {
    newData := data;
    for formId := 0 to |forms|
      invariant newData == WithFieldDefaults(data, prefix, forms[..formId])
    {
      assert forms[..formId + 1][..formId] == forms[..formId];
      newData := SetDefaultsEach(newData, FieldKeyStem(prefix, formId), forms[formId]);
    }
    assert forms[..|forms|] == forms;
  }

  /** The DELETE loop over the decoded delete list. */
  method MarkDeletedLoop(data: PostData, prefix: string, items: seq<Json>) returns (r: Result<PostData, PostError>)
    ensures DeleteIds(items).Err? ==> r == Err(DeleteIds(items).error)
    ensures DeleteIds(items).Ok? ==> r == Ok(MarkDeleted(data, prefix, DeleteIds(items).value))
  {
    var newData := data;
    ghost var ids: seq<string> := [];
    for k := 0 to |items|
      invariant DeleteIds(items[..k]) == Ok(ids)
      invariant newData == MarkDeleted(data, prefix, ids)
    {
      assert items[..k + 1][..k] == items[..k];
      var formId := PyStr(items[k]);
      if formId.None? {
        DeleteIdsFailure(items, k);
        return Err(Malformed("delete id"));
      }
      newData := newData[DeleteKey(prefix, formId.value) := JStr("on")];
      ids := ids + [formId.value];
      assert ids[..|ids| - 1] == ids[..|ids| - 1];
    }
    assert items[..|items|] == items;
    return Ok(newData);
  }

  /** The ORDER loop over the decoded order list. */
  method WithOrderLoop(data: PostData, prefix: string, order: seq<Json>) returns (newData: PostData)
    ensures newData == WithOrder(data, prefix, order)
  {
    newData := data;
    for formId := 0 to |order|
      invariant newData == WithOrder(data, prefix, order[..formId])
    {
      assert order[..formId + 1][..formId] == order[..formId];
      newData := newData[OrderKey(prefix, formId) := order[formId]];
    }
    assert order[..|order|] == order;
  }

  /** `process_post_data`: unpack the blob into setdefault field keys, mark every listed id
      for deletion and, when the formset can be ordered, write every order value. */
  method ProcessPostData(data: PostData, prefix: string, canOrder: bool) returns (r: Result<PostData, PostError>)
    ensures prefix !in data ==> r == Ok(data)
    ensures r == Processed(data, prefix, canOrder)
  {
    var newData := data;

    if prefix in newData {
      var dataJson := DecodeForms(newData[prefix]);
      if dataJson.Err? {
        return Err(dataJson.error);
      }
      newData := FieldDefaultsLoop(newData, prefix, dataJson.value);

      var deleteKey := prefix + "-DELETE";
      if deleteKey !in newData {
        return Err(KeyError(deleteKey));
      }
      var deleteJson := newData[deleteKey];
      if !deleteJson.JArr? {
        return Err(Malformed("delete list"));
      }
      var deleted := MarkDeletedLoop(newData, prefix, deleteJson.items);
      if deleted.Err? {
        return deleted;
      }
      newData := deleted.value;

      if canOrder {
        var orderKey := prefix + "-ORDER";
        if orderKey !in newData {
          return Err(KeyError(orderKey));
        }
        var orderJson := newData[orderKey];
        if !orderJson.JArr? {
          return Err(Malformed("order list"));
        }
        newData := WithOrderLoop(newData, prefix, orderJson.items);
      }
    }

    return Ok(newData);
  }

  // ---------------------------------------------------------------------------
  // What process_post_data promises

  /** No key of the blob's forms is the name of the delete list or the order list: after
      the prefix and a dash comes the form index, whose first character is a digit. */
  lemma FieldKeysAvoidLists(prefix: string, forms: seq<map<string, Json>>)
    ensures prefix + "-DELETE" !in AllFieldKeys(prefix, forms)
    ensures prefix + "-ORDER" !in AllFieldKeys(prefix, forms)
  {
    forall k | k in AllFieldKeys(prefix, forms)
      ensures k != prefix + "-DELETE" && k != prefix + "-ORDER"
    {
      AllFieldKeysOf(prefix, forms, k);
      var i, f :| 0 <= i < |forms| && f in forms[i] && k == FieldKey(prefix, i, f);
      assert k[|prefix| + 1] == NatToString(i)[0];
      assert IsDigit(k[|prefix| + 1]);
    }
  }

  /** The blob and the delete and order lists, as `process_post_data` reads them. */
  predicate WellFormedPost(data: PostData, prefix: string, canOrder: bool) {
    Processed(data, prefix, canOrder).Ok? && prefix in data
  }

  /** Submitted values are never overwritten, except by the DELETE and ORDER entries the
      widget itself manages. */
  lemma ProcessedKeepsSubmitted(data: PostData, prefix: string, canOrder: bool)
    requires Processed(data, prefix, canOrder).Ok?
    ensures var r := Processed(data, prefix, canOrder).value;
      && data.Keys <= r.Keys
      && forall k :: k in data && !EndsWith(k, "-DELETE") && !EndsWith(k, "-ORDER") ==> r[k] == data[k]
  {
    if prefix in data {
      var forms := DecodeForms(data[prefix]).value;
      var withFields := WithFieldDefaults(data, prefix, forms);
      WithFieldDefaultsEffect(data, prefix, forms);
      var ids := DeleteIds(withFields[prefix + "-DELETE"].items).value;
      var withDeletes := MarkDeleted(withFields, prefix, ids);
      MarkDeletedEffect(withFields, prefix, ids);
      if canOrder {
        WithOrderEffect(withDeletes, prefix, withDeletes[prefix + "-ORDER"].items);
      }
    }
  }

  /** Every field of every form in the blob gets its key; a field the browser did not
      submit gets the blob's value (unless its key is one the widget manages). */
  lemma ProcessedFillsFields(data: PostData, prefix: string, canOrder: bool, i: nat, f: string)
    requires WellFormedPost(data, prefix, canOrder)
    requires i < |DecodeForms(data[prefix]).value| && f in DecodeForms(data[prefix]).value[i]
    ensures var r := Processed(data, prefix, canOrder).value;
      var key := FieldKey(prefix, i, f);
      && key in r
      && (key !in data && !EndsWith(key, "-DELETE") && !EndsWith(key, "-ORDER") ==>
            r[key] == DecodeForms(data[prefix]).value[i][f])
  {
    var forms := DecodeForms(data[prefix]).value;
    var withFields := WithFieldDefaults(data, prefix, forms);
    WithFieldDefaultsEffect(data, prefix, forms);
    var ids := DeleteIds(withFields[prefix + "-DELETE"].items).value;
    var withDeletes := MarkDeleted(withFields, prefix, ids);
    MarkDeletedEffect(withFields, prefix, ids);
    if canOrder {
      WithOrderEffect(withDeletes, prefix, withDeletes[prefix + "-ORDER"].items);
    }
  }

  /** Every id of the submitted delete list gets `'on'` under its DELETE key. */
  lemma ProcessedMarksDeletions(data: PostData, prefix: string, canOrder: bool)
    requires WellFormedPost(data, prefix, canOrder)
    ensures prefix + "-DELETE" in data && data[prefix + "-DELETE"].JArr?
    ensures DeleteIds(data[prefix + "-DELETE"].items).Ok?
    ensures var r := Processed(data, prefix, canOrder).value;
      forall id :: id in DeleteIds(data[prefix + "-DELETE"].items).value ==>
        DeleteKey(prefix, id) in r && r[DeleteKey(prefix, id)] == JStr("on")
  {
    var deleteKey := prefix + "-DELETE";
    var forms := DecodeForms(data[prefix]).value;
    var withFields := WithFieldDefaults(data, prefix, forms);
    WithFieldDefaultsEffect(data, prefix, forms);
    FieldKeysAvoidLists(prefix, forms);
    assert withFields[deleteKey] == data[deleteKey];
    var ids := DeleteIds(withFields[deleteKey].items).value;
    var withDeletes := MarkDeleted(withFields, prefix, ids);
    MarkDeletedEffect(withFields, prefix, ids);
    if canOrder {
      forall id | id in ids
        ensures !EndsWith(DeleteKey(prefix, id), "-ORDER")
      {
        SuffixesExclusive(DeleteKey(prefix, id));
      }
      WithOrderEffect(withDeletes, prefix, withDeletes[prefix + "-ORDER"].items);
    }
  }

  /** When the formset can be ordered, index i of the submitted order list is written
      under `prefix-i-ORDER`; otherwise the only ORDER keys are submitted ones or fields
      of the blob. */
  lemma ProcessedWritesOrder(data: PostData, prefix: string, canOrder: bool)
    requires WellFormedPost(data, prefix, canOrder)
    ensures canOrder ==> prefix + "-ORDER" in data && data[prefix + "-ORDER"].JArr?
    ensures var r := Processed(data, prefix, canOrder).value;
      && (canOrder ==>
            var order := data[prefix + "-ORDER"].items;
            forall i :: 0 <= i < |order| ==> OrderKey(prefix, i) in r && r[OrderKey(prefix, i)] == order[i])
      && (!canOrder ==>
            forall k :: k in r && EndsWith(k, "-ORDER") ==>
              k in data || k in AllFieldKeys(prefix, DecodeForms(data[prefix]).value))
  {
    var deleteKey, orderKey := prefix + "-DELETE", prefix + "-ORDER";
    var forms := DecodeForms(data[prefix]).value;
    var withFields := WithFieldDefaults(data, prefix, forms);
    WithFieldDefaultsEffect(data, prefix, forms);
    FieldKeysAvoidLists(prefix, forms);
    var ids := DeleteIds(withFields[deleteKey].items).value;
    var withDeletes := MarkDeleted(withFields, prefix, ids);
    MarkDeletedEffect(withFields, prefix, ids);
    if canOrder {
      assert !EndsWith(orderKey, "-DELETE") by {
        assert orderKey[|orderKey| - 1] == 'R';
      }
      assert withDeletes[orderKey] == data[orderKey];
      WithOrderEffect(withDeletes, prefix, withDeletes[orderKey].items);
    } else {
      forall id | id in ids
        ensures !EndsWith(DeleteKey(prefix, id), "-ORDER")
      {
        SuffixesExclusive(DeleteKey(prefix, id));
      }
    }
  }

  // ---------------------------------------------------------------------------
  // to_json

  /** What `to_json` reads of one bound form: the instance's text and database id, the
      field values, the chooser extras and the validation errors (both computed by Django
      and passed in). */
  datatype BoundForm = BoundForm(
    instanceAsStr: string,
    instanceId: Option<int>,
    values: map<string, Json>,
    extra: map<string, Json>,
    errors: Json)

  function FormJson(i: nat, form: BoundForm): Json {
    JObj(map[
      "id" := JNum(i),
      "instanceAsStr" := JStr(form.instanceAsStr),
      "fields" := JObj(form.values),
      "extra" := JObj(form.extra),
      "errors" := form.errors,
      "position" := JNum(i + 1),
      "forceFormRender" := JBool(form.instanceId.None?)])
  }

  /** `to_json`: the forms in formset order, and the empty form's field values. */
  function ToJson(forms: seq<BoundForm>, emptyValues: map<string, Json>): Json {
    JObj(map[
      "forms" := JArr(seq(|forms|, i requires 0 <= i < |forms| => FormJson(i, forms[i]))),
      "emptyForm" := JObj(map["fields" := JObj(emptyValues)])])
  }

  /** The i-th form gets id i and position i + 1 (so the widget starts from ids equal to
      indices and positions 1..n), its field values, and `forceFormRender` exactly when
      its instance has no database id. */
  lemma ToJsonShape(forms: seq<BoundForm>, emptyValues: map<string, Json>, i: nat)
    requires i < |forms|
    ensures var blob := ToJson(forms, emptyValues);
      && blob.JObj? && "forms" in blob.members && blob.members["forms"].JArr?
      && |blob.members["forms"].items| == |forms|
      && var entry := blob.members["forms"].items[i];
      && entry.JObj?
      && entry.members["id"] == JNum(i) && entry.members["position"] == JNum(i + 1)
      && entry.members["fields"] == JObj(forms[i].values)
      && (entry.members["forceFormRender"] == JBool(true) <==> forms[i].instanceId.None?)
  {
  }

  /** Reading the `fields` of a list of form objects. */
  lemma {:induction false} FieldsOfObjects(items: seq<Json>, values: seq<map<string, Json>>)
    requires |items| == |values|
    requires forall i :: 0 <= i < |items| ==>
      items[i].JObj? && "fields" in items[i].members && items[i].members["fields"] == JObj(values[i])
    ensures FieldsOf(items) == Ok(values)
    decreases |items|
  {
    if items != [] {
      var n := |items| - 1;
      FieldsOfObjects(items[..n], values[..n]);
      assert values == values[..n] + [values[n]];
    }
  }

  /** `process_post_data` reads back exactly the field values `to_json` wrote. */
  lemma ToJsonRoundTrip(forms: seq<BoundForm>, emptyValues: map<string, Json>)
    ensures DecodeForms(ToJson(forms, emptyValues)) == Ok(seq(|forms|, i requires 0 <= i < |forms| => forms[i].values))
  {
    var items := ToJson(forms, emptyValues).members["forms"].items;
    FieldsOfObjects(items, seq(|forms|, i requires 0 <= i < |forms| => forms[i].values));
  }

  /** With the blob `to_json` rendered, every field of every form the browser did not
      submit comes back with its rendered value. */
  lemma UnsubmittedFieldsRestored(forms: seq<BoundForm>, emptyValues: map<string, Json>,
                                  submitted: PostData, prefix: string, canOrder: bool, i: nat, f: string)
    requires WellFormedPost(submitted[prefix := ToJson(forms, emptyValues)], prefix, canOrder)
    requires i < |forms| && f in forms[i].values
    requires FieldKey(prefix, i, f) !in submitted && FieldKey(prefix, i, f) != prefix
    requires !EndsWith(FieldKey(prefix, i, f), "-DELETE") && !EndsWith(FieldKey(prefix, i, f), "-ORDER")
    ensures var r := Processed(submitted[prefix := ToJson(forms, emptyValues)], prefix, canOrder).value;
      FieldKey(prefix, i, f) in r && r[FieldKey(prefix, i, f)] == forms[i].values[f]
  {
    var data := submitted[prefix := ToJson(forms, emptyValues)];
    ToJsonRoundTrip(forms, emptyValues);
    ProcessedFillsFields(data, prefix, canOrder, i, f);
  }

  // ---------------------------------------------------------------------------
  // The legacy to_json

  /** What the legacy `to_json` reads of one bound form: the instance's `name`, the title
      of its linked page if it has one, the field values and the errors. */
  datatype LegacyBoundForm = LegacyBoundForm(
    name: Json,
    linkTitle: Option<Json>,
    values: map<string, Json>,
    errors: Json)

  /** The legacy `get_form_extra_data`: the linked page's title, when there is a link. */
  function LinkExtra(linkTitle: Option<Json>): map<string, Json> {
    if linkTitle.Some? then map["link" := JObj(map["title" := linkTitle.value])] else map[]
  }

  function LegacyFormJson(i: nat, form: LegacyBoundForm): Json {
    JObj(map[
      "id" := JNum(i),
      "summaryText" := form.name,
      "fields" := JObj(form.values),
      "extra" := JObj(LinkExtra(form.linkTitle)),
      "errors" := form.errors,
      "position" := JNum(i)])
  }

  function LegacyToJson(forms: seq<LegacyBoundForm>, emptyValues: map<string, Json>): Json {
    JObj(map[
      "summaryTextField" := JStr("name"),
      "forms" := JArr(seq(|forms|, i requires 0 <= i < |forms| => LegacyFormJson(i, forms[i]))),
      "emptyForm" := JObj(map["summaryText" := JStr("New case"), "fields" := JObj(emptyValues)])])
  }

  /** The i-th legacy form gets id i and the 0-based position i; its extra data names the
      linked page exactly when there is one. */
  lemma LegacyToJsonShape(forms: seq<LegacyBoundForm>, emptyValues: map<string, Json>, i: nat)
    requires i < |forms|
    ensures var blob := LegacyToJson(forms, emptyValues);
      && blob.JObj? && "forms" in blob.members && blob.members["forms"].JArr?
      && |blob.members["forms"].items| == |forms|
      && var entry := blob.members["forms"].items[i];
      && entry.JObj?
      && entry.members["id"] == JNum(i) && entry.members["position"] == JNum(i)
      && entry.members["extra"].JObj?
      && ("link" in entry.members["extra"].members <==> forms[i].linkTitle.Some?)
      && (forms[i].linkTitle.Some? ==>
            entry.members["extra"].members["link"] == JObj(map["title" := forms[i].linkTitle.value]))
  {
  }

  /** The legacy `process_post_data` reads back exactly the field values the legacy
      `to_json` wrote. */
  lemma LegacyToJsonRoundTrip(forms: seq<LegacyBoundForm>, emptyValues: map<string, Json>)
    ensures DecodeForms(LegacyToJson(forms, emptyValues)) == Ok(seq(|forms|, i requires 0 <= i < |forms| => forms[i].values))
  {
    var items := LegacyToJson(forms, emptyValues).members["forms"].items;
    FieldsOfObjects(items, seq(|forms|, i requires 0 <= i < |forms| => forms[i].values));
  }
}

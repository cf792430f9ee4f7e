/** The card header of the panel's page template: `renderCardHeader` picks a value by the
    configured mode and, unless the mode says the value is already safe, HTML-escapes it
    with a chain of five global replacements. */
module CardHeader {
  import opened Wrappers
  import opened Types
  import opened Strings

  /** Where the header comes from, as the panel was configured:
      - `FromField`: the value of the named field of the card's form;
      - `FromJs` / `FromJsSafe`: the value of a developer-supplied expression, passed in
        already evaluated (`None` for `null` or `undefined`);
      - `FromInstance`: the server's text for the instance, when nothing was configured. */
  datatype HeaderSource =
    | FromField(fieldName: string)
    | FromJs(evaluated: Option<string>)
    | FromJsSafe(evaluated: Option<string>)
    | FromInstance

  /** `{__html: value}`, the object React inserts as raw HTML. */
  datatype Header = Header(html: string)

  // ---------------------------------------------------------------------------
  // The escaper and its inverse

  /** The replacement chain, `&` first so that the entities the later steps introduce are
      not escaped again. */
  function Escape(s: string): string {
    var amp := ReplaceAll(s, "&", "&amp;");
    var lt := ReplaceAll(amp, "<", "&lt;");
    var gt := ReplaceAll(lt, ">", "&gt;");
    var quot := ReplaceAll(gt, "\"", "&quot;");
    ReplaceAll(quot, "'", "&#039;")
  }

  /** What one character becomes. */
  function EscapeChar(c: char): string {
    if c == '&' then "&amp;"
    else if c == '<' then "&lt;"
    else if c == '>' then "&gt;"
    else if c == '"' then "&quot;"
    else if c == '\'' then "&#039;"
    else [c]
  }

  /** Character-by-character escaping, the reference the chain is proved against. */
  function EscapeEach(s: string): string
    decreases |s|
  {
    if s == [] then [] else EscapeChar(s[0]) + EscapeEach(s[1..])
  }

  /** HTML entity decoding of the five entities the chain produces; any other text is
      kept as it is. */
  function Unescape(s: string): string
    decreases |s|
  {
    if s == [] then []
    else if StartsWith(s, "&amp;") then "&" + Unescape(s[5..])
    else if StartsWith(s, "&lt;") then "<" + Unescape(s[4..])
    else if StartsWith(s, "&gt;") then ">" + Unescape(s[4..])
    else if StartsWith(s, "&quot;") then "\"" + Unescape(s[6..])
    else if StartsWith(s, "&#039;") then "'" + Unescape(s[6..])
    else [s[0]] + Unescape(s[1..])
  }

  /** The chain distributes over concatenation, each step replacing a single character. */
  lemma EscapeConcat(a: string, b: string)
    ensures Escape(a + b) == Escape(a) + Escape(b)
  {
    var amp := ReplaceAll(a, "&", "&amp;");
    var lt := ReplaceAll(amp, "<", "&lt;");
    var gt := ReplaceAll(lt, ">", "&gt;");
    var quot := ReplaceAll(gt, "\"", "&quot;");
    var amp' := ReplaceAll(b, "&", "&amp;");
    var lt' := ReplaceAll(amp', "<", "&lt;");
    var gt' := ReplaceAll(lt', ">", "&gt;");
    var quot' := ReplaceAll(gt', "\"", "&quot;");
    ReplaceCharConcat(a, b, '&', "&amp;");
    ReplaceCharConcat(amp, amp', '<', "&lt;");
    ReplaceCharConcat(lt, lt', '>', "&gt;");
    ReplaceCharConcat(gt, gt', '"', "&quot;");
    ReplaceCharConcat(quot, quot', '\'', "&#039;");
  }

  /** Applying a one-character replacement to a one-character string. */
  lemma ReplaceOneChar(c: char, d: char, rep: string)
    ensures ReplaceAll([c], [d], rep) == if c == d then rep else [c]
  {
    assert [c][1..] == [];
  }

  /** The four steps after `&`, on a text that holds none of their characters. */
  lemma LaterStepsAbsent(t: string)
    requires '<' !in t && '>' !in t && '"' !in t && '\'' !in t
    ensures ReplaceAll(ReplaceAll(ReplaceAll(ReplaceAll(t, "<", "&lt;"), ">", "&gt;"), "\"", "&quot;"), "'", "&#039;") == t
  {
    ReplaceCharAbsent(t, '<', "&lt;");
    ReplaceCharAbsent(t, '>', "&gt;");
    ReplaceCharAbsent(t, '"', "&quot;");
    ReplaceCharAbsent(t, '\'', "&#039;");
  }

  /** On one character the chain gives the character's entity (or the character). */
  lemma EscapeSingle(c: char)
    ensures Escape([c]) == EscapeChar(c)
  {
    ReplaceOneChar(c, '&', "&amp;");
    if c == '&' {
      LaterStepsAbsent("&amp;");
    } else {
      ReplaceOneChar(c, '<', "&lt;");
      if c == '<' {
        EscapeSingleAfterLt();
      } else {
        EscapeSingleAfterLtKept(c);
      }
    }
  }

  lemma EscapeSingleAfterLt()
    ensures ReplaceAll(ReplaceAll(ReplaceAll("&lt;", ">", "&gt;"), "\"", "&quot;"), "'", "&#039;") == "&lt;"
  {
    ReplaceCharAbsent("&lt;", '>', "&gt;");
    ReplaceCharAbsent("&lt;", '"', "&quot;");
    ReplaceCharAbsent("&lt;", '\'', "&#039;");
  }

  lemma EscapeSingleAfterLtKept(c: char)
    requires c != '&' && c != '<'
    ensures ReplaceAll(ReplaceAll(ReplaceAll([c], ">", "&gt;"), "\"", "&quot;"), "'", "&#039;") == EscapeChar(c)
  {
    ReplaceOneChar(c, '>', "&gt;");
    if c == '>' {
      ReplaceCharAbsent("&gt;", '"', "&quot;");
      ReplaceCharAbsent("&gt;", '\'', "&#039;");
    } else {
      ReplaceOneChar(c, '"', "&quot;");
      if c == '"' {
        ReplaceCharAbsent("&quot;", '\'', "&#039;");
      } else {
        ReplaceOneChar(c, '\'', "&#039;");
      }
    }
  }

  /** The replacement chain escapes each character on its own. */
  lemma {:induction false} EscapeIsCharwise(s: string)
    ensures Escape(s) == EscapeEach(s)
    decreases |s|
  {
    if s == [] {
      assert ReplaceAll([], "&", "&amp;") == [];
    } else {
      assert s == [s[0]] + s[1..];
      EscapeConcat([s[0]], s[1..]);
      EscapeSingle(s[0]);
      EscapeIsCharwise(s[1..]);
    }
  }

  /** Decoding an entity, followed by anything, gives its character and goes on with the
      rest; `skipped` are the entities `Unescape` tries first. */
  lemma UnescapeEntity(entity: string, c: char, rest: string)
    requires (entity, c) in [("&amp;", '&'), ("&lt;", '<'), ("&gt;", '>'), ("&quot;", '"'), ("&#039;", '\'')]
    ensures Unescape(entity + rest) == [c] + Unescape(rest)
  {
    var s := entity + rest;
    assert s[..|entity|] == entity;
    assert s[|entity|..] == rest;
    assert entity != "&amp;" ==> s[1] != 'a';
    assert entity != "&lt;" ==> s[1] != 'l';
    assert entity != "&gt;" ==> s[1] != 'g';
    assert entity != "&quot;" ==> s[1] != 'q';
  }

  /** A character without an entity decodes as itself. */
  lemma UnescapePlain(c: char, rest: string)
    requires c != '&'
    ensures Unescape([c] + rest) == [c] + Unescape(rest)
  {
    var s := [c] + rest;
    assert s[1..] == rest;
    forall entity | entity in ["&amp;", "&lt;", "&gt;", "&quot;", "&#039;"]
      ensures !StartsWith(s, entity)
    {
      FirstCharDiffers(s, entity);
    }
  }

  lemma FirstCharDiffers(s: string, p: string)
    requires |s| > 0 && |p| > 0 && s[0] != p[0]
    ensures !StartsWith(s, p)
  {
    if |p| <= |s| {
      assert s[..|p|][0] == s[0];
    }
  }

  /** Decoding the escape of one character, followed by anything, gives the character back
      and goes on with the rest. */
  lemma UnescapeStep(c: char, rest: string)
    ensures Unescape(EscapeChar(c) + rest) == [c] + Unescape(rest)
  {
    if c == '&' {
      UnescapeEntity("&amp;", c, rest);
    } else if c == '<' {
      UnescapeEntity("&lt;", c, rest);
    } else if c == '>' {
      UnescapeEntity("&gt;", c, rest);
    } else if c == '"' {
      UnescapeEntity("&quot;", c, rest);
    } else if c == '\'' {
      UnescapeEntity("&#039;", c, rest);
    } else {
      UnescapePlain(c, rest);
    }
  }

  /** Decoding the entities gives back the original text: the escaper loses nothing. */
  lemma {:induction false} UnescapeEscape(s: string)
    ensures Unescape(Escape(s)) == s
    decreases |s|
  {
    EscapeIsCharwise(s);
    if s != [] {
      UnescapeStep(s[0], EscapeEach(s[1..]));
      UnescapeEscape(s[1..]);
      EscapeIsCharwise(s[1..]);
    }
  }

  /** Different texts escape differently. */
  lemma EscapeInjective(s: string, t: string)
    requires Escape(s) == Escape(t)
    ensures s == t
  {
    UnescapeEscape(s);
    UnescapeEscape(t);
  }

  /** The characters the escaper must not let through. */
  predicate IsMarkup(c: char) {
    c in "<>\"'"
  }

  /** Character-by-character escaping emits no markup character. */
  lemma {:induction false} EscapeEachLeavesNoMarkup(s: string)
    ensures forall i :: 0 <= i < |EscapeEach(s)| ==> !IsMarkup(EscapeEach(s)[i])
    decreases |s|
  {
    if s != [] {
      var head, tail := EscapeChar(s[0]), EscapeEach(s[1..]);
      EscapeEachLeavesNoMarkup(s[1..]);
      assert forall i :: 0 <= i < |head| ==> !IsMarkup(head[i]);
      forall i | 0 <= i < |head + tail|
        ensures !IsMarkup((head + tail)[i])
      {
        if i >= |head| {
          assert (head + tail)[i] == tail[i - |head|];
        }
      }
    }
  }

  /** The escaped text holds no `<`, `>`, `"` or `'`. */
  lemma EscapeLeavesNoMarkup(s: string)
    ensures forall i :: 0 <= i < |Escape(s)| ==> Escape(s)[i] !in "<>\"'"
  {
    EscapeIsCharwise(s);
    EscapeEachLeavesNoMarkup(s);
  }

  // ---------------------------------------------------------------------------
  // Choosing the header

  /** The value before the null check: in field mode the named field, replaced by the
      new-card text on a new card; in the expression modes the evaluated expression; in
      the default mode the instance text, or the new-card text when the server sent none. */
  function SelectValue(source: HeaderSource, form: Form, newCardHeader: string): (v: Option<string>)
    ensures source.FromField? && form.isNew ==> v == Some(newCardHeader)
    ensures source.FromField? && !form.isNew ==>
      (v.Some? <==> source.fieldName in form.fields)
      && (v.Some? ==> v.value == form.fields[source.fieldName])
    ensures source.FromInstance? ==>
      && v.Some?
      && (form.instanceAsStr.None? ==> v.value == newCardHeader)
      && (form.instanceAsStr.Some? ==> v.value == form.instanceAsStr.value)
  {
    match source
    case FromField(name) =>
      if form.isNew then Some(newCardHeader)
      else if name in form.fields then Some(form.fields[name])
      else None
    case FromJs(evaluated) => evaluated
    case FromJsSafe(evaluated) => evaluated
    case FromInstance => Some(form.instanceAsStr.GetOr(newCardHeader))
  }

  /** Every mode escapes, except the one whose expression is declared safe. */
  predicate NeedsEscaping(source: HeaderSource) {
    !source.FromJsSafe?
  }

  /** `renderCardHeader`: a missing value gives the empty header; otherwise the value,
      escaped when the mode asks for it. */
  function RenderCardHeader(source: HeaderSource, form: Form, newCardHeader: string): (h: Header)
    ensures SelectValue(source, form, newCardHeader).None? ==> h.html == ""
    ensures SelectValue(source, form, newCardHeader).Some? && !NeedsEscaping(source) ==>
      h.html == SelectValue(source, form, newCardHeader).value
    ensures SelectValue(source, form, newCardHeader).Some? && NeedsEscaping(source) ==>
      Unescape(h.html) == SelectValue(source, form, newCardHeader).value
      && forall i :: 0 <= i < |h.html| ==> h.html[i] !in "<>\"'"
  {
    var value := SelectValue(source, form, newCardHeader);
    if value.None? then Header("")
    else if NeedsEscaping(source) then
      UnescapeEscape(value.value);
      EscapeLeavesNoMarkup(value.value);
      Header(Escape(value.value))
    else Header(value.value)
  }

  /** In every escaping mode the header never carries markup of its own, whatever the
      form holds. */
  lemma EscapedHeaderHasNoMarkup(source: HeaderSource, form: Form, newCardHeader: string)
    requires NeedsEscaping(source)
    ensures var h := RenderCardHeader(source, form, newCardHeader);
      forall i :: 0 <= i < |h.html| ==> h.html[i] !in "<>\"'"
  {
  }

  /** A new card shows the (escaped) new-card text in field mode, and so does a card whose
      instance has no text in the default mode. */
  lemma NewCardHeader(source: HeaderSource, form: Form, newCardHeader: string)
    requires (source.FromField? && form.isNew) || (source.FromInstance? && form.instanceAsStr.None?)
    ensures RenderCardHeader(source, form, newCardHeader).html == Escape(newCardHeader)
  {
  }
}

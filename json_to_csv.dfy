/**
 * The CSV row serialiser of MongoTools/CSVReflection/JsonToCSV.cs: the header line
 * (`Fields`), one line per document (`BsonToCSV`) and its helpers `BsonToType`,
 * `BsonValueToString` and `ReachInnerDocument`.
 *
 * A document is its sequence of elements; looking a name up finds the first
 * element with that name, as the document's indexer does. Doubles and dates are not
 * part of this model. An exception escaping `BsonToCSV` is the outcome `Fails`.
 */
module CsvExport {
  import opened Wrappers
  import opened Text

  /** The BSON values the serialiser distinguishes. */
  datatype Bson =
    | Null
    | Str(s: string)
    | Int(i: int)
    | Bool(b: bool)
    | ObjectId(hex: string)
    | Arr(items: seq<Bson>)
    | Doc(elements: seq<Element>)

  datatype Element = Element(name: string, value: Bson)

  /** A configured column (`Field`) and the export layout (`ExportConfig`). */
  datatype Field = Field(name: string, mandatory: bool)

  datatype ExportConfig = ExportConfig(id: string, validateFieldTypes: bool, delimiter: string,
                                       listDelimiter: string, fields: seq<Field>)

  /** The line for one document: its text, null (a mandatory field is missing), or an exception. */
  datatype CsvLine = Line(text: string) | NoLine | Fails

  /** `document[name]`: the first element with that name. */
  function Get(elements: seq<Element>, name: string): Option<Bson>
    decreases |elements|
  {
    if elements == [] then None
    else if elements[0].name == name then Some(elements[0].value)
    else Get(elements[1..], name)
  }

  /** The configured field names, in order. */
  function Names(fields: seq<Field>): (names: seq<string>)
    ensures |names| == |fields| && forall k :: 0 <= k < |fields| ==> names[k] == fields[k].name
  {
    seq(|fields|, k requires 0 <= k < |fields| => fields[k].name)
  }

  /** `Fields`: the header line, the field names joined by the delimiter. */
  function Fields(config: ExportConfig): string {
    Join(Names(config.fields), config.delimiter)
  }

  /**
   * With a one-character delimiter that no field name holds, the header splits
   * back into exactly the configured names.
   */
  lemma HeaderSplitsIntoNames(config: ExportConfig)
    requires |config.delimiter| == 1 && |config.fields| >= 1
    requires forall k :: 0 <= k < |config.fields| ==> config.delimiter[0] !in config.fields[k].name
    ensures Split(Fields(config), {config.delimiter[0]}) == Names(config.fields)
  {
    var d := config.delimiter[0];
    assert config.delimiter == [d];
    SplitJoin(Names(config.fields), d);
  }

  /** `bsonValue.AsString` on each element: the strings, or nothing when one is not a string. */
  function Strings(items: seq<Bson>): Option<seq<string>>
    decreases |items|
  {
    if items == [] then Some([])
    else
      var init := Strings(items[..|items| - 1]);
      var last := items[|items| - 1];
      if init.None? || !last.Str? then None else Some(init.value + [last.s])
  }

  /**
   * `BsonValueToString`: null is empty, an array of strings is joined by the list
   * delimiter, an ObjectId is its hexadecimal text, integers their decimal text,
   * booleans "True" or "False", a string itself; anything else fails the cast.
   */
  function ValueText(v: Bson, listDelimiter: string): Option<string> {
    match v
    case Null => Some("")
    case Arr(items) =>
      var strings := Strings(items);
      if strings.None? then None else Some(Join(strings.value, listDelimiter))
    case ObjectId(hex) => Some(hex)
    case Int(i) => Some(IntToString(i))
    case Bool(b) => Some(if b then "True" else "False")
    case Str(s) => Some(s)
    case Doc(_) => None
  }

  /** `BsonValueToString` of each element, or nothing when one fails. */
  function ElementTexts(items: seq<Bson>, listDelimiter: string): Option<seq<string>>
    decreases |items|
  {
    if items == [] then Some([])
    else
      var init := ElementTexts(items[..|items| - 1], listDelimiter);
      var last := ValueText(items[|items| - 1], listDelimiter);
      if init.None? || last.None? then None else Some(init.value + [last.value])
  }

  /** `BsonToType`: an array's elements, each as `BsonValueToString` gives it, joined; anything else by itself. */
  function TypeText(v: Bson, listDelimiter: string): Option<string> {
    if v.Arr? then
      var texts := ElementTexts(v.items, listDelimiter);
      if texts.None? then None else Some(Join(texts.value, listDelimiter))
    else ValueText(v, listDelimiter)
  }

  /** Where `ReachInnerDocument` stands after some levels: the current document and the last value read. */
  datatype Drill = Drill(doc: seq<Element>, value: Option<Bson>)

  /**
   * The drill-down over the levels: each level is read from the current document; a
   * document value becomes the current document, any other value leaves it as it is;
   * a missing level ends the walk.
   */
  function DrillDown(root: seq<Element>, levels: seq<string>): Option<Drill>
    decreases |levels|
  {
    if levels == [] then Some(Drill(root, None))
    else
      var before := DrillDown(root, levels[..|levels| - 1]);
      if before.None? then None
      else
        var v := Get(before.value.doc, levels[|levels| - 1]);
        if v.None? then None
        else Some(Drill(if v.value.Doc? then v.value.elements else before.value.doc, v))
  }

  function LastSegment(fieldName: string): string {
    var parts := Split(fieldName, {'.'});
    parts[|parts| - 1]
  }

  /**
   * `ReachInnerDocument`: a document holding only the value of the last level under
   * the last segment's name, or null when a level is missing.
   */
  function ReachInner(root: seq<Element>, fieldName: string): Option<seq<Element>> {
    var drilled := DrillDown(root, Split(fieldName, {'.'}));
    if drilled.None? then None
    else if drilled.value.value.None? then Some([])
    else Some([Element(LastSegment(fieldName), drilled.value.value.value)])
  }

  /** A column: its text, a missing mandatory field, or an exception. */
  datatype Column = Value(text: string) | Abort | Throw

  /**
   * The value of one field before the delimiter is removed: a dotted name is read
   * from the document `ReachInnerDocument` returns, under its last segment; a
   * missing field aborts the line when mandatory and is empty otherwise.
   */
  function RawColumn(config: ExportConfig, doc: seq<Element>, field: Field): Column {
    var dotted := '.' in field.name;
    var aux := if dotted then ReachInner(doc, field.name) else Some(doc);
    var name := if dotted then LastSegment(field.name) else field.name;
    if aux.None? then Throw
    else if Get(aux.value, name).None? then (if field.mandatory then Abort else Value(""))
    else
      var text := TypeText(Get(aux.value, name).value, config.listDelimiter);
      if text.None? then Throw else Value(text.value)
  }

  /** `fieldValue.Replace(Delimiter, "")`, which throws for an empty delimiter. */
  function Clean(config: ExportConfig, c: Column): Column {
    if !c.Value? then c
    else if config.delimiter == [] then Throw
    else Value(ReplaceAll(c.text, config.delimiter, ""))
  }

  function FieldColumn(config: ExportConfig, doc: seq<Element>, field: Field): Column {
    Clean(config, RawColumn(config, doc, field))
  }

  /** The columns of some fields, or the first column that stops the line. */
  datatype Columns = Texts(values: seq<string>) | Stop(column: Column)

  function ColumnsOf(config: ExportConfig, doc: seq<Element>, fields: seq<Field>): Columns
    decreases |fields|
  {
    if fields == [] then Texts([])
    else
      var init := ColumnsOf(config, doc, fields[..|fields| - 1]);
      if init.Stop? then init
      else
        var c := FieldColumn(config, doc, fields[|fields| - 1]);
        if c.Value? then Texts(init.values + [c.text]) else Stop(c)
  }

  /** `BsonToCSV`: the columns joined by the delimiter, null, or an exception. */
  function Row(config: ExportConfig, doc: seq<Element>): CsvLine {
    var cs := ColumnsOf(config, doc, config.fields);
    if cs.Texts? then Line(Join(cs.values, config.delimiter))
    else if cs.column == Abort then NoLine
    else Fails
  }

  /** The columns of one more field: its column is added, or stops the line. */
  lemma ColumnsStep(config: ExportConfig, doc: seq<Element>, fields: seq<Field>, k: nat)
    requires k < |fields| && ColumnsOf(config, doc, fields[..k]).Texts?
    ensures var c := FieldColumn(config, doc, fields[k]);
      ColumnsOf(config, doc, fields[..k + 1]) ==
        if c.Value? then Texts(ColumnsOf(config, doc, fields[..k]).values + [c.text]) else Stop(c)
  {
    PrefixSnoc(fields, k);
  }

  lemma PrefixSnoc<T>(a: seq<T>, k: int)
    requires 0 <= k < |a|
    ensures a[..k + 1][..k] == a[..k] && a[..k + 1][k] == a[k]
  {
  }

  lemma PrefixAll<T>(a: seq<T>)
    ensures a[..|a|] == a
  {
  }

  lemma PrefixOfInit<T>(a: seq<T>, k: int)
    requires 0 <= k < |a|
    ensures a[..|a| - 1][..k] == a[..k]
  {
  }

  lemma {:induction false} StringsFailureSticks(items: seq<Bson>, k: nat)
    requires k <= |items| && Strings(items[..k]).None?
    ensures Strings(items).None?
    decreases |items|
  {
    if k == |items| {
      PrefixAll(items);
    } else {
      PrefixOfInit(items, k);
      StringsFailureSticks(items[..|items| - 1], k);
    }
  }

  lemma {:induction false} ElementTextsFailureSticks(items: seq<Bson>, listDelimiter: string, k: nat)
    requires k <= |items| && ElementTexts(items[..k], listDelimiter).None?
    ensures ElementTexts(items, listDelimiter).None?
    decreases |items|
  {
    if k == |items| {
      PrefixAll(items);
    } else {
      PrefixOfInit(items, k);
      ElementTextsFailureSticks(items[..|items| - 1], listDelimiter, k);
    }
  }

  lemma {:induction false} DrillFailureSticks(root: seq<Element>, levels: seq<string>, k: nat)
    requires k <= |levels| && DrillDown(root, levels[..k]).None?
    ensures DrillDown(root, levels).None?
    decreases |levels|
  {
    if k == |levels| {
      PrefixAll(levels);
    } else {
      PrefixOfInit(levels, k);
      DrillFailureSticks(root, levels[..|levels| - 1], k);
    }
  }

  /**
   * The path read from the front, one level at a time: the level is looked up in
   * the current document, a document value becomes the current document, and a
   * missing level ends the walk with nothing.
   */
  function Walk(at: Drill, levels: seq<string>): Option<Drill>
    decreases |levels|
  {
    if levels == [] then Some(at)
    else
      var v := Get(at.doc, levels[0]);
      if v.None? then None
      else Walk(Drill(if v.value.Doc? then v.value.elements else at.doc, v), levels[1..])
  }

  /** Walking one more level continues from where the walk stopped. */
  lemma {:induction false} WalkSnoc(at: Drill, levels: seq<string>, level: string)
    ensures Walk(at, levels + [level]) ==
      if Walk(at, levels).None? then None
      else
        var w := Walk(at, levels).value;
        var v := Get(w.doc, level);
        if v.None? then None else Some(Drill(if v.value.Doc? then v.value.elements else w.doc, v))
    decreases |levels|
  {
    if levels == [] {
      assert levels + [level] == [level] && [level][1..] == [];
    } else {
      assert (levels + [level])[1..] == levels[1..] + [level];
      var v := Get(at.doc, levels[0]);
      if v.Some? {
        WalkSnoc(Drill(if v.value.Doc? then v.value.elements else at.doc, v), levels[1..], level);
      }
    }
  }

  /** The drill-down, built level by level from the back, is the walk from the front. */
  lemma {:induction false} DrillDownWalks(root: seq<Element>, levels: seq<string>)
    ensures DrillDown(root, levels) == Walk(Drill(root, None), levels)
    decreases |levels|
  {
    if levels != [] {
      var init := levels[..|levels| - 1];
      DrillDownWalks(root, init);
      WalkSnoc(Drill(root, None), init, levels[|levels| - 1]);
      assert init + [levels[|levels| - 1]] == levels;
    }
  }

  /**
   * `ReachInnerDocument` for every document and name: null exactly when the walk
   * down the dotted path meets a missing level; otherwise a document holding the
   * value found at the last level, under the last segment.
   */
  lemma ReachInnerWalks(root: seq<Element>, fieldName: string)
    ensures var walk := Walk(Drill(root, None), Split(fieldName, {'.'}));
      && (ReachInner(root, fieldName).None? <==> walk.None?)
      && (walk.Some? ==>
            walk.value.value.Some? &&
            ReachInner(root, fieldName) == Some([Element(LastSegment(fieldName), walk.value.value.value)]))
  {
    var levels := Split(fieldName, {'.'});
    DrillDownWalks(root, levels);
    var init := levels[..|levels| - 1];
    assert init + [levels[|levels| - 1]] == levels;
    WalkSnoc(Drill(root, None), init, levels[|levels| - 1]);
  }

  /**
   * A dotted field is never missing once its path is found: it throws when a level
   * is missing and otherwise is the text of the value at the last level, whether or
   * not the field is mandatory.
   */
  lemma DottedColumn(config: ExportConfig, doc: seq<Element>, field: Field)
    requires '.' in field.name
    ensures var walk := Walk(Drill(doc, None), Split(field.name, {'.'}));
      walk.Some? ==> walk.value.value.Some?
    ensures var walk := Walk(Drill(doc, None), Split(field.name, {'.'}));
      RawColumn(config, doc, field) ==
        if walk.None? then Throw
        else
          var text := TypeText(walk.value.value.value, config.listDelimiter);
          if text.None? then Throw else Value(text.value)
  {
    ReachInnerWalks(doc, field.name);
  }

  lemma {:induction false} StopSticks(config: ExportConfig, doc: seq<Element>, fields: seq<Field>, k: nat)
    requires k <= |fields| && ColumnsOf(config, doc, fields[..k]).Stop?
    ensures ColumnsOf(config, doc, fields) == ColumnsOf(config, doc, fields[..k])
    decreases |fields|
  {
    if k == |fields| {
      PrefixAll(fields);
    } else {
      PrefixOfInit(fields, k);
      StopSticks(config, doc, fields[..|fields| - 1], k);
    }
  }

  /** `BsonValueToString`, with the loop over an array's elements. */
  method BsonValueToString(v: Bson, listDelimiter: string) returns (r: Option<string>)
    ensures r == ValueText(v, listDelimiter)
  {
    if v.Null? {
      return Some("");
    } else if v.Arr? {
      var docsList: seq<string> := [];
      for k := 0 to |v.items|
        invariant Strings(v.items[..k]) == Some(docsList)
      {
        var e := v.items[k];
        PrefixSnoc(v.items, k);
        if !e.Str? {
          StringsFailureSticks(v.items, k + 1);
          return None;
        }
        docsList := docsList + [e.s];
      }
      PrefixAll(v.items);
      return Some(Join(docsList, listDelimiter));
    } else if v.ObjectId? {
      return Some(v.hex);
    } else if v.Int? {
      return Some(IntToString(v.i));
    } else if v.Bool? {
      return Some(if v.b then "True" else "False");
    } else if v.Str? {
      return Some(v.s);
    } else {
      return None;
    }
  }

  /** `BsonToType`, with the loop over an array field's elements. */
  method BsonToType(doc: seq<Element>, fieldName: string, listDelimiter: string) returns (r: Option<string>)
    requires Get(doc, fieldName).Some?
    ensures r == TypeText(Get(doc, fieldName).value, listDelimiter)
  {
    var v := Get(doc, fieldName).value;
    if v.Arr? {
      var docsList: seq<string> := [];
      for k := 0 to |v.items|
        invariant ElementTexts(v.items[..k], listDelimiter) == Some(docsList)
      {
        PrefixSnoc(v.items, k);
        var text := BsonValueToString(v.items[k], listDelimiter);
        if text.None? {
          ElementTextsFailureSticks(v.items, listDelimiter, k + 1);
          return None;
        }
        docsList := docsList + [text.value];
      }
      PrefixAll(v.items);
      return Some(Join(docsList, listDelimiter));
    } else {
      r := BsonValueToString(v, listDelimiter);
    }
  }

  /** `ReachInnerDocument`, with the loop over the levels of a dotted name. */
  method ReachInnerDocument(doc: seq<Element>, fieldName: string) returns (r: Option<seq<Element>>)
    ensures r == ReachInner(doc, fieldName)
  {
    var bDoc := doc;
    var bValue: Option<Bson> := None;
    var fieldsHierarchy := Split(fieldName, {'.'});
    for k := 0 to |fieldsHierarchy|
      invariant DrillDown(doc, fieldsHierarchy[..k]) == Some(Drill(bDoc, bValue))
    {
      PrefixSnoc(fieldsHierarchy, k);
      var found := Get(bDoc, fieldsHierarchy[k]);
      if found.None? {
        DrillFailureSticks(doc, fieldsHierarchy, k + 1);
        return None;
      }
      bValue := found;
      if found.value.Doc? {
        bDoc := found.value.elements;
      }
    }
    PrefixAll(fieldsHierarchy);
    if bValue.None? {
      return Some([]);
    }
    return Some([Element(fieldsHierarchy[|fieldsHierarchy| - 1], bValue.value)]);
  }

  /** `BsonToCSV`, with the loop over the configured fields. */
  method BsonToCSV(config: ExportConfig, doc: seq<Element>) returns (r: CsvLine)
    ensures r == Row(config, doc)
  {
    var fieldValues: seq<string> := [];
    var fields := config.fields;
    for k := 0 to |fields|
      invariant ColumnsOf(config, doc, fields[..k]) == Texts(fieldValues)
    {
      var field := fields[k];
      ColumnsStep(config, doc, fields, k);
      var fieldValue := "";
      var fieldName := field.name;
      var auxBsonDoc: Option<seq<Element>>;
      if '.' in fieldName {
        auxBsonDoc := ReachInnerDocument(doc, fieldName);
        fieldName := LastSegment(fieldName);
      } else {
        auxBsonDoc := Some(doc);
      }
      if auxBsonDoc.None? {
        // `Contains` on the null document throws
        StopSticks(config, doc, fields, k + 1);
        return Fails;
      }
      if Get(auxBsonDoc.value, fieldName).None? {
        if field.mandatory {
          StopSticks(config, doc, fields, k + 1);
          return NoLine;
        }
        fieldValue := "";
      } else {
        var text := BsonToType(auxBsonDoc.value, fieldName, config.listDelimiter);
        if text.None? {
          StopSticks(config, doc, fields, k + 1);
          return Fails;
        }
        fieldValue := text.value;
      }
      if config.delimiter == [] {
        StopSticks(config, doc, fields, k + 1);
        return Fails;
      }
      fieldValues := fieldValues + [ReplaceAll(fieldValue, config.delimiter, "")];
    }
    PrefixAll(fields);
    return Line(Join(fieldValues, config.delimiter));
  }

  /**
   * When every field gives a column, there is one text per field, each the field's
   * own column; with a one-character delimiter no text holds it.
   */
  lemma {:induction false} ColumnsTexts(config: ExportConfig, doc: seq<Element>, fields: seq<Field>)
    requires ColumnsOf(config, doc, fields).Texts?
    ensures var vs := ColumnsOf(config, doc, fields).values;
      |vs| == |fields| && forall k :: 0 <= k < |fields| ==> FieldColumn(config, doc, fields[k]) == Value(vs[k])
    ensures |config.delimiter| == 1 ==> NoneContains(ColumnsOf(config, doc, fields).values, config.delimiter[0])
    decreases |fields|
  {
    if fields != [] {
      var init := fields[..|fields| - 1];
      var field := fields[|fields| - 1];
      ColumnsTexts(config, doc, init);
      var c := RawColumn(config, doc, field);
      if |config.delimiter| == 1 {
        var d := config.delimiter[0];
        assert config.delimiter == [d];
        RemoveCharAll(c.text, d);
      }
      assert forall k :: 0 <= k < |init| ==> init[k] == fields[k];
    }
  }

  /**
   * A line that is written splits, at a one-character delimiter, into exactly one
   * column per configured field, in configuration order.
   */
  lemma RowShape(config: ExportConfig, doc: seq<Element>)
    requires |config.delimiter| == 1 && |config.fields| >= 1
    requires Row(config, doc).Line?
    ensures var parts := Split(Row(config, doc).text, {config.delimiter[0]});
      |parts| == |config.fields| &&
      forall k :: 0 <= k < |parts| ==> FieldColumn(config, doc, config.fields[k]) == Value(parts[k])
  {
    var d := config.delimiter[0];
    assert config.delimiter == [d];
    ColumnsTexts(config, doc, config.fields);
    SplitJoin(ColumnsOf(config, doc, config.fields).values, d);
  }

  /** A line is written only when every configured field gives a column. */
  lemma LineNeedsEveryField(config: ExportConfig, doc: seq<Element>)
    requires Row(config, doc).Line?
    ensures forall k :: 0 <= k < |config.fields| ==> FieldColumn(config, doc, config.fields[k]).Value?
  {
    ColumnsTexts(config, doc, config.fields);
  }

  /**
   * A mandatory plain field that the document lacks makes the line null, when every
   * field before it gives a column.
   */
  lemma MissingMandatoryDropsLine(config: ExportConfig, doc: seq<Element>, i: nat)
    requires i < |config.fields| && ColumnsOf(config, doc, config.fields[..i]).Texts?
    requires '.' !in config.fields[i].name && config.fields[i].mandatory
    requires Get(doc, config.fields[i].name).None?
    ensures Row(config, doc) == NoLine
  {
    PrefixSnoc(config.fields, i);
    StopSticks(config, doc, config.fields, i + 1);
  }

  /** An optional plain field that the document lacks gives an empty column. */
  lemma MissingOptionalIsEmpty(config: ExportConfig, doc: seq<Element>, field: Field)
    requires '.' !in field.name && !field.mandatory && Get(doc, field.name).None?
    requires config.delimiter != []
    ensures FieldColumn(config, doc, field) == Value("")
  {
  }

  /** A null value gives an empty column. */
  lemma NullIsEmpty(config: ExportConfig, doc: seq<Element>, field: Field)
    requires '.' !in field.name && Get(doc, field.name) == Some(Null)
    requires config.delimiter != []
    ensures FieldColumn(config, doc, field) == Value("")
  {
  }

  /** `AsString` on the elements succeeds exactly when every element is a string. */
  lemma {:induction false} StringsSpec(items: seq<Bson>)
    ensures Strings(items).Some? <==> forall k :: 0 <= k < |items| ==> items[k].Str?
    ensures Strings(items).Some? ==>
      |Strings(items).value| == |items| && forall k :: 0 <= k < |items| ==> Strings(items).value[k] == items[k].s
    decreases |items|
  {
    if items != [] {
      var init := items[..|items| - 1];
      StringsSpec(init);
      assert forall k :: 0 <= k < |init| ==> init[k] == items[k];
    }
  }

  /** The elements of an array field convert exactly when each of them does, each by itself. */
  lemma {:induction false} ElementTextsSpec(items: seq<Bson>, listDelimiter: string)
    ensures ElementTexts(items, listDelimiter).Some? <==>
      forall k :: 0 <= k < |items| ==> ValueText(items[k], listDelimiter).Some?
    ensures ElementTexts(items, listDelimiter).Some? ==>
      |ElementTexts(items, listDelimiter).value| == |items| &&
      forall k :: 0 <= k < |items| ==>
        ElementTexts(items, listDelimiter).value[k] == ValueText(items[k], listDelimiter).value
    decreases |items|
  {
    if items != [] {
      var init := items[..|items| - 1];
      ElementTextsSpec(init, listDelimiter);
      assert forall k :: 0 <= k < |init| ==> init[k] == items[k];
    }
  }

  /**
   * An array field is written as its elements' texts joined by the list delimiter;
   * an array nested in it is written only when all its elements are strings.
   */
  lemma ArrayField(items: seq<Bson>, listDelimiter: string)
    ensures TypeText(Arr(items), listDelimiter).Some? <==>
      forall k :: 0 <= k < |items| ==> ValueText(items[k], listDelimiter).Some?
    ensures forall k :: 0 <= k < |items| && items[k].Arr? ==>
      (ValueText(items[k], listDelimiter).Some? <==>
        forall j :: 0 <= j < |items[k].items| ==> items[k].items[j].Str?)
  {
    ElementTextsSpec(items, listDelimiter);
    forall k | 0 <= k < |items| && items[k].Arr?
      ensures ValueText(items[k], listDelimiter).Some? <==>
        forall j :: 0 <= j < |items[k].items| ==> items[k].items[j].Str?
    {
      StringsSpec(items[k].items);
    }
  }

  /** An array of strings is written as the strings joined by the list delimiter. */
  lemma ArrayOfStrings(items: seq<Bson>, listDelimiter: string)
    requires forall k :: 0 <= k < |items| ==> items[k].Str?
    ensures TypeText(Arr(items), listDelimiter) ==
      Some(Join(seq(|items|, k requires 0 <= k < |items| => items[k].s), listDelimiter))
  {
    ElementTextsSpec(items, listDelimiter);
    var texts := ElementTexts(items, listDelimiter).value;
    assert texts == seq(|items|, k requires 0 <= k < |items| => items[k].s);
  }

  /** The levels of "a.b". */
  lemma LevelsOfAB()
    ensures Split("a.b", {'.'}) == ["a", "b"] && LastSegment("a.b") == "b"
  {
    assert "a.b" == "a" + ['.'] + "b";
    SplitAround("a", "b", '.');
    var empty: string := [];
    var rest := Split(empty, {'.'});
    assert rest == [empty];
    assert "b"[1..] == empty && "b"[0] == 'b';
    assert Split("b", {'.'}) == [['b'] + rest[0]] + rest[1..];
    assert ['b'] + rest[0] == "b" && rest[1..] == [];
    assert Split("b", {'.'}) == ["b"];
    var s := "a" + ['.'] + "b";
    assert Split(s, {'.'}) == ["a"] + Split("b", {'.'});
    var parts := Split("a.b", {'.'});
    assert s == "a.b";
    assert parts == ["a"] + ["b"];
    assert |parts| == 2 && parts[0] == "a" && parts[1] == "b";
  }

  const Commas := ExportConfig("", false, ",", ";", [])

  /** A dotted name drills down the path and reads the last segment: "a.b" in `{a: {b: 7}}` is "7". */
  lemma DottedName()
    ensures FieldColumn(Commas, [Element("a", Doc([Element("b", Int(7))]))], Field("a.b", true)) == Value("7")
  {
    LevelsOfAB();
    var levels := ["a", "b"];
    var inner := [Element("b", Int(7))];
    var doc := [Element("a", Doc(inner))];
    assert levels[..1] == ["a"] && levels[..1][..0] == [];
    assert DrillDown(doc, levels[..1]) == Some(Drill(inner, Some(Doc(inner))));
    assert DrillDown(doc, levels) == Some(Drill(inner, Some(Int(7))));
    assert ReachInner(doc, "a.b") == Some(inner);
    assert IntToString(7) == "7";
    assert ReplaceAll("7", ",", "") == "7";
  }

  /**
   * A level whose value is not a document leaves the current document in place:
   * "a.b" in `{a: 1, b: "x"}` is "x".
   */
  lemma DottedNameThroughValue()
    ensures FieldColumn(Commas, [Element("a", Int(1)), Element("b", Str("x"))], Field("a.b", true)) == Value("x")
  {
    LevelsOfAB();
    var levels := ["a", "b"];
    var doc := [Element("a", Int(1)), Element("b", Str("x"))];
    assert levels[..1] == ["a"] && levels[..1][..0] == [];
    assert DrillDown(doc, levels[..1]) == Some(Drill(doc, Some(Int(1))));
    assert Get(doc, "b") == Some(Str("x"));
    assert DrillDown(doc, levels) == Some(Drill(doc, Some(Str("x"))));
    assert ReachInner(doc, "a.b") == Some([Element("b", Str("x"))]);
    assert ReplaceAll("x", ",", "") == "x";
  }

  /** A missing level of a dotted name throws, even for an optional field. */
  lemma DottedNameMissingLevel()
    ensures FieldColumn(Commas, [Element("b", Str("x"))], Field("a.b", false)) == Throw
  {
    LevelsOfAB();
    var levels := ["a", "b"];
    var doc := [Element("b", Str("x"))];
    assert levels[..1] == ["a"] && levels[..1][..0] == [];
    assert DrillDown(doc, levels[..1]) == None;
    DrillFailureSticks(doc, levels, 1);
    assert ReachInner(doc, "a.b") == None;
  }
}

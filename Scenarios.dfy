/** The concrete conversions the test suite of `processDataFrame` walks
    through, each derived from the general results. */
module Scenarios {
  import opened Values
  import opened Text
  import opened Inference
  import opened Convert
  import opened RoundTrip
  import opened Sorting

  // ------------------------------------------------------ guessing types

  /** Numbers, booleans and dates guess their own types. */
  lemma GuessValueExamples()
    ensures GuessFieldTypeFromValue(Num(1)) == Some(Number)
    ensures GuessFieldTypeFromValue(Bool(true)) == Some(Boolean)
    ensures GuessFieldTypeFromValue(Bool(false)) == Some(Boolean)
    ensures GuessFieldTypeFromValue(TimeVal(0)) == Some(Time)
  {
  }

  /** Written-out numerals, with a fraction or an exponent, guess `number`. */
  lemma GuessNumeralExamples()
    ensures GuessFieldTypeFromValue(Str("1")) == Some(Number)
    ensures GuessFieldTypeFromValue(Str("1.234")) == Some(Number)
    ensures GuessFieldTypeFromValue(Str("3.125e7")) == Some(Number)
  {
    IntegerText("1");
    DecimalText("1.234");
    ExponentText("3.125e7");
  }

  lemma IntegerText(s: string)
    requires s == "1"
    ensures GuessFieldTypeFromValue(Str(s)) == Some(Number)
  {
    var n := Numeral([], "1", false, [], NoExponent);
    assert RenderNumeral(n) == s;
    NumeralIsNumber(n);
  }

  lemma DecimalText(s: string)
    requires s == "1.234"
    ensures GuessFieldTypeFromValue(Str(s)) == Some(Number)
  {
    var n := Numeral([], "1", true, "234", NoExponent);
    assert RenderNumeral(n) == s;
    NumeralIsNumber(n);
  }

  lemma ExponentText(s: string)
    requires s == "3.125e7"
    ensures GuessFieldTypeFromValue(Str(s)) == Some(Number)
  {
    var n := Numeral([], "3", true, "125", Exponent('e', [], "7"));
    assert RenderNumeral(n) == s;
    NumeralIsNumber(n);
  }

  /** `True`, `FALSE` and `true` guess `boolean`. */
  lemma GuessWordExamples(upper: string, shout: string, lower: string)
    requires upper == "True" && shout == "FALSE" && lower == "true"
    ensures GuessFieldTypeFromValue(Str(upper)) == Some(Boolean)
    ensures GuessFieldTypeFromValue(Str(shout)) == Some(Boolean)
    ensures GuessFieldTypeFromValue(Str(lower)) == Some(Boolean)
  {
    BooleanExample(upper);
    BooleanExample(shout);
    BooleanExample(lower);
  }

  /** `xxxx` stays `string`. */
  lemma GuessPlainExample(plain: string)
    requires plain == "xxxx"
    ensures GuessFieldTypeFromValue(Str(plain)) == Some(String)
  {
    PlainWord(plain);
  }

  /** The three boolean spellings of the test guess `boolean`. */
  lemma BooleanExample(s: string)
    requires s == "True" || s == "FALSE" || s == "true"
    ensures GuessFieldTypeFromValue(Str(s)) == Some(Boolean)
  {
    var l := Lower(s);
    if s == "FALSE" {
      assert l[0] == 'f' && l[1] == 'a' && l[2] == 'l' && l[3] == 's' && l[4] == 'e';
      assert l == "false";
    } else {
      assert l[0] == 't' && l[1] == 'r' && l[2] == 'u' && l[3] == 'e';
      assert l == "true";
    }
    assert Trimmed(s) && IsBooleanWord(s);
    WordText(s);
  }

  lemma HelloText(s: string)
    requires s == "Hello"
    ensures GuessFieldTypeFromValue(Str(s)) == Some(String)
  {
    PlainWord(s);
  }

  /** A word that starts with a letter other than `t` or `f` and does not end
      in white space is neither a numeral nor a boolean word, so it stays a
      string. */
  lemma PlainWord(s: string)
    requires |s| > 0 && 'a' <= LowerChar(s[0]) <= 'z' && LowerChar(s[0]) != 't' && LowerChar(s[0]) != 'f'
    requires !IsSpace(s[|s| - 1])
    ensures GuessFieldTypeFromValue(Str(s)) == Some(String)
  {
    assert Lower(s)[0] == LowerChar(s[0]);
    assert SignPrefix(s) == [] && DigitPrefix(s) == [];
    assert !IsNumeral(s);
    PlainText(s);
  }

  lemma WordText(s: string)
    requires Trimmed(s) && IsBooleanWord(s)
    ensures GuessFieldTypeFromValue(Str(s)) == Some(Boolean)
  {
    TrimTrimmed(s);
    BooleanWordIff(s);
  }

  lemma PlainText(s: string)
    requires Trimmed(s) && !IsNumeral(s) && !IsBooleanWord(s)
    ensures GuessFieldTypeFromValue(Str(s)) == Some(String)
  {
    TrimTrimmed(s);
    TrimmedPlainIsString(s);
  }

  /** The columns of the type-guessing example, as the DTO declares them. */
  function ColumnTypesInput(): FrameDTO {
    FrameDTO(None, None, None,
      [FieldDTO("A (number)", None, None, Some([Num(123), Null])),
       FieldDTO("B (strings)", None, None, Some([Null, Str("Hello")])),
       FieldDTO("C (nulls)", None, None, Some([Null, Null])),
       FieldDTO("Time", None, None, Some([Str("2000"), Num(1967)]))],
      None)
  }

  /** The same columns loaded into a frame. */
  function ColumnTypesFrame(): Frame {
    Frame(None, None, None,
      [Field("A (number)", None, map[], [Num(123), Null]),
       Field("B (strings)", None, map[], [Null, Str("Hello")]),
       Field("C (nulls)", None, map[], [Null, Null]),
       Field("Time", None, map[], [Str("2000"), Num(1967)])],
      2)
  }

  lemma ColumnTypesLoaded()
    ensures FromDTOColumns(ColumnTypesInput()) == ColumnTypesFrame()
  {
    LoadedAsDeclared(ColumnTypesInput(), ColumnTypesFrame());
  }

  /** A DTO whose columns all have the frame's length loads into exactly the
      frame that lists its entries as declared. */
  lemma LoadedAsDeclared(dto: FrameDTO, f: Frame)
    requires |dto.fields| == |f.fields| > 0
    requires f.name == dto.name && f.refId == dto.refId && f.meta == dto.meta
    requires forall k :: 0 <= k < |dto.fields| ==>
      |dto.fields[k].values.GetOr([])| == f.length && f.fields[k] == DeclaredField(dto.fields[k])
    ensures FromDTOColumns(dto) == f
  {
    UniformDTOColumns(dto, f.length);
    assert FromDTOColumns(dto).fields == f.fields;
  }

  /** A column's type comes from its first present value (`number`, `string`),
      is `other` when every value is missing, and `time` when the column is
      named "Time", whatever its values. */
  lemma ColumnTypesExample()
    ensures var norm := GuessFieldTypes(FromDTOColumns(ColumnTypesInput()));
      && norm.fields[0].typ == Some(Number)
      && norm.fields[1].typ == Some(String)
      && norm.fields[2].typ == Some(Other)
      && norm.fields[3].typ == Some(Time)
  {
    ColumnTypesLoaded();
    ColumnTypesGuessed();
  }

  lemma ColumnTypesGuessed()
    ensures var norm := GuessFieldTypes(ColumnTypesFrame());
      && norm.fields[0].typ == Some(Number)
      && norm.fields[1].typ == Some(String)
      && norm.fields[2].typ == Some(Other)
      && norm.fields[3].typ == Some(Time)
  {
    var f := ColumnTypesFrame();
    var g := GuessFieldTypes(f);
    assert forall j :: 0 <= j < 4 ==> g.fields[j] == InferField(f.fields[j]);
    NumberColumn(f.fields[0]);
    StringColumn("B (strings)", "Hello");
    NullColumn(f.fields[2]);
    TimeColumn(f.fields[3]);
  }

  lemma NumberColumn(c: Field)
    requires c == Field("A (number)", None, map[], [Num(123), Null])
    ensures InferField(c).typ == Some(Number)
  {
    NotTimeName(c.name);
    FirstPresentType(c, 0, Number);
  }

  lemma StringColumn(name: string, s: string)
    requires name == "B (strings)" && s == "Hello"
    ensures InferField(Field(name, None, map[], [Null, Str(s)])).typ == Some(String)
  {
    NotTimeName(name);
    HelloText(s);
    SecondPresentType(name, s, String);
  }

  /** A column whose only present value is its second takes that value's type. */
  lemma SecondPresentType(name: string, s: string, t: FieldType)
    requires !NamesTime(name) && GuessFieldTypeFromValue(Str(s)) == Some(t)
    ensures InferField(Field(name, None, map[], [Null, Str(s)])).typ == Some(t)
  {
    var values := [Null, Str(s)];
    assert IsFirstPresent(values, 1);
    FirstPresentType(Field(name, None, map[], values), 1, t);
  }

  lemma NullColumn(c: Field)
    requires c == Field("C (nulls)", None, map[], [Null, Null])
    ensures InferField(c).typ == Some(Other)
  {
    NotTimeName(c.name);
    InferFieldSpec(c);
  }

  lemma TimeColumn(c: Field)
    requires c == Field("Time", None, map[], [Str("2000"), Num(1967)])
    ensures InferField(c).typ == Some(Time)
  {
    TimeName(c.name);
    InferFieldSpec(c);
  }

  /** A name whose first letter is not `t` or `d` in either case names no time column. */
  lemma NotTimeName(name: string)
    requires |name| > 0 && LowerChar(name[0]) != 't' && LowerChar(name[0]) != 'd'
    ensures !NamesTime(name)
  {
    assert Lower(name)[0] == LowerChar(name[0]);
  }

  lemma TimeName(name: string)
    requires name == "Time"
    ensures NamesTime(name)
  {
    var l := Lower(name);
    assert l[0] == 't' && l[1] == 'i' && l[2] == 'm' && l[3] == 'e';
    assert l == "time";
  }

  /** An undeclared column not named for time takes the type of its first present value. */
  lemma FirstPresentType(f: Field, k: int, t: FieldType)
    requires f.typ.None? && !NamesTime(f.name)
    requires IsFirstPresent(f.values, k) && GuessFieldTypeFromValue(f.values[k]) == Some(t)
    ensures InferField(f).typ == Some(t)
  {
    InferFieldSpec(f);
  }

  // ---------------------------------------------------- legacy shapes

  /** A time series named by its target, or "Value" when the target is empty,
      whose value column is a `number` column even when named "time", and
      which reads back as a time series with the same target. */
  lemma TimeSeriesExample()
    ensures var points := [List([Num(100), Num(1)]), List([Num(200), Num(2)])];
      var f := ToDataFrame(SeriesPayload(Some("Field Name"), points, None, map[]));
      && f.length == 2 && f.fields[0].name == "Field Name"
      && f.fields[0].values == [Num(100), Num(200)] && f.fields[1].values == [Num(1), Num(2)]
      && ToDataFrame(SeriesPayload(Some(""), points, None, map[])).fields[0].name == "Value"
      && ToDataFrame(SeriesPayload(Some("time"), points, None, map[])).fields[0].typ == Some(Number)
      && !IsDataFrame(SeriesPayload(Some("Field Name"), points, None, map[])) && IsDataFrame(FramePayload(f))
      && ToLegacy(f).target == Some("Field Name") && !IsDataFrame(ToLegacy(f))
  {
    var points := [List([Num(100), Num(1)]), List([Num(200), Num(2)])];
    TimeSeriesRoundTrip(Some("Field Name"), points, None, map[]);
    var f := ToDataFrame(SeriesPayload(Some("Field Name"), points, None, map[]));
    assert f.fields[0].values == [Num(100), Num(200)];
    assert f.fields[1].values == [Num(1), Num(2)];
  }

  /** A time series without a target still has two rows, and converting the
      resulting frame again gives the very same frame. */
  lemma UntargetedSeriesExample()
    ensures var points := [List([Num(100), Num(1)]), List([Num(200), Num(2)])];
      var f := ToDataFrame(SeriesPayload(None, points, None, map[]));
      f.length == 2 && f.fields[0].name == "Value" && ToDataFrame(FramePayload(f)) == f
  {
    var points := [List([Num(100), Num(1)]), List([Num(200), Num(2)])];
    TimeSeriesRoundTrip(None, points, None, map[]);
  }

  /** A bag of JSON documents becomes one field holding each document whole,
      and reads back as the same bag, keeping `type`, `target` and its other
      keys. */
  lemma DocumentsExample(doc: Value)
    ensures var extra := map["filterable" := Bool(true), "total" := Num(206)];
      var p := SeriesPayload(Some("docs"), [doc], Some("docs"), extra);
      var f := ToDataFrame(p);
      && f.fields[0].name == "docs" && f.fields[0].values == [doc]
      && !IsDataFrame(p) && IsDataFrame(FramePayload(f))
      && ToLegacy(f) == p
  {
    DocumentsRoundTrip(Some("docs"), [doc], map["filterable" := Bool(true), "total" := Num(206)]);
  }

  /** A table of two columns whose second is named "Time" reads back as a
      time series, not as table data. */
  lemma TimeTableReadsAsSeries(time: string)
    requires time == "Time"
    ensures var p := TablePayload([Column("v", map[]), Column(time, map[])], [[Num(1), Num(2)]], None, None, None);
      ToLegacy(ToDataFrame(p)).SeriesPayload? && !IsTableData(ToLegacy(ToDataFrame(p)))
  {
    var f := ToDataFrame(TablePayload([Column("v", map[]), Column(time, map[])], [[Num(1), Num(2)]], None, None, None));
    TimeName(time);
    assert f.fields[1].name == time && f.fields[1].typ.None?;
    assert IsSeriesFrame(f);
  }

  /** An empty table becomes a frame with no fields and reads back as an empty
      `table`. */
  lemma EmptyTableExample()
    ensures ToDataFrame(TablePayload([], [], None, None, None)).fields == []
    ensures ToLegacy(ToDataFrame(TablePayload([], [], Some(TableType), None, None)))
         == TablePayload([], [], Some(TableType), None, None)
  {
    TableRoundTrip([], [], Some(TableType), None, None);
  }

  /** A table keeps each column's `unit` in its field's config and reads back
      as the same table. */
  lemma TableExample()
    ensures var columns := [Column("a", map["unit" := Str("ms")]), Column("b", map["unit" := Str("zz")]),
                            Column("c", map["unit" := Str("yy")])];
      var rows := [[Num(100), Num(1), Str("a")], [Num(200), Num(2), Str("a")]];
      var f := ToDataFrame(TablePayload(columns, rows, None, None, None));
      && IsTableData(TablePayload(columns, rows, None, None, None)) && IsDataFrame(FramePayload(f))
      && f.fields[0].config["unit"] == Str("ms")
      && ToLegacy(f) == TablePayload(columns, rows, Some(TableType), None, None)
  {
    var columns := [Column("a", map["unit" := Str("ms")]), Column("b", map["unit" := Str("zz")]),
                    Column("c", map["unit" := Str("yy")])];
    var rows := [[Num(100), Num(1), Str("a")], [Num(200), Num(2), Str("a")]];
    TableRoundTrip(columns, rows, None, None, None);
  }

  /** The typed DTO of the table-projection example. */
  function TypedDTO(): FrameDTO {
    FrameDTO(None, Some("Z"), Some(map["somethign" := Num(8)]),
      [FieldDTO("T", Some(Time), None, Some([Num(1), Num(2), Num(3)])),
       FieldDTO("N", Some(Number), Some(map["filterable" := Bool(true)]), Some([Num(100), Num(200), Num(300)])),
       FieldDTO("S", Some(String), Some(map["filterable" := Bool(true)]), Some([Str("1"), Str("2"), Str("3")]))],
      None)
  }

  function TypedFrame(): Frame {
    Frame(None, Some("Z"), Some(map["somethign" := Num(8)]),
      [Field("T", Some(Time), map[], [Num(1), Num(2), Num(3)]),
       Field("N", Some(Number), map["filterable" := Bool(true)], [Num(100), Num(200), Num(300)]),
       Field("S", Some(String), map["filterable" := Bool(true)], [Str("1"), Str("2"), Str("3")])],
      3)
  }

  /** A frame DTO of three typed columns reads back as a table with the
      frame's `refId`, `meta` and column names. */
  lemma DTOTableExample()
    ensures var f := ToDataFrame(DTOPayload(TypedDTO()));
      var t := ToLegacy(f);
      && t.TablePayload? && t.refId == f.refId == Some("Z") && t.meta == f.meta
      && |t.columns| == 3
      && t.columns[0].text == "T" && t.columns[1].text == "N" && t.columns[2].text == "S"
  {
    LoadedAsDeclared(TypedDTO(), TypedFrame());
    TableProjection(TypedFrame());
  }

  /** Six-point-three-style rows set the frame's length. */
  lemma RowsExample()
    ensures var dto := FrameDTO(None, None, None,
        [FieldDTO("A", None, None, None), FieldDTO("B", None, None, None), FieldDTO("C", None, None, None)],
        Some([[Num(100), Str("A"), Num(1)], [Num(200), Str("B"), Num(2)], [Num(300), Str("C"), Num(3)]]));
      ToDataFrame(DTOPayload(dto)).length == 3
  {
    var dto := FrameDTO(None, None, None,
        [FieldDTO("A", None, None, None), FieldDTO("B", None, None, None), FieldDTO("C", None, None, None)],
        Some([[Num(100), Str("A"), Num(1)], [Num(200), Str("B"), Num(2)], [Num(300), Str("C"), Num(3)]]));
    RowsMigration(dto);
  }

  // ------------------------------------------------------------- sorting

  /** The DTO the sorting examples start from. */
  function SortInputDTO(): FrameDTO {
    FrameDTO(None, None, None,
      [FieldDTO("fist", Some(Time), None, Some([Num(1), Num(2), Num(3)])),
       FieldDTO("second", Some(String), None, Some([Str("a"), Str("b"), Str("c")])),
       FieldDTO("third", Some(Number), None, Some([Num(2000), Num(3000), Num(1000)]))],
      None)
  }

  /** The frame `toDataFrame` makes of it. */
  function SortInput(): Frame {
    Frame(None, None, None,
      [Field("fist", Some(Time), map[], [Num(1), Num(2), Num(3)]),
       Field("second", Some(String), map[], [Str("a"), Str("b"), Str("c")]),
       Field("third", Some(Number), map[], [Num(2000), Num(3000), Num(1000)])],
      3)
  }

  /** Every column of the sort input in reverse. */
  function SortOutput(): Frame {
    Frame(None, None, None,
      [Field("fist", Some(Time), map[], [Num(3), Num(2), Num(1)]),
       Field("second", Some(String), map[], [Str("c"), Str("b"), Str("a")]),
       Field("third", Some(Number), map[], [Num(1000), Num(3000), Num(2000)])],
      3)
  }

  lemma SortInputLoaded()
    ensures ToDataFrame(DTOPayload(SortInputDTO())) == SortInput()
  {
    LoadedAsDeclared(SortInputDTO(), SortInput());
  }

  /** Keys that rise with the row number come out in reverse when sorted descending. */
  lemma ReversedOrder(o: Order, keys: seq<Value>)
    requires |keys| == 3 && o.descending
    requires RowBefore(o, keys, 1, 0) && RowBefore(o, keys, 2, 1) && RowBefore(o, keys, 2, 0)
    ensures SortOrder(o, keys, 3) == [2, 1, 0]
  {
    assert SortOrder(o, keys, 1) == [0];
    assert InsertPos(o, keys, [0], 1) == 0;
    assert SortOrder(o, keys, 2) == [1, 0];
    assert InsertPos(o, keys, [1], 2) == 0;
    assert InsertPos(o, keys, [1, 0], 2) == 0;
  }

  lemma NumberKeyReverses()
    ensures SortOrder(OrderFor(SortInput().fields[0], true), SortInput().fields[0].values, 3) == [2, 1, 0]
  {
    var f := SortInput();
    ReversedOrder(OrderFor(f.fields[0], true), f.fields[0].values);
  }

  lemma StringKeyReverses()
    ensures SortOrder(OrderFor(SortInput().fields[1], true), SortInput().fields[1].values, 3) == [2, 1, 0]
  {
    var f := SortInput();
    assert StrLess("a", "b") && StrLess("b", "c") && StrLess("a", "c");
    ReversedOrder(OrderFor(f.fields[1], true), f.fields[1].values);
  }

  /** A time column of dates is compared as numbers, so its values are all
      equivalent and the rows keep their input order. */
  lemma DateKeyKeepsOrder(f: Frame)
    requires f == Frame(None, None, None, [Field("t", Some(Time), map[], [TimeVal(2), TimeVal(1)])], 2)
    ensures SortFrame(f, 0, false) == Ok(f)
  {
    var key := f.fields[0];
    var o := OrderFor(key, false);
    assert !o.byText;
    assert SortOrder(o, key.values, 1) == [0];
    assert InsertPos(o, key.values, [0], 1) == 1;
    assert SortOrder(o, key.values, 2) == [0, 1];
    assert Permuted(key.values, [0, 1]) == key.values;
    assert SortFrame(f, 0, false).value.fields == f.fields;
  }

  /** A key column with no declared type that holds strings is sorted as text. */
  lemma UndeclaredTextKeySorts()
    ensures SortFrame(Frame(None, None, None, [Field("k", None, map[], [Str("b"), Str("a")])], 2), 0, false)
         == Ok(Frame(None, None, None, [Field("k", None, map[], [Str("a"), Str("b")])], 2))
  {
    var key := Field("k", None, map[], [Str("b"), Str("a")]);
    var o := OrderFor(key, false);
    assert FirstNonNull(key.values) == Some(0);
    assert o.byText;
    assert StrLess("a", "b");
    assert SortOrder(o, key.values, 1) == [0];
    assert InsertPos(o, key.values, [0], 1) == 0;
    assert SortOrder(o, key.values, 2) == [1, 0];
    assert Permuted(key.values, [1, 0]) == [Str("a"), Str("b")];
    var r := SortFrame(Frame(None, None, None, [key], 2), 0, false).value;
    assert r.fields == [key.(values := [Str("a"), Str("b")])];
  }

  /** A key whose sort order is the reversal sorts the input into the output. */
  lemma ReversalSorts(k: int)
    requires 0 <= k < 3
    requires SortOrder(OrderFor(SortInput().fields[k], true), SortInput().fields[k].values, 3) == [2, 1, 0]
    ensures SortFrame(SortInput(), k, true) == Ok(SortOutput())
  {
    var f := SortInput();
    var r := SortFrame(f, k, true).value;
    ReadBackwards(f.fields[0].values);
    ReadBackwards(f.fields[1].values);
    ReadBackwards(f.fields[2].values);
    assert r.fields == SortOutput().fields;
  }

  /** Reading three rows in the order 2, 1, 0 reverses them. */
  lemma ReadBackwards(values: seq<Value>)
    requires |values| == 3
    ensures Permuted(values, [2, 1, 0]) == [values[2], values[1], values[0]]
  {
  }

  /** Sorting descending by the numbers of the first field, or by the strings
      of the second, reverses every column and keeps the length. */
  lemma SortExamples()
    ensures SortFrame(ToDataFrame(DTOPayload(SortInputDTO())), 0, true) == Ok(SortOutput())
    ensures SortFrame(ToDataFrame(DTOPayload(SortInputDTO())), 1, true) == Ok(SortOutput())
    ensures SortOutput().length == 3
  {
    SortInputLoaded();
    NumberKeyReverses();
    ReversalSorts(0);
    StringKeyReverses();
    ReversalSorts(1);
  }
}

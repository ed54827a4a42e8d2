/** Conversion between the legacy response shapes and frames: `toDataFrame`
    and its inverse projection `toLegacyResponseData`. */
module Convert {
  import opened Values
  import opened Inference

  /** Default name of a time series' value column. */
  const ValueFieldName := "Value"
  /** Name of a time series' time column. */
  const TimeFieldName := "Time"
  /** The `type` tag of a JSON-document response. */
  const DocsType := "docs"
  /** The `type` tag a table projection carries. */
  const TableType := "table"
  /** The frame `meta` key that marks a frame made from JSON documents. */
  const JsonMetaKey := "json"

  /** A table column descriptor: its `text` and every other key (`unit`, ...). */
  datatype Column = Column(text: string, extra: map<string, Value>)

  /** One column of a frame written as plain data. */
  datatype FieldDTO = FieldDTO(
    name: string,
    typ: Option<FieldType>,
    config: Option<map<string, Value>>,
    values: Option<seq<Value>>)

  /** A frame written as plain data; `rows` is the 6.3-style row list. */
  datatype FrameDTO = FrameDTO(
    name: Option<string>,
    refId: Option<string>,
    meta: Option<map<string, Value>>,
    fields: seq<FieldDTO>,
    rows: Option<seq<seq<Value>>>)

  /** What a data source may hand over, told apart by the properties it has:
      a frame (`fields` and `length`), a frame DTO (`fields`), a time series or
      a JSON-document bag (`datapoints`; `type == "docs"` marks documents), a
      table (`columns` and `rows`), or anything else. A time-series point is a
      `List([value, time])`; `extra` holds the remaining top-level keys. */
  datatype Payload =
    | FramePayload(frame: Frame)
    | DTOPayload(dto: FrameDTO)
    | SeriesPayload(target: Option<string>, datapoints: seq<Value>, typ: Option<string>, extra: map<string, Value>)
    | TablePayload(columns: seq<Column>, rows: seq<seq<Value>>, typ: Option<string>,
                   refId: Option<string>, meta: Option<map<string, Value>>)
    | OtherPayload

  /** The shapes the converter tells apart. */
  datatype Shape = CanonicalFrame | ColumnarDTO | TableShape | TimeSeriesShape | JSONDocumentShape | Unknown

  function Classify(p: Payload): Shape {
    match p
    case FramePayload(_) => CanonicalFrame
    case DTOPayload(_) => ColumnarDTO
    case SeriesPayload(_, _, typ, _) => if typ == Some(DocsType) then JSONDocumentShape else TimeSeriesShape
    case TablePayload(_, _, _, _, _) => TableShape
    case OtherPayload => Unknown
  }

  /** `isDataFrame`: the payload has a `fields` property. */
  predicate IsDataFrame(p: Payload) {
    p.FramePayload? || p.DTOPayload?
  }

  /** `isTableData`: the payload has a `columns` property. */
  predicate IsTableData(p: Payload) {
    p.TablePayload?
  }

  // ---------------------------------------------------------- time series

  /** The name of a time series' value column: its target, or "Value" when the
      target is missing or empty. */
  function SeriesFieldName(target: Option<string>): (r: string)
    ensures r != []
    ensures target.Some? && target.value != [] ==> r == target.value
    ensures !(target.Some? && target.value != []) ==> r == ValueFieldName
  {
    if target.Some? && target.value != [] then target.value else ValueFieldName
  }

  function PointValue(p: Value): Value {
    if p.List? then At(p.items, 0) else Null
  }

  function PointTime(p: Value): Value {
    if p.List? then At(p.items, 1) else Null
  }

  /** A time series becomes a `number` value column and a `time` column. */
  function FromTimeSeries(target: Option<string>, points: seq<Value>, extra: map<string, Value>): (r: Frame)
    ensures WellFormed(r) && r.length == |points| && |r.fields| == 2
    ensures r.fields[0].name == SeriesFieldName(target) && r.fields[0].typ == Some(Number)
    ensures r.fields[1].name == TimeFieldName && r.fields[1].typ == Some(Time)
    ensures forall i :: 0 <= i < |points| ==>
      r.fields[0].values[i] == PointValue(points[i]) && r.fields[1].values[i] == PointTime(points[i])
  {
    Frame(target, None, None,
      [Field(SeriesFieldName(target), Some(Number), extra, seq(|points|, i requires 0 <= i < |points| => PointValue(points[i]))),
       Field(TimeFieldName, Some(Time), map[], seq(|points|, i requires 0 <= i < |points| => PointTime(points[i])))],
      |points|)
  }

  // ------------------------------------------------------- JSON documents

  /** A JSON-document bag becomes one `other` column holding each document whole;
      the bag's remaining keys ride along in the column's config. */
  function FromDocuments(target: Option<string>, docs: seq<Value>, extra: map<string, Value>): (r: Frame)
    ensures WellFormed(r) && r.length == |docs| && |r.fields| == 1
    ensures r.fields[0].name == SeriesFieldName(target) && r.fields[0].typ == Some(Other)
    ensures r.fields[0].values == docs && r.fields[0].config == extra
    ensures IsDocsMeta(r.meta)
  {
    Frame(target, None, Some(map[JsonMetaKey := Bool(true)]),
      [Field(SeriesFieldName(target), Some(Other), extra, docs)],
      |docs|)
  }

  predicate IsDocsMeta(meta: Option<map<string, Value>>) {
    meta.Some? && JsonMetaKey in meta.value && meta.value[JsonMetaKey] == Bool(true)
  }

  // --------------------------------------------------------------- tables

  /** Column `j` of a table: slot `i` holds `rows[i][j]`, missing when the row is short. */
  function TableColumn(rows: seq<seq<Value>>, j: int): (r: seq<Value>)
    ensures |r| == |rows|
    ensures forall i :: 0 <= i < |rows| && 0 <= j < |rows[i]| ==> r[i] == rows[i][j]
  {
    seq(|rows|, i requires 0 <= i < |rows| => At(rows[i], j))
  }

  /** A table becomes one untyped field per column, the column's other keys as config. */
  function FromTable(columns: seq<Column>, rows: seq<seq<Value>>,
                     refId: Option<string>, meta: Option<map<string, Value>>): (r: Frame)
    ensures WellFormed(r) && r.length == |rows| && |r.fields| == |columns|
    ensures r.name.None? && r.refId == refId && r.meta == meta
    ensures forall j :: 0 <= j < |columns| ==>
      && r.fields[j].name == columns[j].text && r.fields[j].config == columns[j].extra && r.fields[j].typ.None?
      && r.fields[j].values == TableColumn(rows, j)
  {
    Frame(None, refId, meta,
      seq(|columns|, j requires 0 <= j < |columns| =>
        Field(columns[j].text, None, columns[j].extra, TableColumn(rows, j))),
      |rows|)
  }

  // ----------------------------------------------------------- frame DTOs

  /** `s` filled up with missing values to `n` slots (unchanged when already that long). */
  function Pad(s: seq<Value>, n: nat): (r: seq<Value>)
    ensures |s| <= n ==> |r| == n
    ensures |r| >= |s| && r[..|s|] == s
    ensures forall i :: |s| <= i < |r| ==> r[i] == Null
  {
    if |s| < n then s + seq(n - |s|, _ => Null) else s
  }

  /** `addField`: the frame grows to the longer of its length and the new
      column's, every column is padded to that length, and the new column goes last. */
  function AddField(f: Frame, d: FieldDTO): (r: Frame)
    ensures r.length >= f.length && r.length >= |d.values.GetOr([])|
    ensures r.length == f.length || r.length == |d.values.GetOr([])|
    ensures r.name == f.name && r.refId == f.refId && r.meta == f.meta
    ensures WellFormed(f) ==> WellFormed(r)
    ensures |r.fields| == |f.fields| + 1
    ensures r.fields[..|f.fields|] == seq(|f.fields|, j requires 0 <= j < |f.fields| =>
      f.fields[j].(values := Pad(f.fields[j].values, r.length)))
    ensures r.fields[|f.fields|] ==
      Field(d.name, d.typ, d.config.GetOr(map[]), Pad(d.values.GetOr([]), r.length))
  {
    var vals := d.values.GetOr([]);
    var n := if |vals| > f.length then |vals| else f.length;
    f.(fields := seq(|f.fields|, j requires 0 <= j < |f.fields| => f.fields[j].(values := Pad(f.fields[j].values, n)))
                 + [Field(d.name, d.typ, d.config.GetOr(map[]), Pad(vals, n))],
       length := n)
  }

  function AddFields(f: Frame, ds: seq<FieldDTO>): (r: Frame)
    ensures |r.fields| == |f.fields| + |ds|
    ensures r.length >= f.length
    ensures forall k :: 0 <= k < |ds| ==> |ds[k].values.GetOr([])| <= r.length
    ensures r.length == f.length || exists k :: 0 <= k < |ds| && r.length == |ds[k].values.GetOr([])|
    ensures WellFormed(f) ==> WellFormed(r)
  {
    if ds == [] then f
    else
      var g := AddFields(f, ds[..|ds| - 1]);
      var r := AddField(g, ds[|ds| - 1]);
      assert forall k :: 0 <= k < |ds| - 1 ==> ds[k] == ds[..|ds| - 1][k];
      assert r.length != f.length && r.length != g.length ==> r.length == |ds[|ds| - 1].values.GetOr([])|;
      r
  }

  /** The columns of a DTO as a frame, before any 6.3-style rows are added
      (`new MutableDataFrame(dto)`). */
  function FromDTOColumns(dto: FrameDTO): (r: Frame)
    ensures WellFormed(r) && |r.fields| == |dto.fields|
  {
    AddFields(Frame(dto.name, dto.refId, dto.meta, [], 0), dto.fields)
  }

  /** `appendRow`: every field gets the row's value at its position, missing
      when the row is short. */
  function AppendRow(f: Frame, row: seq<Value>): (r: Frame)
    ensures r.length == f.length + 1 && |r.fields| == |f.fields|
    ensures WellFormed(f) ==> WellFormed(r)
  {
    f.(fields := seq(|f.fields|, j requires 0 <= j < |f.fields| =>
         f.fields[j].(values := f.fields[j].values + [At(row, j)])),
       length := f.length + 1)
  }

  function AppendRows(f: Frame, rows: seq<seq<Value>>): (r: Frame)
    ensures r.length == f.length + |rows| && |r.fields| == |f.fields|
    ensures WellFormed(f) ==> WellFormed(r)
  {
    if rows == [] then f else AppendRow(AppendRows(f, rows[..|rows| - 1]), rows[|rows| - 1])
  }

  function FromDTO(dto: FrameDTO): (r: Frame)
    ensures WellFormed(r)
  {
    var f := FromDTOColumns(dto);
    if dto.rows.Some? then AppendRows(f, dto.rows.value) else f
  }

  // ---------------------------------------------------------- toDataFrame

  /** `toDataFrame`: a frame comes back unchanged; every other payload is
      converted to a frame that keeps the frame invariant. */
  function ToDataFrame(p: Payload): (r: Frame)
    ensures p.FramePayload? ==> r == p.frame
    ensures !p.FramePayload? ==> WellFormed(r)
    ensures p.OtherPayload? ==> r.fields == [] && r.length == 0
  {
    match p
    case FramePayload(f) => f
    case DTOPayload(dto) => FromDTO(dto)
    case SeriesPayload(target, points, typ, extra) =>
      if typ == Some(DocsType) then FromDocuments(target, points, extra)
      else FromTimeSeries(target, points, extra)
    case TablePayload(columns, rows, _, refId, meta) => FromTable(columns, rows, refId, meta)
    case OtherPayload => EmptyFrame
  }

  /** The shape a payload is classified as decides its conversion, and
      `isDataFrame` / `isTableData` are exactly the frame-like and the table
      shapes: a frame stays as it is, a DTO is loaded, a document bag becomes
      one `other` column of the documents marked as JSON, a time series a
      `number` column and a `time` column, a table one column per descriptor
      with its `refId` and `meta`, and anything else the empty frame. */
  lemma ClassifyDispatch(p: Payload)
    ensures IsDataFrame(p) <==> Classify(p) == CanonicalFrame || Classify(p) == ColumnarDTO
    ensures IsTableData(p) <==> Classify(p) == TableShape
    ensures var r := ToDataFrame(p);
      && (Classify(p) == CanonicalFrame ==> r == p.frame)
      && (Classify(p) == ColumnarDTO ==> r == FromDTO(p.dto))
      && (Classify(p) == JSONDocumentShape ==>
            |r.fields| == 1 && r.fields[0].typ == Some(Other) && r.fields[0].values == p.datapoints
            && IsDocsMeta(r.meta))
      && (Classify(p) == TimeSeriesShape ==>
            |r.fields| == 2 && r.fields[0].typ == Some(Number) && r.fields[1].typ == Some(Time)
            && r.length == |p.datapoints| && !IsDocsMeta(r.meta))
      && (Classify(p) == TableShape ==>
            |r.fields| == |p.columns| && r.length == |p.rows| && r.refId == p.refId && r.meta == p.meta)
      && (Classify(p) == Unknown ==> r.fields == [] && r.length == 0)
  {
  }

  // ------------------------------------------------- toLegacyResponseData

  /** A field that reads as a time column: declared `time`, or guessed `time`
      from its name or its first value. */
  predicate IsTimeField(f: Field) {
    f.typ == Some(Time) || GuessFieldTypeForField(f) == Some(Time)
  }

  /** Exactly two fields, the second one a time column. */
  predicate IsSeriesFrame(f: Frame) {
    |f.fields| == 2 && IsTimeField(f.fields[1])
  }

  predicate IsDocsFrame(f: Frame) {
    IsDocsMeta(f.meta) && |f.fields| >= 1
  }

  function LegacyTarget(f: Frame): Option<string>
    requires |f.fields| >= 1
  {
    if f.fields[0].name != [] then Some(f.fields[0].name) else f.name
  }

  function TableRow(fields: seq<Field>, i: int): (r: seq<Value>)
    ensures |r| == |fields|
  {
    seq(|fields|, j requires 0 <= j < |fields| => At(fields[j].values, i))
  }

  /** `toLegacyResponseData`: a frame made from documents goes back to a
      document bag, a value-and-time pair of fields to a time series, anything
      else to a table. */
  function ToLegacy(f: Frame): (r: Payload)
    ensures r.SeriesPayload? || r.TablePayload?
    ensures !IsDataFrame(r)
    ensures IsTableData(r) <==> !IsDocsFrame(f) && !IsSeriesFrame(f)
  {
    if IsDocsFrame(f) then
      SeriesPayload(LegacyTarget(f), f.fields[0].values, Some(DocsType), f.fields[0].config)
    else if IsSeriesFrame(f) then
      SeriesPayload(LegacyTarget(f),
        seq(f.length, i requires 0 <= i < f.length => List([At(f.fields[0].values, i), At(f.fields[1].values, i)])),
        None, f.fields[0].config)
    else
      TablePayload(
        seq(|f.fields|, j requires 0 <= j < |f.fields| => Column(f.fields[j].name, f.fields[j].config)),
        seq(f.length, i requires 0 <= i < f.length => TableRow(f.fields, i)),
        Some(TableType), f.refId, f.meta)
  }
}

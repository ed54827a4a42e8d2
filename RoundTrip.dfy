/** What converting to a frame and projecting back keeps, family by family. */
module RoundTrip {
  import opened Values
  import opened Inference
  import opened Convert

  /** Every datapoint is a `[value, time]` pair. */
  predicate AllPairs(points: seq<Value>) {
    forall i :: 0 <= i < |points| ==> points[i].List? && |points[i].items| == 2
  }

  /** A time series converts to two columns holding the values and the times,
      and projects back to a time series with the same target (or "Value" for a
      missing or empty one), the same pass-through keys and, when every point is a pair,
      the same datapoints. */
  lemma {:induction false} TimeSeriesRoundTrip(target: Option<string>, points: seq<Value>, typ: Option<string>, extra: map<string, Value>)
    requires typ != Some(DocsType)
    ensures var back := ToLegacy(ToDataFrame(SeriesPayload(target, points, typ, extra)));
      && back.SeriesPayload?
      && back.target == Some(SeriesFieldName(target))
      && back.extra == extra
      && |back.datapoints| == |points|
      && (AllPairs(points) ==> back == SeriesPayload(Some(SeriesFieldName(target)), points, None, extra))
  {
    var f := ToDataFrame(SeriesPayload(target, points, typ, extra));
    assert f == FromTimeSeries(target, points, extra);
    assert !IsDocsFrame(f);
    assert IsSeriesFrame(f);
    var back := ToLegacy(f);
    assert back.datapoints ==
      seq(f.length, i requires 0 <= i < f.length => List([At(f.fields[0].values, i), At(f.fields[1].values, i)]));
    if AllPairs(points) {
      forall i | 0 <= i < |points|
        ensures back.datapoints[i] == points[i]
      {
        var items := points[i].items;
        assert back.datapoints[i] == List([items[0], items[1]]);
        assert items == [items[0], items[1]];
      }
    }
  }

  /** A JSON-document bag converts to one column holding the documents whole and
      projects back to the same bag: documents, `type`, target and every
      pass-through key (`filterable`, `total`, ...). */
  lemma DocumentsRoundTrip(target: Option<string>, docs: seq<Value>, extra: map<string, Value>)
    ensures var f := ToDataFrame(SeriesPayload(target, docs, Some(DocsType), extra));
      && |f.fields| == 1 && f.fields[0].name == SeriesFieldName(target) && f.fields[0].values == docs
      && ToLegacy(f) == SeriesPayload(Some(SeriesFieldName(target)), docs, Some(DocsType), extra)
  {
    var f := ToDataFrame(SeriesPayload(target, docs, Some(DocsType), extra));
    assert IsDocsFrame(f);
  }

  /** Every row has one cell per column. */
  predicate Rectangular(columns: seq<Column>, rows: seq<seq<Value>>) {
    forall i :: 0 <= i < |rows| ==> |rows[i]| == |columns|
  }

  /** A table that would read back as a time series: two columns, the second one
      named or valued like time. */
  predicate TableReadsAsSeries(columns: seq<Column>, rows: seq<seq<Value>>) {
    |columns| == 2 && IsTimeField(Field(columns[1].text, None, columns[1].extra, TableColumn(rows, 1)))
  }

  /** A table converts to one field per column with the column's keys (`unit`, ...)
      in its config, and projects back to the same columns and rows tagged
      `type: "table"`, keeping `refId` and `meta`. */
  lemma TableRoundTrip(columns: seq<Column>, rows: seq<seq<Value>>, typ: Option<string>,
                       refId: Option<string>, meta: Option<map<string, Value>>)
    requires Rectangular(columns, rows)
    requires !IsDocsMeta(meta) && !TableReadsAsSeries(columns, rows)
    ensures ToLegacy(ToDataFrame(TablePayload(columns, rows, typ, refId, meta)))
      == TablePayload(columns, rows, Some(TableType), refId, meta)
  {
    var f := ToDataFrame(TablePayload(columns, rows, typ, refId, meta));
    assert f == FromTable(columns, rows, refId, meta);
    assert |columns| == 2 ==> f.fields[1] == Field(columns[1].text, None, columns[1].extra, TableColumn(rows, 1));
    assert !IsSeriesFrame(f);
    var back := ToLegacy(f);
    assert back.columns == columns by {
      assert forall j :: 0 <= j < |columns| ==> back.columns[j] == Column(columns[j].text, columns[j].extra);
    }
    assert back.rows == rows by {
      forall i | 0 <= i < |rows|
        ensures back.rows[i] == rows[i]
      {
        assert back.rows[i] == TableRow(f.fields, i);
        forall j | 0 <= j < |columns|
          ensures TableRow(f.fields, i)[j] == rows[i][j]
        {
          assert f.fields[j].values == TableColumn(rows, j);
        }
      }
    }
  }

  /** The frame a table projection converts back to: no name, no declared types. */
  function Untyped(f: Frame): Frame {
    f.(name := None,
       fields := seq(|f.fields|, j requires 0 <= j < |f.fields| => f.fields[j].(typ := None)))
  }

  /** A well-formed frame projected to a table converts back to the same
      columns, values, configs, `refId` and `meta`; only the frame name and the
      declared types are not carried by a table. */
  lemma FrameTableRoundTrip(f: Frame)
    requires WellFormed(f) && !IsDocsFrame(f) && !IsSeriesFrame(f)
    ensures ToDataFrame(ToLegacy(f)) == Untyped(f)
  {
    var t := ToLegacy(f);
    var g := ToDataFrame(t);
    assert g == FromTable(t.columns, t.rows, f.refId, f.meta);
    forall j | 0 <= j < |f.fields|
      ensures g.fields[j] == Untyped(f).fields[j]
    {
      assert g.fields[j].values == f.fields[j].values by {
        forall i | 0 <= i < f.length
          ensures g.fields[j].values[i] == f.fields[j].values[i]
        {
          assert t.rows[i] == TableRow(f.fields, i);
        }
      }
    }
  }

  /** A frame projected to a table lists its fields, in order, as the table's
      columns (name as `text`, config keys alongside), one row per frame row, and
      copies `refId` and `meta`. */
  lemma TableProjection(f: Frame)
    requires !IsDocsFrame(f) && !IsSeriesFrame(f)
    ensures var t := ToLegacy(f);
      && t.TablePayload? && t.typ == Some(TableType) && t.refId == f.refId && t.meta == f.meta
      && |t.columns| == |f.fields| && |t.rows| == f.length
      && (forall j :: 0 <= j < |f.fields| ==> t.columns[j] == Column(f.fields[j].name, f.fields[j].config))
      && (forall i, j :: 0 <= i < f.length && 0 <= j < |f.fields| ==> t.rows[i][j] == At(f.fields[j].values, i))
  {
    var t := ToLegacy(f);
    forall i, j | 0 <= i < f.length && 0 <= j < |f.fields|
      ensures t.rows[i][j] == At(f.fields[j].values, i)
    {
      assert t.rows[i] == TableRow(f.fields, i);
    }
  }

  /** `toDataFrame` is idempotent: converting its own result changes nothing. */
  lemma ToDataFrameIdempotent(p: Payload)
    ensures ToDataFrame(FramePayload(ToDataFrame(p))) == ToDataFrame(p)
    ensures IsDataFrame(FramePayload(ToDataFrame(p))) && !IsDataFrame(ToLegacy(ToDataFrame(p)))
  {
  }

  // ------------------------------------------------------------ frame DTOs

  /** The field a DTO entry describes, before padding. */
  function DeclaredField(d: FieldDTO): Field {
    Field(d.name, d.typ, d.config.GetOr(map[]), d.values.GetOr([]))
  }

  /** `h` is `g` with missing values appended and nothing else changed. */
  predicate Extends(g: Field, h: Field) {
    && h.name == g.name && h.typ == g.typ && h.config == g.config
    && |h.values| >= |g.values| && h.values[..|g.values|] == g.values
    && forall i :: |g.values| <= i < |h.values| ==> h.values[i] == Null
  }

  lemma ExtendsTransitive(a: Field, b: Field, c: Field)
    requires Extends(a, b) && Extends(b, c)
    ensures Extends(a, c)
  {
    assert c.values[..|a.values|] == c.values[..|b.values|][..|a.values|];
    forall i | |a.values| <= i < |c.values|
      ensures c.values[i] == Null
    {
      if i < |b.values| {
        assert c.values[i] == c.values[..|b.values|][i];
      }
    }
  }

  /** Adding one DTO field only pads the fields already there, and the new
      field is its DTO entry padded with missing values. */
  lemma AddFieldExtends(g: Frame, d: FieldDTO)
    ensures var r := AddField(g, d);
      && (forall j :: 0 <= j < |g.fields| ==> Extends(g.fields[j], r.fields[j]))
      && Extends(DeclaredField(d), r.fields[|g.fields|])
  {
    var r := AddField(g, d);
    forall j | 0 <= j < |g.fields|
      ensures Extends(g.fields[j], r.fields[j])
    {
      assert r.fields[j] == r.fields[..|g.fields|][j];
    }
  }

  /** Adding DTO fields one by one only pads the fields already there, and
      each new field is its DTO entry padded with missing values. */
  lemma {:induction false} AddFieldsSpec(f: Frame, ds: seq<FieldDTO>)
    ensures var r := AddFields(f, ds);
      && (forall j :: 0 <= j < |f.fields| ==> Extends(f.fields[j], r.fields[j]))
      && (forall k :: 0 <= k < |ds| ==> Extends(DeclaredField(ds[k]), r.fields[|f.fields| + k]))
  {
    if ds != [] {
      var init := ds[..|ds| - 1];
      var g := AddFields(f, init);
      var r := AddField(g, ds[|ds| - 1]);
      AddFieldsSpec(f, init);
      AddFieldExtends(g, ds[|ds| - 1]);
      assert r == AddFields(f, ds);
      forall j | 0 <= j < |f.fields|
        ensures Extends(f.fields[j], r.fields[j])
      {
        ExtendsTransitive(f.fields[j], g.fields[j], r.fields[j]);
      }
      forall k | 0 <= k < |ds| - 1
        ensures Extends(DeclaredField(ds[k]), r.fields[|f.fields| + k])
      {
        assert ds[k] == init[k];
        ExtendsTransitive(DeclaredField(ds[k]), g.fields[|f.fields| + k], r.fields[|f.fields| + k]);
      }
    }
  }

  /** A DTO's columns become a well-formed frame whose length is that of its
      longest column: each field keeps its name, declared type (none stays none),
      config and values, shorter columns padded with missing values. */
  lemma DTOColumnsSpec(dto: FrameDTO)
    ensures var r := FromDTOColumns(dto);
      && WellFormed(r) && |r.fields| == |dto.fields|
      && r.name == dto.name && r.refId == dto.refId && r.meta == dto.meta
      && (forall k :: 0 <= k < |dto.fields| ==> |dto.fields[k].values.GetOr([])| <= r.length)
      && (r.length == 0 || exists k :: 0 <= k < |dto.fields| && r.length == |dto.fields[k].values.GetOr([])|)
      && (forall k :: 0 <= k < |dto.fields| ==> Extends(DeclaredField(dto.fields[k]), r.fields[k]))
  {
    DTOColumnsKeepNames(dto);
    DTOColumnsFields(dto);
  }

  lemma DTOColumnsKeepNames(dto: FrameDTO)
    ensures var r := FromDTOColumns(dto);
      r.name == dto.name && r.refId == dto.refId && r.meta == dto.meta
  {
    NamesAndMetaKept(Frame(dto.name, dto.refId, dto.meta, [], 0), dto.fields);
  }

  lemma DTOColumnsFields(dto: FrameDTO)
    ensures var r := FromDTOColumns(dto);
      forall k :: 0 <= k < |dto.fields| ==> Extends(DeclaredField(dto.fields[k]), r.fields[k])
  {
    var base := Frame(dto.name, dto.refId, dto.meta, [], 0);
    AddFieldsSpec(base, dto.fields);
    var r := AddFields(base, dto.fields);
    forall k | 0 <= k < |dto.fields|
      ensures Extends(DeclaredField(dto.fields[k]), r.fields[k])
    {
      assert |base.fields| + k == k;
    }
  }

  /** When every DTO column has the same number of values, nothing is padded:
      the frame holds each entry exactly as declared. */
  lemma UniformDTOColumns(dto: FrameDTO, n: nat)
    requires |dto.fields| > 0
    requires forall k :: 0 <= k < |dto.fields| ==> |dto.fields[k].values.GetOr([])| == n
    ensures var r := FromDTOColumns(dto);
      && r.length == n && |r.fields| == |dto.fields|
      && r.name == dto.name && r.refId == dto.refId && r.meta == dto.meta
      && forall k :: 0 <= k < |dto.fields| ==> r.fields[k] == DeclaredField(dto.fields[k])
  {
    var r := FromDTOColumns(dto);
    DTOColumnsSpec(dto);
    assert |dto.fields[0].values.GetOr([])| <= r.length;
    forall k | 0 <= k < |dto.fields|
      ensures r.fields[k] == DeclaredField(dto.fields[k])
    {
      var d := DeclaredField(dto.fields[k]);
      assert Extends(d, r.fields[k]);
      assert |r.fields[k].values| == n;
      assert r.fields[k].values == r.fields[k].values[..|d.values|];
    }
  }

  lemma {:induction false} NamesAndMetaKept(f: Frame, ds: seq<FieldDTO>)
    ensures var r := AddFields(f, ds); r.name == f.name && r.refId == f.refId && r.meta == f.meta
  {
    if ds != [] {
      NamesAndMetaKept(f, ds[..|ds| - 1]);
    }
  }

  /** Appending rows adds, to each field, that column of the rows, and changes
      nothing else. */
  lemma {:induction false} AppendRowsSpec(f: Frame, rows: seq<seq<Value>>)
    ensures var r := AppendRows(f, rows);
      && r.name == f.name && r.refId == f.refId && r.meta == f.meta
      && forall j :: 0 <= j < |f.fields| ==>
           r.fields[j] == f.fields[j].(values := f.fields[j].values + TableColumn(rows, j))
  {
    if rows != [] {
      var init := rows[..|rows| - 1];
      AppendRowsSpec(f, init);
      forall j | 0 <= j < |f.fields|
        ensures TableColumn(rows, j) == TableColumn(init, j) + [At(rows[|rows| - 1], j)]
      {
      }
    }
  }

  /** The 6.3-style `fields + rows` form: fields that name the columns and rows
      that hold the data convert like a table — one row per entry of `rows`,
      column `j` holding `rows[i][j]`. */
  lemma RowsMigration(dto: FrameDTO)
    requires dto.rows.Some?
    requires forall k :: 0 <= k < |dto.fields| ==> dto.fields[k].values.None?
    ensures var r := ToDataFrame(DTOPayload(dto));
      && r.length == |dto.rows.value| && |r.fields| == |dto.fields|
      && forall j :: 0 <= j < |dto.fields| ==>
           r.fields[j].name == dto.fields[j].name && r.fields[j].values == TableColumn(dto.rows.value, j)
  {
    var c := FromDTOColumns(dto);
    DTOColumnsSpec(dto);
    assert c.length == 0;
    AppendRowsSpec(c, dto.rows.value);
    forall j | 0 <= j < |dto.fields|
      ensures c.fields[j].values == []
    {
      assert |c.fields[j].values| == c.length;
    }
  }
}

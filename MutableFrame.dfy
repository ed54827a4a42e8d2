/** The mutable frame a frame DTO is loaded into: fields are added one at a
    time and 6.3-style rows are appended one at a time. */
module MutableFrames {
  import opened Values
  import opened Convert

  /** `MutableDataFrame`: a frame whose columns are updated in place. */
  class MutableFrame {
    var name: Option<string>
    var refId: Option<string>
    var meta: Option<map<string, Value>>
    var fields: seq<Field>
    var length: nat

    /** The frame this object currently holds. */
    function Snapshot(): Frame
      reads this
    {
      Frame(name, refId, meta, fields, length)
    }

    /** Every column holds exactly `length` values. */
    ghost predicate Valid()
      reads this
    {
      WellFormed(Snapshot())
    }

    /** `new MutableDataFrame(dto)`: the DTO's fields added in order. */
    constructor (dto: FrameDTO)
      ensures Valid() && Snapshot() == FromDTOColumns(dto)
    {
      name, refId, meta := dto.name, dto.refId, dto.meta;
      fields, length := [], 0;
      new;
      var base := Frame(dto.name, dto.refId, dto.meta, [], 0);
      var k := 0;
      while k < |dto.fields|
        invariant 0 <= k <= |dto.fields|
        invariant Valid()
        invariant Snapshot() == AddFields(base, dto.fields[..k])
      {
        AddFieldsPrefix(base, dto.fields, k);
        AddField(dto.fields[k]);
        k := k + 1;
      }
      assert dto.fields[..|dto.fields|] == dto.fields;
    }

    /** `addField`: when the new column is longer than the frame, every column
        is padded to its length first; the new column, padded to the frame's
        length, goes last. */
    method AddField(d: FieldDTO)
      requires Valid()
      modifies this
      ensures Valid()
      ensures Snapshot() == Convert.AddField(old(Snapshot()), d)
    {
      var vals := d.values.GetOr([]);
      if |vals| > length {
        var j := 0;
        while j < |fields|
          invariant 0 <= j <= |fields| == |old(fields)|
          invariant forall i :: 0 <= i < j ==>
            fields[i] == old(fields[i]).(values := Pad(old(fields[i]).values, |vals|))
          invariant forall i :: j <= i < |fields| ==> fields[i] == old(fields[i])
          invariant name == old(name) && refId == old(refId) && meta == old(meta) && length == old(length)
        {
          fields := fields[j := fields[j].(values := Pad(fields[j].values, |vals|))];
          j := j + 1;
        }
        length := |vals|;
        var n := |vals|;
        assert fields == seq(|old(fields)|, i requires 0 <= i < |old(fields)| =>
          old(fields[i]).(values := Pad(old(fields[i]).values, n)));
      } else {
        forall i | 0 <= i < |fields|
          ensures fields[i] == fields[i].(values := Pad(fields[i].values, length))
        {
          assert |fields[i].values| == length;
        }
      }
      fields := fields + [Field(d.name, d.typ, d.config.GetOr(map[]), Pad(vals, length))];
    }

    /** `appendRow`: the row's value at each field's position is pushed onto
        that field, a missing value when the row is short. */
    method AppendRow(row: seq<Value>)
      requires Valid()
      modifies this
      ensures Valid()
      ensures Snapshot() == Convert.AppendRow(old(Snapshot()), row)
    {
      var j := 0;
      while j < |fields|
        invariant 0 <= j <= |fields| == |old(fields)|
        invariant forall i :: 0 <= i < j ==>
          fields[i] == old(fields[i]).(values := old(fields[i]).values + [At(row, i)])
        invariant forall i :: j <= i < |fields| ==> fields[i] == old(fields[i])
        invariant name == old(name) && refId == old(refId) && meta == old(meta) && length == old(length)
      {
        fields := fields[j := fields[j].(values := fields[j].values + [At(row, j)])];
        j := j + 1;
      }
      length := length + 1;
      assert fields == seq(|old(fields)|, i requires 0 <= i < |old(fields)| =>
        old(fields[i]).(values := old(fields[i]).values + [At(row, i)]));
    }
  }

  /** Adding one more DTO field to a prefix of them. */
  lemma AddFieldsPrefix(base: Frame, ds: seq<FieldDTO>, k: nat)
    requires k < |ds|
    ensures AddFields(base, ds[..k + 1]) == Convert.AddField(AddFields(base, ds[..k]), ds[k])
  {
    assert ds[..k + 1][..k] == ds[..k];
  }

  /** `toDataFrame` on a frame DTO: the DTO is loaded into a mutable frame and,
      in the 6.3-style form, each of its rows is appended in turn. */
  method DataFrameFromDTO(dto: FrameDTO) returns (f: Frame)
    ensures f == ToDataFrame(DTOPayload(dto))
  {
    var m := new MutableFrame(dto);
    if dto.rows.Some? {
      var rows := dto.rows.value;
      for i := 0 to |rows|
        invariant m.Valid()
        invariant m.Snapshot() == AppendRows(FromDTOColumns(dto), rows[..i])
      {
        m.AppendRow(rows[i]);
        assert rows[..i + 1][..i] == rows[..i];
      }
      assert rows[..|rows|] == rows;
    }
    f := m.Snapshot();
  }
}

/** Values, fields and frames: the columnar representation every other module works on. */
module Values {

  datatype Option<+T> = None | Some(value: T) {
    function GetOr(default: T): T {
      match this
      case Some(v) => v
      case None => default
    }
  }

  datatype Result<+T, +E> = Ok(value: T) | Err(error: E)

  /** One raw cell value as a data source hands it over. `Null` stands for both
      `null` and `undefined`; `TimeVal` is an opaque date/time object. */
  datatype Value =
    | Null
    | Num(n: int)
    | Str(s: string)
    | Bool(b: bool)
    | TimeVal(stamp: int)
    | List(items: seq<Value>)
    | Obj(entries: map<string, Value>)

  /** The concrete column types; an undeclared type is `None` in an `Option<FieldType>`. */
  datatype FieldType = Time | Number | String | Boolean | Other

  datatype Field = Field(
    name: string,
    typ: Option<FieldType>,
    config: map<string, Value>,
    values: seq<Value>)

  datatype Frame = Frame(
    name: Option<string>,
    refId: Option<string>,
    meta: Option<map<string, Value>>,
    fields: seq<Field>,
    length: nat)

  /** The frame invariant: every column holds exactly `length` values. */
  predicate WellFormed(f: Frame) {
    forall j :: 0 <= j < |f.fields| ==> |f.fields[j].values| == f.length
  }

  /** Reading slot `i` of a value vector; past the end a vector yields `undefined`. */
  function At(s: seq<Value>, i: int): Value {
    if 0 <= i < |s| then s[i] else Null
  }

  /** The frame with no fields and no rows. */
  const EmptyFrame := Frame(None, None, None, [], 0)
}

/** Field-type inference: one value at a time, one column at a time, one frame at a time. */
module Inference {
  import opened Values
  import opened Text

  /** The type a single value suggests. `None` for a missing value: the caller
      has to look at another one. A string is trimmed, then read as a numeral,
      then as a boolean word in any case, and otherwise stays a string. */
  function GuessFieldTypeFromValue(v: Value): (r: Option<FieldType>)
    ensures r.None? <==> v.Null?
    ensures r == Some(Time) <==> v.TimeVal?
    ensures r == Some(Other) <==> v.List? || v.Obj?
    ensures r == Some(String) ==> v.Str?
    ensures v.Num? ==> r == Some(Number)
    ensures v.Bool? ==> r == Some(Boolean)
  {
    match v
    case Null => None
    case Bool(_) => Some(Boolean)
    case Num(_) => Some(Number)
    case TimeVal(_) => Some(Time)
    case Str(s) =>
      var t := Trim(s);
      if IsNumeral(t) then Some(Number)
      else if IsBooleanWord(t) then Some(Boolean)
      else Some(String)
    case List(_) => Some(Other)
    case Obj(_) => Some(Other)
  }

  /** A numeral written out as text, with any whitespace around it, is taken for a number. */
  lemma NumeralStringIsNumber(a: string, n: Numeral, b: string)
    requires ValidNumeral(n) && AllSpace(a) && AllSpace(b)
    ensures GuessFieldTypeFromValue(Str(a + RenderNumeral(n) + b)) == Some(Number)
  {
    NumeralTrimmed(n);
    TrimPadded(a, RenderNumeral(n), b);
    ParseRender(n);
  }

  /** A numeral written out as text is taken for a number. */
  lemma NumeralIsNumber(n: Numeral)
    requires ValidNumeral(n)
    ensures GuessFieldTypeFromValue(Str(RenderNumeral(n))) == Some(Number)
  {
    var t := RenderNumeral(n);
    NumeralTrimmed(n);
    TrimTrimmed(t);
    ParseRender(n);
    TrimmedNumeralIsNumber(t);
  }

  /** A string whose trimmed text is a numeral is taken for a number. */
  lemma TrimmedNumeralIsNumber(s: string)
    requires IsNumeral(Trim(s))
    ensures GuessFieldTypeFromValue(Str(s)) == Some(Number)
  {
  }

  /** A string whose trimmed text is neither a numeral nor a boolean word is
      taken for a string. */
  lemma TrimmedPlainIsString(s: string)
    requires !IsNumeral(Trim(s)) && !IsBooleanWord(Trim(s))
    ensures GuessFieldTypeFromValue(Str(s)) == Some(String)
  {
  }

  /** A written-out numeral has no whitespace at either end. */
  lemma NumeralTrimmed(n: Numeral)
    requires ValidNumeral(n)
    ensures Trimmed(RenderNumeral(n))
  {
    var t := RenderNumeral(n);
    TailHead(n);
    LastIsDigitOrPoint(n);
    if n.sign == [] {
      if n.whole != [] {
        assert t[0] == n.whole[0];
      } else {
        assert t[0] == RenderTail(n)[0];
      }
    } else {
      assert t[0] == n.sign[0];
    }
    NumeralCharNotSpace(t[0]);
    NumeralCharNotSpace(t[|t| - 1]);
  }

  /** A numeral ends in a digit, or in the point of a numeral like "1.". */
  lemma LastIsDigitOrPoint(n: Numeral)
    requires ValidNumeral(n)
    ensures var t := RenderNumeral(n); |t| > 0 && (IsDigit(t[|t| - 1]) || t[|t| - 1] == '.')
  {
    var ex := RenderExponent(n.exponent);
    var p: string := if n.point then "." else [];
    var head := n.sign + n.whole;
    var pre := head + p + n.frac;
    assert RenderNumeral(n) == pre + ex;
    if ex != [] {
      LastOfConcat(pre, ex);
      LastOfConcat([n.exponent.marker] + n.exponent.sign, n.exponent.digits);
    } else if n.frac != [] {
      LastOfConcat(head + p, n.frac);
    } else if n.point {
      LastOfConcat(head, p);
    } else {
      LastOfConcat(n.sign, n.whole);
    }
  }

  lemma LastOfConcat(x: string, y: string)
    requires y != []
    ensures (x + y)[|x + y| - 1] == y[|y| - 1]
  {
  }

  /** A string is taken for a number exactly when its trimmed text is a numeral. */
  lemma StringNumberIff(s: string)
    ensures GuessFieldTypeFromValue(Str(s)) == Some(Number) <==>
      exists n :: ValidNumeral(n) && RenderNumeral(n) == Trim(s)
  {
    NumeralCharacterised(Trim(s));
  }

  /** A string is taken for a boolean exactly when its trimmed text is `true`
      or `false` in some mix of cases: no boolean word is also a numeral. */
  lemma BooleanWordIff(s: string)
    ensures GuessFieldTypeFromValue(Str(s)) == Some(Boolean) <==> IsBooleanWord(Trim(s))
  {
    var t := Trim(s);
    if IsBooleanWord(t) {
      assert Lower(t)[|t| - 1] == 'e';
      if IsNumeral(t) {
        RenderParse(t);
        LastIsDigitOrPoint(ParseNumeral(t).value);
        assert false;
      }
    }
  }

  // --------------------------------------------------------- column inference

  /** The position of the first value that is not missing, scanning from the start. */
  function FirstNonNull(values: seq<Value>): (r: Option<nat>)
    ensures r.Some? ==> r.value < |values| && values[r.value] != Null
    ensures r.Some? ==> forall k :: 0 <= k < r.value ==> values[k] == Null
    ensures r.None? ==> AllMissing(values)
  {
    if values == [] then None
    else if values[0] != Null then Some(0)
    else
      match FirstNonNull(values[1..])
      case None => None
      case Some(k) => Some(k + 1)
  }

  predicate AllMissing(values: seq<Value>) {
    forall k :: 0 <= k < |values| ==> values[k] == Null
  }

  /** Slot `k` holds the first value that is not missing. */
  predicate IsFirstPresent(values: seq<Value>, k: int) {
    0 <= k < |values| && values[k] != Null && forall m :: 0 <= m < k ==> values[m] == Null
  }

  /** A column name that marks a time column whatever its values: "time" or
      "date" in any case. */
  predicate NamesTime(name: string) {
    Lower(name) == "time" || Lower(name) == "date"
  }

  /** The type one column's name and values suggest: the name decides first,
      then the first non-missing value; `None` when neither says anything. */
  function GuessFieldTypeForField(f: Field): (r: Option<FieldType>)
    ensures NamesTime(f.name) ==> r == Some(Time)
    ensures !NamesTime(f.name) ==>
      (r.None? <==> AllMissing(f.values))
    ensures !NamesTime(f.name) && r.Some? ==>
      exists k :: IsFirstPresent(f.values, k) && r == GuessFieldTypeFromValue(f.values[k])
  {
    if NamesTime(f.name) then Some(Time)
    else
      match FirstNonNull(f.values)
      case None => None
      case Some(k) => GuessFieldTypeFromValue(f.values[k])
  }

  /** A field whose type is declared keeps it; an undeclared one gets the
      guessed type, or `other` when nothing can be guessed. */
  function InferField(f: Field): Field {
    if f.typ.Some? then f
    else f.(typ := Some(GuessFieldTypeForField(f).GetOr(Other)))
  }

  /** The frame with a concrete type on every field. */
  function GuessFieldTypes(frame: Frame): Frame {
    frame.(fields := seq(|frame.fields|, j requires 0 <= j < |frame.fields| => InferField(frame.fields[j])))
  }

  /** What inference may do to one field `f` to give `h`: nothing but its type
      changes, a declared type stays, and an undeclared type is decided by the
      name, then by the first non-missing value, and is `other` for an
      all-missing column. */
  ghost predicate InferredFrom(f: Field, h: Field) {
    && h.name == f.name && h.config == f.config && h.values == f.values
    && h.typ.Some?
    && (f.typ.Some? ==> h.typ == f.typ)
    && (f.typ.None? && NamesTime(f.name) ==> h.typ == Some(Time))
    && (f.typ.None? && !NamesTime(f.name) && AllMissing(f.values) ==> h.typ == Some(Other))
    && (f.typ.None? && !NamesTime(f.name) ==>
          forall k :: IsFirstPresent(f.values, k) ==> h.typ == GuessFieldTypeFromValue(f.values[k]))
  }

  /** Inferring one field follows the policy. */
  lemma InferFieldSpec(f: Field)
    ensures InferredFrom(f, InferField(f))
  {
    if f.typ.None? && !NamesTime(f.name) {
      forall k | IsFirstPresent(f.values, k)
        ensures InferField(f).typ == GuessFieldTypeFromValue(f.values[k])
      {
        FirstPresentUnique(f.values, k);
      }
    }
  }

  /** The first non-missing value is the one the scan finds. */
  lemma FirstPresentUnique(values: seq<Value>, k: int)
    requires IsFirstPresent(values, k)
    ensures FirstNonNull(values) == Some(k)
  {
    var i := FirstNonNull(values).value;
    assert !(i < k) && !(k < i);
  }

  /** Guessing types on a frame types every field by the per-field policy,
      in place, and touches nothing else. */
  lemma GuessFieldTypesSpec(frame: Frame)
    ensures var g := GuessFieldTypes(frame);
      && |g.fields| == |frame.fields|
      && g.length == frame.length && g.name == frame.name && g.refId == frame.refId && g.meta == frame.meta
      && forall j :: 0 <= j < |frame.fields| ==> InferredFrom(frame.fields[j], g.fields[j])
  {
    var g := GuessFieldTypes(frame);
    forall j | 0 <= j < |frame.fields|
      ensures InferredFrom(frame.fields[j], g.fields[j])
    {
      InferFieldSpec(frame.fields[j]);
    }
  }

  /** Guessing types keeps the frame invariant and is idempotent. */
  lemma GuessFieldTypesStable(frame: Frame)
    ensures WellFormed(frame) ==> WellFormed(GuessFieldTypes(frame))
    ensures GuessFieldTypes(GuessFieldTypes(frame)) == GuessFieldTypes(frame)
    ensures forall j :: 0 <= j < |frame.fields| ==> GuessFieldTypes(frame).fields[j].typ.Some?
  {
    var g := GuessFieldTypes(frame);
    assert forall j :: 0 <= j < |g.fields| ==> InferField(g.fields[j]) == g.fields[j];
  }
}

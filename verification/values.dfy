/** The Go values that reach the converters, as a closed datatype standing in
    for `interface{}` and the runtime type switch, and the errors the
    converters report. */
module Values {
  import opened Wrappers
  import opened Host
  import opened Ast
  import Decimal

  /** Errors, by the message that builds them. */
  datatype Error =
      /** `errors.Errorf("can't convert %T into SQL expr", val)` */
    | CantConvert(typeName: string)
      /** `errors.WithMessagef(err, "at index %d", i)` */
    | AtIndex(index: nat, cause: Error)
      /** `errors.WithMessagef(err, "can't convert %T into SQL row", row)` */
    | CantConvertRow(rowType: string, cause: Error)
      /** an error returned by code outside the model: a custom encoder, or
          the SELECT builder */
    | Foreign(message: string)
  {
    /** The text `err.Error()` gives: a wrapping message comes first, then
        ": " and the wrapped error's text. */
    function Message(): string {
      match this
      case CantConvert(t) => "can't convert " + t + " into SQL expr"
      case AtIndex(i, c) => "at index " + Decimal.FormatInt(i) + ": " + c.Message()
      case CantConvertRow(t, c) => "can't convert " + t + " into SQL row: " + c.Message()
      case Foreign(m) => m
    }
  }

  /** Wrapping keeps the cause's text whole: a wrapped error's text ends in
      ": " followed by the cause's text, and the context comes before it. */
  lemma WrappedMessageEndsWithCause(e: Error)
    requires e.AtIndex? || e.CantConvertRow?
    ensures var m, c := e.Message(), e.cause.Message();
      |m| > |c| + 2 && m[|m| - |c| - 2..] == ": " + c
  {
    var c := e.cause.Message();
    var head := if e.AtIndex? then "at index " + Decimal.FormatInt(e.index)
                else "can't convert " + e.rowType + " into SQL row";
    assert e.Message() == head + ": " + c;
    assert |head| > 0;
    assert (head + ": " + c)[|head|..] == ": " + c;
  }

  /** A Go dynamic value. A pointer is an Option (None is a nil pointer); a
      `spanner.Null*` wrapper keeps its payload and its `Valid` flag. The
      `typ` of `Slice`, `NilSlice`, `Custom` and `Other` is the Go type's
      name; it is never a type with a constructor of its own (`[]uint8` is
      `Bytes`, `string` is `Str`), which the datatype does not enforce. */
  datatype Value =
    | Nil                                              // untyped nil
    | Str(s: string)                                   // string
    | StrPtr(sp: Option<string>)                       // *string
    | NullString(s: string, valid: bool)               // spanner.NullString
    | Bytes(bytes: Option<seq<byte>>)                  // []byte, None when nil
    | Int(n: int64)                                    // int
    | IntPtr(np: Option<int64>)                        // *int
    | Int64(n: int64)                                  // int64
    | Int64Ptr(np: Option<int64>)                      // *int64
    | NullInt64(n: int64, valid: bool)                 // spanner.NullInt64
    | Bool(b: bool)                                    // bool
    | BoolPtr(bp: Option<bool>)                        // *bool
    | NullBool(b: bool, valid: bool)                   // spanner.NullBool
    | Float64(f: FloatBits)                            // float64
    | Float64Ptr(fp: Option<FloatBits>)               // *float64
    | NullFloat64(f: FloatBits, valid: bool)           // spanner.NullFloat64
    | Time(t: Timestamp)                               // time.Time
    | TimePtr(tp: Option<Timestamp>)                   // *time.Time
    | NullTime(t: Timestamp, valid: bool)              // spanner.NullTime
    | Date(d: CivilDate)                               // civil.Date
    | DatePtr(dp: Option<CivilDate>)                   // *civil.Date
    | NullDate(d: CivilDate, valid: bool)              // spanner.NullDate
      /** any other slice type, non-nil, with its elements */
    | Slice(typ: string, elems: seq<Value>)
      /** a nil slice of any slice type other than []byte */
    | NilSlice(typ: string)
      /** a value whose type has the method `ToASTExpr() (ast.Expr, error)`,
          with what that method returns */
    | Custom(typ: string, encoded: Result<Expr, Error>)
      /** a value of any other type (struct, map, pointer to struct, other
          numeric types, ...) */
    | Other(typ: string)

  /** The name Go's `%T` prints for the value's dynamic type. */
  function TypeName(v: Value): string {
    match v
    case Nil => "<nil>"
    case Str(_) => "string"
    case StrPtr(_) => "*string"
    case NullString(_, _) => "spanner.NullString"
    case Bytes(_) => "[]uint8"
    case Int(_) => "int"
    case IntPtr(_) => "*int"
    case Int64(_) => "int64"
    case Int64Ptr(_) => "*int64"
    case NullInt64(_, _) => "spanner.NullInt64"
    case Bool(_) => "bool"
    case BoolPtr(_) => "*bool"
    case NullBool(_, _) => "spanner.NullBool"
    case Float64(_) => "float64"
    case Float64Ptr(_) => "*float64"
    case NullFloat64(_, _) => "spanner.NullFloat64"
    case Time(_) => "time.Time"
    case TimePtr(_) => "*time.Time"
    case NullTime(_, _) => "spanner.NullTime"
    case Date(_) => "civil.Date"
    case DatePtr(_) => "*civil.Date"
    case NullDate(_, _) => "spanner.NullDate"
    case Slice(t, _) => t
    case NilSlice(t) => t
    case Custom(t, _) => t
    case Other(t) => t
  }

  /** Pointers and `spanner.Null*` wrappers around a scalar. */
  predicate IsWrapper(v: Value) {
    v.StrPtr? || v.NullString? || v.IntPtr? || v.Int64Ptr? || v.NullInt64? ||
    v.BoolPtr? || v.NullBool? || v.Float64Ptr? || v.NullFloat64? ||
    v.TimePtr? || v.NullTime? || v.DatePtr? || v.NullDate?
  }

  /** The bare scalars (string, []byte, integers, bool, float, time, date). */
  predicate IsBareScalar(v: Value) {
    v.Str? || (v.Bytes? && v.bytes.Some?) || v.Int? || v.Int64? || v.Bool? ||
    v.Float64? || v.Time? || v.Date?
  }

  /** What a wrapper stands for: the untyped nil when it is a nil pointer or
      an invalid `Null*`, otherwise the bare payload (an `*int` payload is an
      `int`, a `spanner.NullInt64` payload an `int64`). */
  function Unwrap(v: Value): (r: Value)
    requires IsWrapper(v)
    ensures r.Nil? || IsBareScalar(r)
    ensures r.Nil? <==> HoldsNothing(v)
    ensures (v.StrPtr? || v.NullString?) && !r.Nil? ==> r.Str?
    ensures v.IntPtr? && !r.Nil? ==> r.Int?
    ensures (v.Int64Ptr? || v.NullInt64?) && !r.Nil? ==> r.Int64?
    ensures (v.BoolPtr? || v.NullBool?) && !r.Nil? ==> r.Bool?
    ensures (v.Float64Ptr? || v.NullFloat64?) && !r.Nil? ==> r.Float64?
    ensures (v.TimePtr? || v.NullTime?) && !r.Nil? ==> r.Time?
    ensures (v.DatePtr? || v.NullDate?) && !r.Nil? ==> r.Date?
  {
    match v
    case StrPtr(p) => if p.Some? then Str(p.value) else Nil
    case NullString(s, ok) => if ok then Str(s) else Nil
    case IntPtr(p) => if p.Some? then Int(p.value) else Nil
    case Int64Ptr(p) => if p.Some? then Int64(p.value) else Nil
    case NullInt64(n, ok) => if ok then Int64(n) else Nil
    case BoolPtr(p) => if p.Some? then Bool(p.value) else Nil
    case NullBool(b, ok) => if ok then Bool(b) else Nil
    case Float64Ptr(p) => if p.Some? then Float64(p.value) else Nil
    case NullFloat64(f, ok) => if ok then Float64(f) else Nil
    case TimePtr(p) => if p.Some? then Time(p.value) else Nil
    case NullTime(t, ok) => if ok then Time(t) else Nil
    case DatePtr(p) => if p.Some? then Date(p.value) else Nil
    case NullDate(d, ok) => if ok then Date(d) else Nil
  }

  /** A wrapper with nothing inside: a nil pointer or a `Null*` whose `Valid`
      is false. */
  predicate HoldsNothing(v: Value)
    requires IsWrapper(v)
  {
    match v
    case StrPtr(p) => p.None?
    case IntPtr(p) => p.None?
    case Int64Ptr(p) => p.None?
    case BoolPtr(p) => p.None?
    case Float64Ptr(p) => p.None?
    case TimePtr(p) => p.None?
    case DatePtr(p) => p.None?
    case NullString(_, ok) => !ok
    case NullInt64(_, ok) => !ok
    case NullBool(_, ok) => !ok
    case NullFloat64(_, ok) => !ok
    case NullTime(_, ok) => !ok
    case NullDate(_, ok) => !ok
  }

  /** Values that stand for SQL NULL: the untyped nil, a nil pointer, an
      invalid `Null*` wrapper and a nil `[]byte`. */
  predicate IsAbsent(v: Value) {
    v.Nil? || (v.Bytes? && v.bytes.None?) || (IsWrapper(v) && Unwrap(v).Nil?)
  }
}

/** The value-to-expression dispatcher of internal/ast.go (`ToExpr`) and its
    literal constructors. */
module Internal {
  import opened Wrappers
  import opened Host
  import opened Ast
  import opened Values
  import Decimal

  function NullLit(): Expr { NullLiteral }

  function StringLit(v: string): Expr { StringLiteral(v) }

  function BytesLit(v: seq<byte>): Expr { BytesLiteral(v) }

  /** An INT64 literal in base 10 (see `IntLitIsDecimal`). */
  function IntLit(v: int64): Expr {
    IntLiteral(10, Decimal.FormatInt(v as int))
  }

  /** An INT64 literal is in base 10, and its text reads back as `v`, with
      no leading zero, no plus sign and no "-0"; distinct numbers give
      distinct literals. */
  lemma IntLitIsDecimal(v: int64)
    ensures IntLit(v).IntLiteral? && IntLit(v).base == 10
    ensures Decimal.ParseInt(IntLit(v).value) == Some(v as int)
    ensures Decimal.IsCanonicalInt(IntLit(v).value)
    ensures forall w: int64 :: IntLit(w) == IntLit(v) ==> w == v
  {
    Decimal.ParseFormatInt(v as int);
    Decimal.FormatIntCanonical(v as int);
    forall w: int64 | IntLit(w) == IntLit(v) ensures w == v {
      Decimal.FormatIntInjective(w as int, v as int);
    }
  }

  function BoolLit(v: bool): Expr { BoolLiteral(v) }

  function FloatLit(v: FloatBits): Expr { FloatLiteral(v) }

  function TimeLit(v: Timestamp): Expr { TimestampLiteral(v) }

  function DateLit(v: CivilDate): Expr { DateLiteral(v) }

  function ArrayLit(exprs: seq<Expr>): Expr { ArrayLiteral(exprs) }

  /** `ToExpr`: the cases of the type switch in order, then the custom
      encoder, then slices, then the error naming the type. */
  function ToExpr(val: Value): (r: Result<Expr, Error>)
    decreases val, 1
  {
    match val
    case Nil => Success(NullLit())
    case Str(s) => Success(StringLit(s))
    case StrPtr(p) => if p.None? then Success(NullLit()) else Success(StringLit(p.value))
    case NullString(s, valid) => if !valid then Success(NullLit()) else Success(StringLit(s))
    case Bytes(b) => if b.None? then Success(NullLit()) else Success(BytesLit(b.value))
    case Int(n) => Success(IntLit(n))
    case IntPtr(p) => if p.None? then Success(NullLit()) else Success(IntLit(p.value))
    case Int64(n) => Success(IntLit(n))
    case Int64Ptr(p) => if p.None? then Success(NullLit()) else Success(IntLit(p.value))
    case NullInt64(n, valid) => if !valid then Success(NullLit()) else Success(IntLit(n))
    case Bool(b) => Success(BoolLit(b))
    case BoolPtr(p) => if p.None? then Success(NullLit()) else Success(BoolLit(p.value))
    case NullBool(b, valid) => if !valid then Success(NullLit()) else Success(BoolLit(b))
    case Float64(f) => Success(FloatLit(f))
    case Float64Ptr(p) => if p.None? then Success(NullLit()) else Success(FloatLit(p.value))
    case NullFloat64(f, valid) => if !valid then Success(NullLit()) else Success(FloatLit(f))
    case Time(t) => Success(TimeLit(t))
    case TimePtr(p) => if p.None? then Success(NullLit()) else Success(TimeLit(p.value))
    case NullTime(t, valid) => if !valid then Success(NullLit()) else Success(TimeLit(t))
    case Date(d) => Success(DateLit(d))
    case DatePtr(p) => if p.None? then Success(NullLit()) else Success(DateLit(p.value))
    case NullDate(d, valid) => if !valid then Success(NullLit()) else Success(DateLit(d))
    case Custom(_, encoded) => encoded
    case Slice(_, elems) =>
      (match ConvertElements(elems)
       case Success(exprs) => Success(ArrayLit(exprs))
       case Failure(e) => Failure(e))
    case NilSlice(_) => Success(ArrayLit([]))  // a nil slice has length 0
    case Other(t) => Failure(CantConvert(t))
  }

  /** The loop of the slice branch as a value: the elements converted in
      order; the first element that fails stops it, and its error gets the
      prefix "at index i" (see `ConvertElementsMeaning`). */
  function ConvertElements(elems: seq<Value>): Result<seq<Expr>, Error>
    decreases elems, 0
  {
    if elems == [] then Success([])
    else
      var n := |elems| - 1;
      match ConvertElements(elems[..n])
      case Failure(e) => Failure(e)
      case Success(prefix) =>
        match ToExpr(elems[n])
        case Failure(e) => Failure(AtIndex(n, e))
        case Success(x) => Success(prefix + [x])
  }

  /** The elements convert exactly when each one does, to their conversions
      in order. */
  lemma {:induction false} ConvertElementsMeaning(elems: seq<Value>)
    ensures ConvertElements(elems).Success? <==> forall i | 0 <= i < |elems| :: ToExpr(elems[i]).Success?
    ensures ConvertElements(elems).Success? ==>
      |ConvertElements(elems).value| == |elems| &&
      forall i | 0 <= i < |elems| :: ConvertElements(elems).value[i] == ToExpr(elems[i]).value
  {
    if elems != [] {
      var n := |elems| - 1;
      var init := elems[..n];
      ConvertElementsMeaning(init);
      assert forall i | 0 <= i < n :: init[i] == elems[i];
      var last := ToExpr(elems[n]);
      match ConvertElements(init)
      case Failure(e) =>
        assert ConvertElements(elems) == Failure(e);
      case Success(prefix) =>
        if last.Success? {
          assert ConvertElements(elems) == Success(prefix + [last.value]);
        }
    }
  }

  /** When the elements do not convert, the error is that of the lowest
      failing index, prefixed by that index. */
  lemma {:induction false} ConvertElementsFirstFailure(elems: seq<Value>)
    requires ConvertElements(elems).Failure?
    ensures exists i | 0 <= i < |elems| ::
      ToExpr(elems[i]).Failure? && (forall j | 0 <= j < i :: ToExpr(elems[j]).Success?) &&
      ConvertElements(elems).error == AtIndex(i, ToExpr(elems[i]).error)
  {
    var n := |elems| - 1;
    var init := elems[..n];
    assert forall i | 0 <= i < n :: init[i] == elems[i];
    var last := ToExpr(elems[n]);
    match ConvertElements(init)
    case Failure(e) =>
      ConvertElementsFirstFailure(init);
      assert ConvertElements(elems) == Failure(e);
      var i :| 0 <= i < n && ToExpr(init[i]).Failure? &&
        (forall j | 0 <= j < i :: ToExpr(init[j]).Success?) && e == AtIndex(i, ToExpr(init[i]).error);
      assert ToExpr(elems[i]).Failure? && ToExpr(elems[i]).error == ToExpr(init[i]).error;
    case Success(prefix) =>
      ConvertElementsMeaning(init);
      assert last.Failure?;
      assert ConvertElements(elems) == Failure(AtIndex(n, last.error));
      assert forall j | 0 <= j < n :: ToExpr(elems[j]).Success?;
  }

  /** Once a prefix of the elements fails, the whole slice fails with the
      same error: later elements are never looked at. */
  lemma {:induction false} ConvertElementsStopsAtFailure(elems: seq<Value>, k: nat)
    requires k <= |elems| && ConvertElements(elems[..k]).Failure?
    ensures ConvertElements(elems) == ConvertElements(elems[..k])
  {
    if k < |elems| {
      var n := |elems| - 1;
      assert elems[..n][..k] == elems[..k];
      ConvertElementsStopsAtFailure(elems[..n], k);
    } else {
      assert elems[..k] == elems;
    }
  }

  /** The loop of the slice branch as the source writes it: append each
      element's conversion to `exprs`, return at the first error. */
  method ConvertSlice(typ: string, elems: seq<Value>) returns (r: Result<Expr, Error>)
    ensures r == ToExpr(Slice(typ, elems))
  {
    var exprs: seq<Expr> := [];
    var i := 0;
    while i < |elems|
      invariant 0 <= i <= |elems|
      invariant ConvertElements(elems[..i]) == Success(exprs)
    {
      var ei := ToExpr(elems[i]);
      assert elems[..i + 1][..i] == elems[..i];
      if ei.Failure? {
        ConvertElementsStopsAtFailure(elems, i + 1);
        return Failure(AtIndex(i, ei.error));
      }
      exprs := exprs + [ei.value];
      i := i + 1;
    }
    assert elems[..i] == elems;
    r := Success(ArrayLit(exprs));
  }

  /** The untyped nil is NULL. */
  lemma NilIsNull()
    ensures ToExpr(Nil) == Success(NullLiteral)
  {
  }

  /** NULL comes out exactly for the absent values (the untyped nil, nil
      pointers, invalid `Null*` wrappers, a nil `[]byte`) and for custom
      encoders that themselves return NULL; never for a slice, nil or not. */
  lemma NullExactlyWhenAbsent(v: Value)
    ensures ToExpr(v) == Success(NullLiteral) <==>
      IsAbsent(v) || (v.Custom? && v.encoded == Success(NullLiteral))
  {
  }

  /** Every pointer and `spanner.Null*` wrapper converts exactly as what it
      stands for: NULL when nil or invalid (whatever the payload), otherwise
      the conversion of the bare payload. */
  lemma WrapperConvertsAsUnwrapped(v: Value)
    requires IsWrapper(v)
    ensures ToExpr(v) == ToExpr(Unwrap(v))
    ensures ToExpr(v) == Success(NullLiteral) <==> Unwrap(v).Nil?
  {
    if v.StrPtr? || v.IntPtr? || v.Int64Ptr? || v.BoolPtr? || v.Float64Ptr? || v.TimePtr? || v.DatePtr? {
      PointerConvertsAsUnwrapped(v);
    } else {
      NullWrapperConvertsAsUnwrapped(v);
    }
  }

  /** `WrapperConvertsAsUnwrapped` for the pointer types. */
  lemma PointerConvertsAsUnwrapped(v: Value)
    requires v.StrPtr? || v.IntPtr? || v.Int64Ptr? || v.BoolPtr? || v.Float64Ptr? || v.TimePtr? || v.DatePtr?
    ensures ToExpr(v) == ToExpr(Unwrap(v))
    ensures ToExpr(v) == Success(NullLiteral) <==> Unwrap(v).Nil?
  {
    match v
    case StrPtr(_) =>
    case IntPtr(_) =>
    case Int64Ptr(_) =>
    case BoolPtr(_) =>
    case Float64Ptr(_) =>
    case TimePtr(_) =>
    case DatePtr(_) =>
  }

  /** `WrapperConvertsAsUnwrapped` for the `spanner.Null*` types. */
  lemma NullWrapperConvertsAsUnwrapped(v: Value)
    requires v.NullString? || v.NullInt64? || v.NullBool? || v.NullFloat64? || v.NullTime? || v.NullDate?
    ensures ToExpr(v) == ToExpr(Unwrap(v))
    ensures ToExpr(v) == Success(NullLiteral) <==> Unwrap(v).Nil?
  {
    match v
    case NullString(_, _) =>
    case NullInt64(_, _) =>
    case NullBool(_, _) =>
    case NullFloat64(_, _) =>
    case NullTime(_, _) =>
    case NullDate(_, _) =>
  }

  /** A nil `[]byte` is NULL; any other `[]byte` is a BYTES literal with
      exactly its bytes, never an ARRAY. */
  lemma BytesAreBytesLiteral(b: Option<seq<byte>>)
    ensures b.None? ==> ToExpr(Bytes(b)) == Success(NullLiteral)
    ensures b.Some? ==> ToExpr(Bytes(b)) == Success(BytesLiteral(b.value))
  {
  }

  /** `int`, `int64`, their pointers and `spanner.NullInt64`, when present,
      give a base-10 integer literal whose text reads back as the number. */
  lemma IntegersAreDecimalLiterals(v: Value)
    requires v.Int? || v.Int64? || (v.IntPtr? && v.np.Some?) || (v.Int64Ptr? && v.np.Some?) ||
             (v.NullInt64? && v.valid)
    ensures ToExpr(v).Success? && ToExpr(v).value.IntLiteral? && ToExpr(v).value.base == 10
    ensures var n := if v.IntPtr? || v.Int64Ptr? then v.np.value else v.n;
      Decimal.ParseInt(ToExpr(v).value.value) == Some(n as int)
  {
    IntLitIsDecimal(if v.IntPtr? || v.Int64Ptr? then v.np.value else v.n);
  }

  /** A custom encoder's result is returned as it is, value or error. */
  lemma CustomEncoderVerbatim(typ: string, encoded: Result<Expr, Error>)
    ensures ToExpr(Custom(typ, encoded)) == encoded
  {
  }

  /** A slice becomes an ARRAY literal of its elements' conversions, in
      order and of the same length, when every element converts; otherwise
      the conversion fails with the error of the lowest failing index,
      prefixed by that index, and there is no partial result. */
  lemma SliceIsArrayLiteral(typ: string, elems: seq<Value>)
    ensures ToExpr(Slice(typ, elems)).Success? <==>
      forall i | 0 <= i < |elems| :: ToExpr(elems[i]).Success?
    ensures ToExpr(Slice(typ, elems)).Success? ==>
      var a := ToExpr(Slice(typ, elems)).value;
      a.ArrayLiteral? && |a.values| == |elems| &&
      forall i | 0 <= i < |elems| :: a.values[i] == ToExpr(elems[i]).value
    ensures ToExpr(Slice(typ, elems)).Failure? ==>
      exists i | 0 <= i < |elems| ::
        ToExpr(elems[i]).Failure? && (forall j | 0 <= j < i :: ToExpr(elems[j]).Success?) &&
        ToExpr(Slice(typ, elems)).error == AtIndex(i, ToExpr(elems[i]).error)
  {
    ConvertElementsMeaning(elems);
    if ConvertElements(elems).Failure? {
      ConvertElementsFirstFailure(elems);
    }
  }

  /** An empty slice and a nil slice (other than `[]byte`) both give the
      empty ARRAY literal, not NULL. */
  lemma EmptyAndNilSlicesAreEmptyArrays(typ: string)
    ensures ToExpr(Slice(typ, [])) == Success(ArrayLiteral([]))
    ensures ToExpr(NilSlice(typ)) == Success(ArrayLiteral([]))
  {
  }

  /** A value of any unsupported type is an error naming its type. */
  lemma UnsupportedTypeIsError(typ: string)
    ensures ToExpr(Other(typ)) == Failure(CantConvert(typ))
  {
  }

  /** Values the converter accepts, defined without reference to it: no
      unsupported type anywhere inside, and no custom encoder that fails. */
  predicate Convertible(v: Value) {
    match v
    case Other(_) => false
    case Custom(_, encoded) => encoded.Success?
    case Slice(_, elems) => forall i | 0 <= i < |elems| :: Convertible(elems[i])
    case _ => true
  }

  /** No silent coercion: the conversion succeeds exactly on convertible
      values, and fails on every other one. */
  lemma {:induction false} SucceedsIffConvertible(v: Value)
    ensures ToExpr(v).Success? <==> Convertible(v)
  {
    if v.Slice? {
      ConvertElementsMeaning(v.elems);
      forall i | 0 <= i < |v.elems|
        ensures ToExpr(v.elems[i]).Success? <==> Convertible(v.elems[i])
      {
        SucceedsIffConvertible(v.elems[i]);
      }
    }
  }

  /** Nested slices: `[][]string{{}, {"a"}, {"b", "c"}}` gives
      `ARRAY[], ARRAY["a"], ARRAY["b", "c"]` nested in one ARRAY. */
  lemma NestedSlicesKeepShape()
    ensures ToExpr(Slice("[][]string", [Slice("[]string", []), Slice("[]string", [Str("a")]),
                                        Slice("[]string", [Str("b"), Str("c")])]))
         == Success(ArrayLiteral([ArrayLiteral([]), ArrayLiteral([StringLiteral("a")]),
                                  ArrayLiteral([StringLiteral("b"), StringLiteral("c")])]))
  {
    var e0, e1, e2 := Slice("[]string", []), Slice("[]string", [Str("a")]), Slice("[]string", [Str("b"), Str("c")]);
    var a0, a1, a2 := ArrayLiteral([]), ArrayLiteral([StringLiteral("a")]),
                      ArrayLiteral([StringLiteral("b"), StringLiteral("c")]);
    SliceIsArrayLiteral("[]string", e1.elems);
    assert ToExpr(e1).value.values == a1.values;
    SliceIsArrayLiteral("[]string", e2.elems);
    assert ToExpr(e2).value.values == a2.values;
    SliceIsArrayLiteral("[][]string", [e0, e1, e2]);
    assert ToExpr(Slice("[][]string", [e0, e1, e2])).value.values == [a0, a1, a2];
  }

  /** A failure two slices deep carries one "at index" per level, the outer
      index (1) outermost and the inner one (0) next to the cause; the
      element `w` after the failing one, whatever it is, is never looked at. */
  lemma NestedErrorsCarryEveryIndex(typ: string, w: Value)
    ensures ToExpr(Slice("[]interface {}", [Int(1), Slice("[]interface {}", [Other(typ), w])]))
         == Failure(AtIndex(1, AtIndex(0, CantConvert(typ))))
  {
    var inner := [Other(typ), w];
    assert ToExpr(inner[0]) == Failure(CantConvert(typ));
    SliceIsArrayLiteral("[]interface {}", inner);
    assert ToExpr(Slice("[]interface {}", inner)) == Failure(AtIndex(0, CantConvert(typ)));
    assert ToExpr(Int(1)).Success?;
    SliceIsArrayLiteral("[]interface {}", [Int(1), Slice("[]interface {}", inner)]);
  }
}

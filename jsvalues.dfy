/**
 * The JavaScript values that flow through the dashboard's rows and filter
 * sets, and the coercions the code applies to them: `===`, `==`,
 * `Number(v)`, `String(v)` and truthiness.
 *
 * A row is a map from column name to value; a column the row lacks reads
 * as `undefined`. Membership in a JavaScript `Set` (SameValueZero) is
 * membership in a Dafny set: every value, NaN included, equals itself.
 */
module JsValues {
  import opened JsText

  datatype Value = Undefined | Null | Bool(b: bool) | Num(n: Number) | Str(s: string)

  type Row = map<string, Value>

  /** `row[column]`. */
  function Get(row: Row, column: string): (v: Value)
    ensures column !in row ==> v == Undefined
    ensures column in row ==> v == row[column]
  {
    if column in row then row[column] else Undefined
  }

  /** `rows.map(row => row[column])`. */
  function Column(rows: seq<Row>, column: string): (r: seq<Value>)
    ensures |r| == |rows| && forall i :: 0 <= i < |rows| ==> r[i] == Get(rows[i], column)
  {
    seq(|rows|, i requires 0 <= i < |rows| => Get(rows[i], column))
  }

  predicate IsNullish(v: Value) { v == Undefined || v == Null }

  /** `a === b`: the same value, except that NaN equals nothing. */
  predicate StrictEquals(a: Value, b: Value) {
    a == b && a != Num(NaN)
  }

  /** `a == b` between two numbers: NaN equals nothing. */
  predicate NumEquals(a: Number, b: Number) {
    a.Fin? && a == b
  }

  /** `Number(v)`. */
  function ToNumber(v: Value): (n: Number)
    ensures v.Num? ==> n == v.n
    ensures IsNullish(v) ==> (n == NaN <==> v == Undefined)
  {
    match v
    case Undefined => NaN
    case Null => Fin(0)
    case Bool(b) => if b then Fin(1) else Fin(0)
    case Num(n) => n
    case Str(s) => StringToNumber(s)
  }

  /** `Number(null)` and `Number("")` are both 0. */
  lemma NullAndEmptyAreZero(v: Value)
    requires v == Null || v == Str("")
    ensures ToNumber(v) == Fin(0)
  {
    if v == Str("") {
      assert TrimStart("") == "" && TrimEnd("") == "";
    }
  }

  /** `String(v)`. */
  function ToStr(v: Value): string {
    match v
    case Undefined => "undefined"
    case Null => "null"
    case Bool(b) => if b then "true" else "false"
    case Num(NaN) => "NaN"
    case Num(Fin(i)) => IntToString(i)
    case Str(s) => s
  }

  /** `String(v)` reads back through `Number` for every finite number. */
  lemma ToStrNumberRoundTrip(i: int)
    ensures ToNumber(Str(ToStr(Num(Fin(i))))) == Fin(i)
  {
    IntToStringRoundTrip(i);
  }

  /** Truthiness, as in `if (v)` and `a || b`. */
  predicate Truthy(v: Value) {
    match v
    case Undefined => false
    case Null => false
    case Bool(b) => b
    case Num(n) => n.Fin? && n.v != 0
    case Str(s) => s != ""
  }

  /** `a || b`. */
  function Or(a: Value, b: Value): (r: Value)
    ensures Truthy(a) ==> r == a
    ensures !Truthy(a) ==> r == b
  {
    if Truthy(a) then a else b
  }

  function BoolToNumber(b: bool): Number { if b then Fin(1) else Fin(0) }

  /** The measure that lets loose equality turn a boolean side into a number. */
  function BoolCount(a: Value, b: Value): nat {
    (if a.Bool? then 1 else 0) + (if b.Bool? then 1 else 0)
  }

  /**
   * `a == b` (abstract equality) over these values: nullish values equal
   * each other only, numbers and strings compare as numbers, and a boolean
   * compares as 0 or 1.
   */
  predicate LooseEquals(a: Value, b: Value)
    decreases BoolCount(a, b)
  {
    if a.Bool? then LooseEquals(Num(BoolToNumber(a.b)), b)
    else if b.Bool? then LooseEquals(a, Num(BoolToNumber(b.b)))
    else if IsNullish(a) || IsNullish(b) then IsNullish(a) && IsNullish(b)
    else if a.Num? && b.Num? then NumEquals(a.n, b.n)
    else if a.Str? && b.Str? then a.s == b.s
    else if a.Num? then NumEquals(a.n, StringToNumber(b.s))
    else NumEquals(StringToNumber(a.s), b.n)
  }

  /** What is strictly equal is loosely equal. */
  lemma StrictImpliesLoose(a: Value, b: Value)
    requires StrictEquals(a, b)
    ensures LooseEquals(a, b)
  {
  }

  /** Loose equality is symmetric. */
  lemma {:induction false} LooseEqualsSymmetric(a: Value, b: Value)
    ensures LooseEquals(a, b) == LooseEquals(b, a)
    decreases BoolCount(a, b)
  {
    if a.Bool? {
      LooseEqualsSymmetric(Num(BoolToNumber(a.b)), b);
    } else if b.Bool? {
      LooseEqualsSymmetric(a, Num(BoolToNumber(b.b)));
    }
  }

  /** Loose equality never holds for NaN. */
  lemma LooseEqualsNaN(v: Value)
    ensures !LooseEquals(Num(NaN), v) && !LooseEquals(v, Num(NaN))
  {
    LooseEqualsSymmetric(Num(NaN), v);
  }

  /** A number and the string spelling it are loosely equal: `5 == "5"`. */
  lemma LooseEqualsNumberString(i: int)
    ensures LooseEquals(Num(Fin(i)), Str(IntToString(i)))
  {
    IntToStringRoundTrip(i);
  }
}

/**
 * A table cell as the scripts see it: `row[field]` is `undefined`/`null`,
 * a string or a number. Truthiness, `toString()` and the ordering used by
 * the sort comparator are defined here once.
 */
module Values {
  import opened Text

  datatype Value = Missing | Str(s: string) | Num(n: int)

  /** A row record: field name to cell; a field not in the map reads as `undefined`. */
  type Row = map<string, Value>

  /** `row[field]`. */
  function Lookup(row: Row, field: string): Value {
    if field in row then row[field] else Missing
  }

  /** JavaScript truthiness of a cell: `undefined`, `""` and `0` are falsy. */
  predicate Truthy(v: Value) {
    match v
    case Missing => false
    case Str(s) => s != ""
    case Num(n) => n != 0
  }

  /** `v.toString()`; never called on `undefined` by the scripts, which test truthiness first. */
  function ToText(v: Value): string {
    match v
    case Missing => ""
    case Str(s) => s
    case Num(n) => DecimalString(n)
  }

  /**
   * `a < b`. Within one kind this is the JavaScript order (numeric for
   * numbers, character order for strings); across kinds it is the fixed
   * order Missing < Num < Str, which makes the relation total.
   */
  predicate Less(a: Value, b: Value) {
    match (a, b)
    case (Missing, Missing) => false
    case (Missing, _) => true
    case (Num(x), Num(y)) => x < y
    case (Num(_), Str(_)) => true
    case (Str(x), Str(y)) => StrLess(x, y)
    case _ => false
  }

  lemma LessIrreflexive(a: Value)
    ensures !Less(a, a)
  {
    if a.Str? { StrLessIrreflexive(a.s); }
  }

  lemma LessTransitive(a: Value, b: Value, c: Value)
    requires Less(a, b) && Less(b, c)
    ensures Less(a, c)
  {
    if a.Str? && b.Str? && c.Str? { StrLessTransitive(a.s, b.s, c.s); }
  }

  /** Exactly one of `a < b`, `a == b`, `b < a` holds. */
  lemma LessTrichotomy(a: Value, b: Value)
    ensures a != b ==> Less(a, b) || Less(b, a)
    ensures !(Less(a, b) && Less(b, a))
  {
    if a.Str? && b.Str? {
      if a != b { StrLessTotal(a.s, b.s); }
      if StrLess(a.s, b.s) { StrLessAsymmetric(a.s, b.s); }
    }
  }
}

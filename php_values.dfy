/**
 * The part of PHP's dynamic value model that the widget's option arrays use:
 * the values stored in them, `empty()`, conversion to string (interpolation and
 * the `.` operator) and `yii\helpers\ArrayHelper::remove`.
 */
module PhpValues {

  /** A PHP value. PHP arrays holding items are lists; a `yii\web\JsExpression`
      object wraps the expression it was constructed from. Floats are not modelled. */
  datatype PhpValue =
    | Null
    | Bool(b: bool)
    | Int(i: int)
    | Str(s: string)
    | List(elems: seq<PhpValue>)
    | JsExpr(expression: PhpValue)

  /** A string-keyed PHP array such as `$options` or `$menuContainer`. */
  type PhpArray = map<string, PhpValue>

  /** `$a[$key]`: a missing key reads as null. */
  function Lookup(a: PhpArray, key: string): PhpValue {
    if key in a then a[key] else Null
  }

  /** PHP's `empty()`: null, false, 0, "", "0" and the empty array are empty;
      an object is never empty. */
  predicate IsEmpty(v: PhpValue) {
    match v
    case Null => true
    case Bool(b) => !b
    case Int(i) => i == 0
    case Str(s) => s == "" || s == "0"
    case List(elems) => |elems| == 0
    case JsExpr(_) => false
  }

  /** `empty($a[$key])`, which does not complain about a missing key. */
  predicate IsEmptyAt(a: PhpArray, key: string) {
    IsEmpty(Lookup(a, key))
  }

  function DigitChar(d: nat): char
    requires d < 10
  {
    "0123456789"[d]
  }

  function NatToDecimal(n: nat): string
    decreases n
  {
    if n < 10 then [DigitChar(n)] else NatToDecimal(n / 10) + [DigitChar(n % 10)]
  }

  /** Conversion to string, as `"{$v}"` and `'#' . $v` perform it;
      `JsExpression::__toString` gives back its expression. */
  function ToStr(v: PhpValue): (r: string) {
    match v
    case Null => ""
    case Bool(b) => if b then "1" else ""
    case Int(i) => if i < 0 then "-" + NatToDecimal(-i) else NatToDecimal(i)
    case Str(s) => s
    case List(_) => "Array"
    case JsExpr(e) => ToStr(e)
  }

  /** `ArrayHelper::remove($a, $key, $default)`: the value stored under the key
      (even a null one) or the default when the key is absent, and the array
      without that key. */
  function Remove(a: PhpArray, key: string, default: PhpValue): (r: (PhpValue, PhpArray)) {
    if key in a then (a[key], a - {key}) else (default, a)
  }
}

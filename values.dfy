/**
 * The values a YAML document parses to, and the text JavaScript makes of a
 * value when it is concatenated into a string (`prefix + c.fileName + ext`).
 */
module Values {
  import Text

  /** A parsed YAML value: null, a boolean, an integer, a string, a sequence or a mapping. */
  datatype Value =
    | Null
    | Bool(b: bool)
    | Int(i: int)
    | Str(s: string)
    | List(items: seq<Value>)
    | Obj(fields: map<string, Value>)

  function Digit(d: nat): char
    requires d < 10
  {
    ('0' as int + d) as char
  }

  predicate IsDigit(ch: char)
  {
    '0' <= ch <= '9'
  }

  /** Decimal text: at least one digit, and no leading zero unless the text is "0". */
  predicate IsDecimal(s: string)
  {
    |s| >= 1 && (forall k :: 0 <= k < |s| ==> IsDigit(s[k])) && (|s| > 1 ==> s[0] != '0')
  }

  /** The number that decimal digits denote, read most significant first. */
  function DecimalValue(s: string): nat
    requires forall k :: 0 <= k < |s| ==> IsDigit(s[k])
  {
    if |s| == 0 then 0
    else
      assert IsDigit(s[|s| - 1]);
      DecimalValue(s[..|s| - 1]) * 10 + (s[|s| - 1] as int - '0' as int)
  }

  /** Decimal digits of a natural number, most significant first: reading them back gives the number. */
  function NatText(n: nat): (r: string)
    ensures IsDecimal(r) && DecimalValue(r) == n
  {
    if n < 10 then
      var r := [Digit(n)];
      assert r[..0] == [];
      r
    else
      var high := NatText(n / 10);
      var r := high + [Digit(n % 10)];
      assert r[..|r| - 1] == high;
      r
  }

  /**
   * JavaScript's `String(v)`: a string is itself, null is "null", an array is
   * its elements joined by "," (with null elements as ""), any other object
   * is "[object Object]".
   */
  function ToText(v: Value): (r: string)
    ensures v.Str? ==> r == v.s
    ensures v.Int? && v.i >= 0 ==> IsDecimal(r) && DecimalValue(r) == v.i
    ensures v.Int? && v.i < 0 ==> |r| >= 2 && r[0] == '-' && IsDecimal(r[1..]) && DecimalValue(r[1..]) == -v.i
    decreases v
  {
    match v
    case Null => "null"
    case Bool(b) => if b then "true" else "false"
    case Int(i) =>
      if i < 0 then
        var r := "-" + NatText(-i);
        assert r[1..] == NatText(-i);
        r
      else NatText(i)
    case Str(s) => s
    case List(items) =>
      Text.Join(seq(|items|, k requires 0 <= k < |items| =>
                      if items[k].Null? then "" else ToText(items[k])), ",")
    case Obj(_) => "[object Object]"
  }
}

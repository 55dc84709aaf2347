/** The dynamically typed Python values the host-spec decoder inspects, and
    how an f-string renders them (`str()` of the value). */
module PyValues {

  /** A Python value as far as the decoder and the f-strings see it.
      `Other` stands for every other type (dict, float, bytes, ...): it
      carries its type name and the text `str()` gives for it. */
  datatype PyValue =
    | Str(s: string)
    | Int(i: int)
    | Bool(b: bool)
    | NoneValue
    | Tuple(items: seq<PyValue>)
    | List(items: seq<PyValue>)
    | Other(typeName: string, text: string)

  /** Decimal digits of a natural number, most significant first. */
  function NatToString(n: nat): (r: string)
    ensures |r| > 0
    ensures forall k :: 0 <= k < |r| ==> '0' <= r[k] <= '9'
    decreases n
  {
    var d := [(('0' as int) + n % 10) as char];
    if n < 10 then d else NatToString(n / 10) + d
  }

  /** `str()` of a Python int: a minus sign for negatives, no leading zeros. */
  function IntToString(i: int): (r: string)
    ensures |r| > 0
    ensures (r[0] == '-') <==> i < 0
  {
    if i < 0 then "-" + NatToString(-i) else NatToString(i)
  }

  /** The number a string of decimal digits denotes, like `int(s)`. */
  function ParseNat(s: string): nat
    requires forall k :: 0 <= k < |s| ==> '0' <= s[k] <= '9'
    decreases |s|
  {
    if s == [] then 0 else ParseNat(s[..|s| - 1]) * 10 + (s[|s| - 1] as int - '0' as int)
  }

  /** Printing a natural number and reading it back gives the number. */
  lemma {:induction false} NatToStringRoundTrip(n: nat)
    ensures ParseNat(NatToString(n)) == n
    decreases n
  {
    var d := [(('0' as int) + n % 10) as char];
    if n >= 10 {
      var x := NatToString(n / 10);
      NatToStringRoundTrip(n / 10);
      assert (x + d)[..|x + d| - 1] == x;
    }
  }

  /** The decimal text has no leading zero, except for zero itself. */
  lemma {:induction false} NatToStringNoLeadingZero(n: nat)
    ensures NatToString(n)[0] == '0' <==> n == 0
    decreases n
  {
    if n >= 10 {
      NatToStringNoLeadingZero(n / 10);
      var x := NatToString(n / 10);
      assert (x + [(('0' as int) + n % 10) as char])[0] == x[0];
    }
  }

  /** `str(v)`, the text an f-string placeholder `{v}` produces. */
  function Show(v: PyValue): string
    decreases v, 1
  {
    match v
    case Str(s) => s
    case _ => Repr(v)
  }

  /** `str()` of a string is the string itself; `str()` of an int is its
      canonical decimal text (no leading zero, a minus sign before the
      digits of a negative number), which `int()` reads back. */
  lemma ShowSpec(v: PyValue)
    ensures v.Str? ==> Show(v) == v.s
    ensures v.Int? && v.i >= 0 ==>
              (forall k :: 0 <= k < |Show(v)| ==> '0' <= Show(v)[k] <= '9') && ParseNat(Show(v)) == v.i
    ensures v.Int? && v.i >= 0 ==> (Show(v)[0] == '0' <==> v.i == 0)
    ensures v == Int(0) ==> Show(v) == "0"
    ensures v.Int? ==> (Show(v)[0] == '-' <==> v.i < 0)
    ensures v.Int? && v.i < 0 ==> Show(v) == "-" + Show(Int(-v.i))
  {
    if v.Int? && v.i >= 0 {
      NatToStringRoundTrip(v.i);
      NatToStringNoLeadingZero(v.i);
    }
  }

  /** `repr(v)`: how a value is written inside a tuple or list display.
      Strings are quoted with single quotes; escaping is not modelled. */
  function Repr(v: PyValue): string
    decreases v, 0
  {
    match v
    case Str(s) => "'" + s + "'"
    case Int(i) => IntToString(i)
    case Bool(b) => if b then "True" else "False"
    case NoneValue => "None"
    case Tuple(items) =>
      if |items| == 1 then "(" + Repr(items[0]) + ",)"
      else "(" + ReprItems(items) + ")"
    case List(items) => "[" + ReprItems(items) + "]"
    case Other(_, text) => text
  }

  /** The comma-separated `repr`s of a tuple's or list's elements. */
  function ReprItems(items: seq<PyValue>): string
    decreases items
  {
    if items == [] then ""
    else if |items| == 1 then Repr(items[0])
    else Repr(items[0]) + ", " + ReprItems(items[1..])
  }
}

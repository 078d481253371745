/** The "y-x" cell coordinate of the Lights Out board.

    Each rendered cell hands the board a callback that presses it with the
    string `${y}-${x}` (FormatCoord), and the flip handler reads the string
    back with `coord.split("-").map(Number)` (ParseCoord). The JavaScript
    number conversion is modelled for the inputs the split can produce:
    a string of decimal digits (the empty string converts to 0) gives an
    integer, anything else gives NaN, and a missing piece (`undefined`)
    behaves as NaN in every comparison and subtraction the handler makes.
 */
module Coords {

  /** A JavaScript number as the flip handler sees it: an integer or NaN. */
  datatype Num = Int(value: int) | NaN

  /** The pair [y, x] destructured from the split coordinate. */
  type Coordinate = (Num, Num)

  /** `n + d` in JavaScript: NaN absorbs the addition. */
  function Plus(n: Num, d: int): (r: Num)
    ensures r.Int? <==> n.Int?
    ensures r.Int? ==> r.value - d == n.value
  {
    match n
    case Int(v) => Int(v + d)
    case NaN => NaN
  }

  predicate IsDigit(c: char) {
    '0' <= c <= '9'
  }

  predicate AllDigits(s: string) {
    forall k :: 0 <= k < |s| ==> IsDigit(s[k])
  }

  function DigitChar(d: nat): (c: char)
    requires d < 10
    ensures IsDigit(c)
  {
    (48 + d) as char
  }

  function DigitValue(c: char): (d: nat)
    requires IsDigit(c)
    ensures d < 10
  {
    (c as int) - 48
  }

  /** The decimal numeral JavaScript's template literal writes for n. */
  function NatToString(n: nat): (s: string)
    ensures |s| >= 1 && AllDigits(s)
    decreases n
  {
    if n < 10 then [DigitChar(n)] else NatToString(n / 10) + [DigitChar(n % 10)]
  }

  /** The value of a string of decimal digits; the empty string is worth 0. */
  function DigitsValue(s: string): nat
    requires AllDigits(s)
  {
    if s == [] then 0 else DigitsValue(s[..|s| - 1]) * 10 + DigitValue(s[|s| - 1])
  }

  /** `Number(s)` for a piece of the split coordinate. */
  function ToNumber(s: string): Num {
    if AllDigits(s) then Int(DigitsValue(s)) else NaN
  }

  /** `s.split(sep)` for a one-character separator: the maximal separator-free
      pieces between separators, in order; the empty string splits to [""]. */
  function Split(s: string, sep: char): (parts: seq<string>)
    ensures |parts| >= 1
    ensures forall k :: 0 <= k < |parts| ==> sep !in parts[k]
  {
    if s == [] then [[]]
    else
      var rest := Split(s[1..], sep);
      if s[0] == sep then [[]] + rest else [[s[0]] + rest[0]] + rest[1..]
  }

  /** `parts.join(sep)`, the inverse of Split. */
  function Join(parts: seq<string>, sep: char): string
    requires |parts| >= 1
  {
    if |parts| == 1 then parts[0] else parts[0] + [sep] + Join(parts[1..], sep)
  }

  /** The string the cell at row y, column x passes to the flip handler. */
  function FormatCoord(y: nat, x: nat): string {
    NatToString(y) + "-" + NatToString(x)
  }

  /** `const [y, x] = coord.split("-").map(Number)`. */
  function ParseCoord(coord: string): Coordinate {
    var parts := Split(coord, '-');
    (ToNumber(parts[0]), if |parts| >= 2 then ToNumber(parts[1]) else NaN)
  }

  lemma {:induction false} DigitsValueOfNatToString(n: nat)
    ensures DigitsValue(NatToString(n)) == n
    decreases n
  {
    if n >= 10 {
      var s := NatToString(n);
      assert s[..|s| - 1] == NatToString(n / 10);
      DigitsValueOfNatToString(n / 10);
    }
  }

  /** Number() reads back every numeral the template literal writes. */
  lemma NumberOfNumeral(n: nat)
    ensures ToNumber(NatToString(n)) == Int(n)
  {
    DigitsValueOfNatToString(n);
  }

  /** A separator-free prefix glues onto the first piece of what follows. */
  lemma {:induction false} SplitPrefix(a: string, t: string, sep: char)
    requires sep !in a
    ensures Split(a + t, sep) == [a + Split(t, sep)[0]] + Split(t, sep)[1..]
    decreases |a|
  {
    if a == [] {
      assert a + t == t && a + Split(t, sep)[0] == Split(t, sep)[0];
    } else {
      assert (a + t)[1..] == a[1..] + t;
      SplitPrefix(a[1..], t, sep);
      var rest := Split(a[1..] + t, sep);
      assert (a + t)[0] == a[0] != sep;
      assert Split(a + t, sep) == [[a[0]] + rest[0]] + rest[1..];
      assert rest[0] == a[1..] + Split(t, sep)[0];
      assert rest[1..] == Split(t, sep)[1..];
      assert [a[0]] + (a[1..] + Split(t, sep)[0]) == a + Split(t, sep)[0];
    }
  }

  /** Splitting loses nothing: joining the pieces gives the string back. */
  lemma {:induction false} JoinSplit(s: string, sep: char)
    ensures Join(Split(s, sep), sep) == s
    decreases |s|
  {
    if s != [] {
      var rest := Split(s[1..], sep);
      JoinSplit(s[1..], sep);
      if s[0] == sep {
        assert Join(Split(s, sep), sep) == [] + [sep] + Join(rest, sep);
      } else if |rest| == 1 {
        assert Join(Split(s, sep), sep) == [s[0]] + rest[0];
      } else {
        assert rest == [rest[0]] + rest[1..];
        assert Join(Split(s, sep), sep) == [s[0]] + rest[0] + [sep] + Join(rest[1..], sep);
      }
    }
  }

  /** Joining separator-free pieces and splitting again gives the pieces back. */
  lemma {:induction false} SplitJoin(parts: seq<string>, sep: char)
    requires |parts| >= 1
    requires forall k :: 0 <= k < |parts| ==> sep !in parts[k]
    ensures Split(Join(parts, sep), sep) == parts
    decreases |parts|
  {
    if |parts| == 1 {
      SplitPrefix(parts[0], [], sep);
      assert parts[0] + [] == parts[0];
    } else {
      var tail := Join(parts[1..], sep);
      SplitJoin(parts[1..], sep);
      var t := [sep] + tail;
      assert t[1..] == tail;
      assert Split(t, sep) == [[]] + parts[1..];
      SplitPrefix(parts[0], t, sep);
      assert parts[0] + [sep] + tail == parts[0] + t;
      assert parts[0] + [] == parts[0];
      assert parts == [parts[0]] + parts[1..];
    }
  }

  /** Parsing the coordinate a cell formats yields that cell's row and column. */
  lemma ParseFormatRoundTrip(y: nat, x: nat)
    ensures ParseCoord(FormatCoord(y, x)) == (Int(y), Int(x))
  {
    var a, b := NatToString(y), NatToString(x);
    var parts := [a, b];
    assert forall k :: 0 <= k < |parts| ==> '-' !in parts[k] by {
      assert forall c :: IsDigit(c) ==> c != '-';
    }
    assert Join(parts, '-') == FormatCoord(y, x) by {
      assert parts[1..] == [b];
    }
    SplitJoin(parts, '-');
    NumberOfNumeral(y);
    NumberOfNumeral(x);
  }

  /** Distinct cells press with distinct coordinate strings. */
  lemma FormatCoordInjective(y: nat, x: nat, y': nat, x': nat)
    requires FormatCoord(y, x) == FormatCoord(y', x')
    ensures y == y' && x == x'
  {
    ParseFormatRoundTrip(y, x);
    ParseFormatRoundTrip(y', x');
  }
}

/** Cell values of a spreadsheet tab as JavaScript sees them, and the rule
    JavaScript uses to turn a header cell into an object property name. */
module SheetCells {

  datatype Option<+T> = None | Some(value: T)

  /** A value delivered by the spreadsheet API, or one of JavaScript's two
      non-values: `undefined` (reading past the end of a row, or a property
      an object does not have) and `null`. */
  datatype Cell = Undefined | Null | Bool(b: bool) | Num(n: int) | Str(s: string)
  {
    /** The values that the `??` operator replaces by its right operand. */
    predicate Nullish() {
      Undefined? || Null?
    }
  }

  /** The rows of a tab, row 0 being the header. */
  type Grid = seq<seq<Cell>>

  /** A plain JavaScript object: property name to value. */
  type Record = map<string, Cell>

  /** `row[i]` in JavaScript: the cell, or `undefined` past the row's end. */
  function CellAt(row: seq<Cell>, i: nat): Cell {
    if i < |row| then row[i] else Undefined
  }

  function DigitChar(d: nat): (c: char)
    requires d < 10
    ensures '0' <= c <= '9'
  {
    ('0' as int + d) as char
  }

  function DigitValue(c: char): nat {
    if '0' <= c <= '9' then (c as int - '0' as int) else 0
  }

  /** The decimal digits of n, most significant first, without leading zeros. */
  function NatToDecimal(n: nat): (s: string)
    ensures |s| > 0
    ensures forall k :: 0 <= k < |s| ==> '0' <= s[k] <= '9'
    decreases n
  {
    if n < 10 then [DigitChar(n)] else NatToDecimal(n / 10) + [DigitChar(n % 10)]
  }

  /** The number a string of decimal digits denotes. */
  function DecimalValue(s: string): nat
    decreases |s|
  {
    if |s| == 0 then 0 else 10 * DecimalValue(s[..|s| - 1]) + DigitValue(s[|s| - 1])
  }

  /** The property name JavaScript uses when a cell is used as a key
      (`obj[h]` converts h with ToString). */
  function KeyOf(h: Cell): string {
    match h
    case Undefined => "undefined"
    case Null => "null"
    case Bool(b) => if b then "true" else "false"
    case Num(n) =>
      if n < 0 then "-" + NatToDecimal(-n) else NatToDecimal(n)
    case Str(s) => s
  }

  /** Reading the decimal form of n back gives n. */
  lemma {:induction false} DecimalRoundTrip(n: nat)
    ensures DecimalValue(NatToDecimal(n)) == n
  {
    if n >= 10 {
      DecimalRoundTrip(n / 10);
      var s := NatToDecimal(n);
      assert s[..|s| - 1] == NatToDecimal(n / 10);
      assert s[|s| - 1] == DigitChar(n % 10);
    }
  }

  /** The number a string denotes when read as an optionally negative
      decimal integer. */
  function SignedValue(s: string): int {
    if |s| > 0 && s[0] == '-' then 0 - (DecimalValue(s[1..]) as int) else DecimalValue(s)
  }

  /** Reading the name of a numeric header cell back as a signed decimal
      integer gives the number, negative numbers included. */
  lemma NumberKeyRoundTrip(n: int)
    ensures SignedValue(KeyOf(Num(n))) == n
  {
    var k := KeyOf(Num(n));
    if n < 0 {
      DecimalRoundTrip(-n);
      assert k == "-" + NatToDecimal(-n);
      assert k[1..] == NatToDecimal(-n);
    } else {
      DecimalRoundTrip(n);
      assert k == NatToDecimal(n);
      assert '0' <= k[0] <= '9';
    }
  }

  /** Two numeric header cells name the same property only when they are the
      same number. */
  lemma NumberKeysInjective(a: int, b: int)
    requires KeyOf(Num(a)) == KeyOf(Num(b))
    ensures a == b
  {
    NumberKeyRoundTrip(a);
    NumberKeyRoundTrip(b);
  }

  /** The name of a numeric cell starts with a minus sign exactly when the
      number is negative. */
  lemma NumberKeySign(n: int)
    ensures |KeyOf(Num(n))| > 0
    ensures KeyOf(Num(n))[0] == '-' <==> n < 0
  {
  }
}

/** The selection parse of prompt(): the line fgets stored in the 10-byte
    input buffer loses its first newline and is converted by strtol; the
    selection is -1 unless a number was read and nothing follows it. */
module Menu {
  import opened CText

  /** Size of prompt()'s input buffer; fgets stores at most one less. */
  const INPUT_SIZE: nat := 10

  /** The input after strchr/'\0' has cut it at its first newline. */
  function Stripped(line: seq<char>): seq<char> {
    Before(CString(line), '\n')
  }

  /** prompt()'s result for the characters fgets stored. */
  function Selection(line: seq<char>): int
    requires |line| < INPUT_SIZE
  {
    var s := Stripped(line);
    match ParseLong(s)
    case None => -1
    case Some((v, end)) => if end < |s| then -1 else v
  }

  /** A line holding a number, and nothing after it, selects that number. */
  lemma SelectionOfNumeral(line: seq<char>, v: int)
    requires |line| < INPUT_SIZE
    requires IsNumeral(Stripped(line), v)
    ensures Selection(line) == v
  {
    var s := Stripped(line);
    var lead, sign, digits :| s == lead + sign + digits
      && AllSpace(lead) && IsSign(sign) && AllDigits(digits) && digits != []
      && v == SignedValue(sign, digits);
    assert s + [] == s;
    ParseLongOfParts(lead, sign, digits, []);
  }

  /** A selection other than -1 comes from a line that holds exactly a
      number: the converse of SelectionOfNumeral. */
  lemma SelectionIsNumeral(line: seq<char>)
    requires |line| < INPUT_SIZE
    ensures Selection(line) == -1 || IsNumeral(Stripped(line), Selection(line))
  {
    var s := Stripped(line);
    if ParseLong(s).Some? {
      ParseLongParts(s);
      assert s[..|s|] == s;
    }
  }

  /** A blank line (only white space before the newline) selects -1. */
  lemma SelectionOfBlank(line: seq<char>)
    requires |line| < INPUT_SIZE
    requires AllSpace(Stripped(line))
    ensures Selection(line) == -1
  {
    var s := Stripped(line);
    SkipIs(s, 0, |s|, Space);
  }

  /** A number followed by anything but a digit before the newline selects -1. */
  lemma SelectionOfTrailing(line: seq<char>, lead: seq<char>, sign: seq<char>, digits: seq<char>, rest: seq<char>)
    requires |line| < INPUT_SIZE
    requires Stripped(line) == lead + sign + digits + rest
    requires AllSpace(lead) && IsSign(sign) && AllDigits(digits) && digits != []
    requires rest != [] && !IsDigit(rest[0])
    ensures Selection(line) == -1
  {
    ParseLongOfParts(lead, sign, digits, rest);
  }

  /** Typing a number of up to eight digits and Enter: fgets stores the
      digits and the newline, and prompt() returns the number. */
  lemma SelectionOfTyped(n: nat)
    requires n < Pow10(8)
    ensures |Decimal(n) + "\n"| < INPUT_SIZE
    ensures Selection(Decimal(n) + "\n") == n
  {
    var d := Decimal(n);
    DecimalFits(n, 8);
    DecimalDigits(n);
    var line := d + "\n";
    assert NUL !in line by {
      assert forall k :: 0 <= k < |d| ==> line[k] == d[k] && InClass(d[k], Digit);
    }
    BeforeOfTerminated(line, NUL, []);
    assert line + [] == line;
    assert '\n' !in d by {
      assert forall k :: 0 <= k < |d| ==> InClass(d[k], Digit);
    }
    BeforeOfTerminated(d, '\n', "\n");
    assert d == [] + [] + d;
    SelectionOfNumeral(line, n);
  }

  /** prompt() never returns a number that needs more than the nine stored
      characters: every selection lies in (-10^8, 10^9). */
  lemma SelectionBounds(line: seq<char>)
    requires |line| < INPUT_SIZE
    ensures 0 - Pow10(8) < Selection(line) < Pow10(9)
  {
    var s := Stripped(line);
    match ParseLong(s)
    case None =>
    case Some((v, end)) =>
      if end == |s| {
        var i := Skip(s, 0, Space);
        var j := SignEnd(s, i);
        SkipRun(s, j, Digit);
        DigitsBound(s, j, end - j);
        if Negative(s, i) {
          Pow10Grows(end - j, 8);
        } else {
          Pow10Grows(end - j, 9);
        }
      }
  }

  /** n digits have a value below 10^n. */
  lemma {:induction false} DigitsBound(s: seq<char>, j: nat, n: nat)
    requires j + n <= |s| && Run(s, j, j + n, Digit)
    ensures 0 <= DigitsAt(s, j, n) < Pow10(n)
  {
    if n > 0 {
      DigitsBound(s, j, n - 1);
      assert InClass(s[j + n - 1], Digit);
    }
  }

  /** Powers of ten grow with the exponent. */
  lemma {:induction false} Pow10Grows(m: nat, n: nat)
    requires m <= n
    ensures Pow10(m) <= Pow10(n)
    decreases n
  {
    if m < n {
      Pow10Grows(m, n - 1);
    }
  }
}

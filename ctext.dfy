/** The pieces of the C library the client leans on, stated over character
    sequences: C strings in NUL-padded buffers, isspace/isdigit, strtol,
    the %s / %ld / %d conversions of sscanf, strstr, and decimal text.

    The scanners work on offsets into one sequence, as the C functions work
    on pointers into one buffer; what they compute is stated by the lemmas
    that follow them, both from the offsets and from the pieces of a text. */
module CText {

  datatype Option<T> = None | Some(value: T)

  const NUL: char := '\0'

  /** isspace() in the C locale. */
  predicate IsSpace(c: char) {
    c == ' ' || c == '\t' || c == '\n' || c == '\r' || c == '\U{B}' || c == '\U{C}'
  }

  /** isdigit(). */
  predicate IsDigit(c: char) {
    '0' <= c <= '9'
  }

  // ---------------------------------------------------------------- skipping

  /** The classes of characters the C scanners step over. */
  datatype Class = Space | Digit | NonSpace | Except(c: char)

  predicate InClass(x: char, cl: Class) {
    match cl
    case Space => IsSpace(x)
    case Digit => IsDigit(x)
    case NonSpace => !IsSpace(x)
    case Except(c) => x != c
  }

  /** Every character of s[i..e] is of class cl. */
  predicate Run(s: seq<char>, i: nat, e: nat, cl: Class)
    requires i <= e <= |s|
  {
    forall k :: i <= k < e ==> InClass(s[k], cl)
  }

  /** The end of the longest run of class cl that starts at offset i. */
  function Skip(s: seq<char>, i: nat, cl: Class): (e: nat)
    requires i <= |s|
    ensures i <= e <= |s|
    ensures e < |s| ==> !InClass(s[e], cl)
    ensures i < |s| && InClass(s[i], cl) ==> i < e
    decreases |s| - i
  {
    if i < |s| && InClass(s[i], cl) then Skip(s, i + 1, cl) else i
  }

  /** Skip steps over characters of the class only. */
  lemma {:induction false} SkipRun(s: seq<char>, i: nat, cl: Class)
    requires i <= |s|
    ensures Run(s, i, Skip(s, i, cl), cl)
    decreases |s| - i
  {
    if i < |s| && InClass(s[i], cl) {
      SkipRun(s, i + 1, cl);
    }
  }

  /** Skip is determined by its contract: a run of the class that stops at
      the end or at another character is the one Skip finds. */
  lemma {:induction false} SkipIs(s: seq<char>, i: nat, e: nat, cl: Class)
    requires i <= e <= |s| && Run(s, i, e, cl)
    requires e < |s| ==> !InClass(s[e], cl)
    ensures Skip(s, i, cl) == e
    decreases e - i
  {
    if i < e {
      SkipIs(s, i + 1, e, cl);
    }
  }

  /** Text in front does not change where a run ends, only its offset. */
  lemma {:induction false} SkipShift(a: seq<char>, b: seq<char>, i: nat, cl: Class)
    requires i <= |b|
    ensures Skip(a + b, |a| + i, cl) == |a| + Skip(b, i, cl)
    decreases |b| - i
  {
    if i < |b| {
      assert (a + b)[|a| + i] == b[i];
      if InClass(b[i], cl) {
        SkipShift(a, b, i + 1, cl);
      }
    }
  }

  predicate AllSpace(s: seq<char>) {
    Run(s, 0, |s|, Space)
  }

  predicate AllDigits(s: seq<char>) {
    Run(s, 0, |s|, Digit)
  }

  /** A token as sscanf's %s reads it: non-empty, no white space. */
  predicate IsWord(s: seq<char>) {
    s != [] && Run(s, 0, |s|, NonSpace)
  }

  /** A run stays a run when text follows... */
  lemma RunPrefix(a: seq<char>, b: seq<char>, i: nat, e: nat, cl: Class)
    requires i <= e <= |a| && Run(a, i, e, cl)
    ensures Run(a + b, i, e, cl)
  {
    assert forall k :: i <= k < e ==> (a + b)[k] == a[k];
  }

  /** ... and when text precedes it. */
  lemma RunSuffix(a: seq<char>, b: seq<char>, i: nat, e: nat, cl: Class)
    requires i <= e <= |b| && Run(b, i, e, cl)
    ensures Run(a + b, |a| + i, |a| + e, cl)
  {
    assert forall k :: |a| + i <= k < |a| + e ==> (a + b)[k] == b[k - |a|];
  }

  /** A run cut out of a text. */
  lemma RunSlice(s: seq<char>, i: nat, e: nat, cl: Class)
    requires i <= e <= |s| && Run(s, i, e, cl)
    ensures Run(s[i..e], 0, e - i, cl)
  {
    assert forall k :: 0 <= k < e - i ==> s[i..e][k] == s[i + k];
  }

  // ---------------------------------------------------------------- C strings

  /** The part of s before the first occurrence of c (all of s when c is
      absent), as strchr finds it. */
  function Before(s: seq<char>, c: char): (r: seq<char>)
    ensures |r| <= |s| && r == s[..|r|]
    ensures c !in r
    ensures |r| < |s| ==> s[|r|] == c
  {
    var e := Skip(s, 0, Except(c));
    SkipRun(s, 0, Except(c));
    assert forall k :: 0 <= k < e ==> s[..e][k] == s[k];
    s[..e]
  }

  /** The C string held by a char buffer: everything before the first NUL. */
  function CString(buffer: seq<char>): seq<char> {
    Before(buffer, NUL)
  }

  /** A text free of c followed by a c or by nothing: Before finds the text. */
  lemma BeforeOfTerminated(text: seq<char>, c: char, rest: seq<char>)
    requires c !in text
    requires rest != [] ==> rest[0] == c
    ensures Before(text + rest, c) == text
  {
    var s := text + rest;
    assert forall k :: 0 <= k < |text| ==> s[k] == text[k];
    SkipIs(s, 0, |text|, Except(c));
    assert s[..|text|] == text;
  }

  /** A buffer whose first bytes are a NUL-free text followed by at least one
      NUL holds exactly that text as a C string. */
  lemma CStringOfTerminated(text: seq<char>, rest: seq<char>)
    requires NUL !in text
    requires rest != [] && rest[0] == NUL
    ensures CString(text + rest) == text
  {
    BeforeOfTerminated(text, NUL, rest);
  }

  // ------------------------------------------------------------ digit values

  /** The value of the n characters of s from offset j read as decimal
      digits, most significant first. */
  function DigitsAt(s: seq<char>, j: nat, n: nat): int
    requires j + n <= |s|
  {
    if n == 0 then 0 else 10 * DigitsAt(s, j, n - 1) + (s[j + n - 1] as int - '0' as int)
  }

  /** The value of a string of decimal digits. */
  function DigitsValue(d: seq<char>): int {
    DigitsAt(d, 0, |d|)
  }

  /** Digits keep their value when more text follows them... */
  lemma {:induction false} DigitsAtPrefix(a: seq<char>, b: seq<char>, j: nat, n: nat)
    requires j + n <= |a|
    ensures DigitsAt(a + b, j, n) == DigitsAt(a, j, n)
  {
    if n > 0 {
      assert (a + b)[j + n - 1] == a[j + n - 1];
      DigitsAtPrefix(a, b, j, n - 1);
    }
  }

  /** ... and when text precedes them. */
  lemma {:induction false} DigitsAtSuffix(a: seq<char>, b: seq<char>, j: nat, n: nat)
    requires j + n <= |b|
    ensures DigitsAt(a + b, |a| + j, n) == DigitsAt(b, j, n)
  {
    if n > 0 {
      assert (a + b)[|a| + j + n - 1] == b[j + n - 1];
      DigitsAtSuffix(a, b, j, n - 1);
    }
  }

  /** Digits read in place have the value of the same digits cut out. */
  lemma {:induction false} DigitsAtSliced(s: seq<char>, j: nat, m: nat, k: nat)
    requires j + m <= |s| && k <= m
    ensures DigitsAt(s[j..j + m], 0, k) == DigitsAt(s, j, k)
  {
    if k > 0 {
      assert s[j..j + m][k - 1] == s[j + k - 1];
      DigitsAtSliced(s, j, m, k - 1);
    }
  }

  // ------------------------------------------------------------------ strtol

  /** An optional sign as strtol accepts it. */
  predicate IsSign(sign: seq<char>) {
    sign == [] || sign == "+" || sign == "-"
  }

  /** The value of an optionally signed digit string. */
  function SignedValue(sign: seq<char>, digits: seq<char>): int {
    if sign == "-" then -DigitsValue(digits) else DigitsValue(digits)
  }

  /** t is a number as strtol reads one: white space, an optional sign and at
      least one digit, with value v. */
  ghost predicate IsNumeral(t: seq<char>, v: int) {
    exists lead, sign, digits :: t == lead + sign + digits
      && AllSpace(lead) && IsSign(sign) && AllDigits(digits) && digits != []
      && v == SignedValue(sign, digits)
  }

  /** The offset after the optional sign at offset i. */
  function SignEnd(s: seq<char>, i: nat): (j: nat)
    requires i <= |s|
    ensures i <= j <= |s|
  {
    if i < |s| && (s[i] == '+' || s[i] == '-') then i + 1 else i
  }

  /** A minus sign at offset i. */
  predicate Negative(s: seq<char>, i: nat) {
    i < |s| && s[i] == '-'
  }

  /** strtol(s + p, &end, 10): leading white space is skipped, then an
      optional sign and the longest run of digits is converted. None when no
      digit was consumed (end is the start); otherwise the value and the
      offset of end. */
  function ParseLongFrom(s: seq<char>, p: nat): (r: Option<(int, nat)>)
    requires p <= |s|
    ensures r.Some? ==> p < r.value.1 <= |s|
  {
    var i := Skip(s, p, Space);
    var j := SignEnd(s, i);
    var e := Skip(s, j, Digit);
    if e == j then None
    else
      var v: int := DigitsAt(s, j, e - j);
      Some((if Negative(s, i) then -v else v, e))
  }

  /** strtol on a whole C string. */
  function ParseLong(s: seq<char>): Option<(int, nat)> {
    ParseLongFrom(s, 0)
  }

  /** strtol from offset p over white space [p, i), an optional sign [i, j)
      and digits [j, e) that no further digit follows. */
  lemma ParseLongAt(s: seq<char>, p: nat, i: nat, j: nat, e: nat)
    requires p <= i <= j < e <= |s|
    requires Run(s, p, i, Space)
    requires j == i || (j == i + 1 && (s[i] == '+' || s[i] == '-'))
    requires Run(s, j, e, Digit)
    requires e < |s| ==> !IsDigit(s[e])
    ensures ParseLongFrom(s, p)
         == Some((if j > i && s[i] == '-' then -DigitsAt(s, j, e - j) else DigitsAt(s, j, e - j), e))
  {
    assert InClass(s[j], Digit);
    assert SignEnd(s, i) == j;
    SkipIs(s, p, i, Space);
    SkipIs(s, j, e, Digit);
  }

  /** Text in front of the start offset does not change what strtol
      reads, only where it stops. */
  lemma ParseLongShift(a: seq<char>, b: seq<char>, p: nat)
    requires p <= |b|
    ensures ParseLongFrom(b, p).None? ==> ParseLongFrom(a + b, |a| + p).None?
    ensures ParseLongFrom(b, p).Some? ==>
      ParseLongFrom(a + b, |a| + p) == Some((ParseLongFrom(b, p).value.0, |a| + ParseLongFrom(b, p).value.1))
  {
    SkipShift(a, b, p, Space);
    var i := Skip(b, p, Space);
    SignShift(a, b, i);
    var j := SignEnd(b, i);
    SkipShift(a, b, j, Digit);
    DigitsAtSuffix(a, b, j, Skip(b, j, Digit) - j);
  }

  /** Text in front does not change the sign read at an offset. */
  lemma SignShift(a: seq<char>, b: seq<char>, i: nat)
    requires i <= |b|
    ensures SignEnd(a + b, |a| + i) == |a| + SignEnd(b, i)
    ensures Negative(a + b, |a| + i) == Negative(b, i)
  {
    assert i < |b| ==> (a + b)[|a| + i] == b[i];
  }

  /** Where the pieces of lead + sign + digits + rest lie. */
  lemma PartsRuns(lead: seq<char>, sign: seq<char>, digits: seq<char>, rest: seq<char>)
    requires AllSpace(lead) && AllDigits(digits)
    requires rest != [] ==> !IsDigit(rest[0])
    ensures var s, j := lead + sign + digits + rest, |lead| + |sign|;
      Run(s, 0, |lead|, Space) && Run(s, j, j + |digits|, Digit)
      && (j + |digits| < |s| ==> !IsDigit(s[j + |digits|]))
      && (sign != [] ==> s[|lead|] == sign[0])
      && DigitsAt(s, j, |digits|) == DigitsValue(digits)
  {
    var i := |lead|;
    var j := i + |sign|;
    var e := j + |digits|;
    RunPrefix(lead, sign, 0, i, Space);
    RunPrefix(lead + sign, digits, 0, i, Space);
    RunPrefix(lead + sign + digits, rest, 0, i, Space);
    RunSuffix(lead + sign, digits, 0, |digits|, Digit);
    RunPrefix(lead + sign + digits, rest, j, e, Digit);
    assert e < |lead + sign + digits + rest| ==> (lead + sign + digits + rest)[e] == rest[0];
    DigitsAtPrefix(lead + sign + digits, rest, j, |digits|);
    DigitsAtSuffix(lead + sign, digits, 0, |digits|);
  }

  /** strtol on white space, an optional sign and digits that anything but a
      digit follows converts exactly the signed digits and stops after them. */
  lemma ParseLongOfParts(lead: seq<char>, sign: seq<char>, digits: seq<char>, rest: seq<char>)
    requires AllSpace(lead) && IsSign(sign) && AllDigits(digits) && digits != []
    requires rest != [] ==> !IsDigit(rest[0])
    ensures ParseLong(lead + sign + digits + rest) == Some((SignedValue(sign, digits), |lead| + |sign| + |digits|))
  {
    PartsRuns(lead, sign, digits, rest);
    ParseLongAt(lead + sign + digits + rest, 0, |lead|, |lead| + |sign|, |lead| + |sign| + |digits|);
  }

  /** The pieces of a run-shaped prefix of s form a numeral. */
  lemma NumeralOfRuns(s: seq<char>, i: nat, j: nat, e: nat)
    requires i <= j < e <= |s|
    requires Run(s, 0, i, Space)
    requires j == i || (j == i + 1 && (s[i] == '+' || s[i] == '-'))
    requires Run(s, j, e, Digit)
    ensures IsNumeral(s[..e], if j > i && s[i] == '-' then -DigitsAt(s, j, e - j) else DigitsAt(s, j, e - j))
  {
    var lead, sign, digits := s[0..i], s[i..j], s[j..e];
    assert s[..e] == lead + sign + digits;
    RunSlice(s, 0, i, Space);
    RunSlice(s, j, e, Digit);
    DigitsAtSliced(s, j, e - j, e - j);
    if j > i {
      assert sign == [s[i]];
    } else {
      assert sign == [];
    }
  }

  /** What strtol converts is a number in the sense of IsNumeral, and no
      digit follows it: the converse of ParseLongOfParts. */
  lemma ParseLongParts(s: seq<char>)
    requires ParseLong(s).Some?
    ensures IsNumeral(s[..ParseLong(s).value.1], ParseLong(s).value.0)
    ensures ParseLong(s).value.1 < |s| ==> !IsDigit(s[ParseLong(s).value.1])
  {
    var i := Skip(s, 0, Space);
    var j := SignEnd(s, i);
    SkipRun(s, 0, Space);
    SkipRun(s, j, Digit);
    NumeralOfRuns(s, i, j, Skip(s, j, Digit));
  }

  // ------------------------------------------------------------------ sscanf

  /** The assignments made by sscanf(s, "%ld %d ..."): the first conversion
      and, when it succeeded, the second one, which starts where the first
      stopped. A conversion that fails stops the scan and leaves its target
      unassigned. */
  function ScanTwoInts(s: seq<char>): (r: (Option<int>, Option<int>))
    ensures r.0.None? ==> r.1.None?
    ensures r.0.Some? <==> ParseLong(s).Some?
  {
    match ParseLongFrom(s, 0)
    case None => (None, None)
    case Some((first, end)) =>
      match ParseLongFrom(s, end)
      case None => (Some(first), None)
      case Some((second, _)) => (Some(first), Some(second))
  }

  /** The k-th (from 0) white-space separated word of s from offset i on, as
      k skipped %*s conversions followed by one %s would store it; None when
      fewer than k + 1 words are left. */
  function NthWordFrom(s: seq<char>, i: nat, k: nat): (r: Option<seq<char>>)
    requires i <= |s|
    ensures r.Some? ==> r.value != []
    decreases k
  {
    var p := Skip(s, i, Space);
    if p == |s| then None
    else
      var e := Skip(s, p, NonSpace);
      if k == 0 then Some(s[p..e]) else NthWordFrom(s, e, k - 1)
  }

  /** The k-th word of a whole C string. */
  function NthWord(s: seq<char>, k: nat): Option<seq<char>> {
    NthWordFrom(s, 0, k)
  }

  /** Words joined by single spaces. */
  function Unwords(ws: seq<seq<char>>): seq<char> {
    if ws == [] then []
    else if |ws| == 1 then ws[0]
    else ws[0] + " " + Unwords(ws[1..])
  }

  /** Text in front does not change which words are read after it. */
  lemma {:induction false} NthWordShift(a: seq<char>, b: seq<char>, i: nat, k: nat)
    requires i <= |b|
    ensures NthWordFrom(a + b, |a| + i, k) == NthWordFrom(b, i, k)
    decreases k
  {
    SkipShift(a, b, i, Space);
    var p := Skip(b, i, Space);
    if p < |b| {
      SkipShift(a, b, p, NonSpace);
      var e := Skip(b, p, NonSpace);
      assert (a + b)[|a| + p..|a| + e] == b[p..e];
      if k > 0 {
        NthWordShift(a, b, e, k - 1);
      }
    }
  }

  /** Only white space left: there is no word to read. */
  lemma NthWordOfSpaces(s: seq<char>, k: nat)
    requires AllSpace(s)
    ensures NthWord(s, k).None?
  {
    SkipIs(s, 0, |s|, Space);
  }

  /** One %s step: after white space, a word followed by white space or by
      nothing is read, and the count goes on in what follows it. */
  lemma NthWordStep(lead: seq<char>, word: seq<char>, rest: seq<char>, k: nat)
    requires AllSpace(lead) && IsWord(word)
    requires rest != [] ==> IsSpace(rest[0])
    ensures NthWord(lead + word + rest, k) == if k == 0 then Some(word) else NthWord(rest, k - 1)
  {
    var s := lead + word + rest;
    var p := |lead|;
    var e := p + |word|;
    RunPrefix(lead, word, 0, p, Space);
    RunPrefix(lead + word, rest, 0, p, Space);
    RunSuffix(lead, word, 0, |word|, NonSpace);
    RunPrefix(lead + word, rest, p, e, NonSpace);
    assert s[p] == word[0];
    assert e < |s| ==> s[e] == rest[0];
    SkipIs(s, 0, p, Space);
    SkipIs(s, p, e, NonSpace);
    assert s[p..e] == word;
    if k > 0 {
      NthWordShift(lead + word, rest, 0, k - 1);
    }
  }

  /** Tokenising a line of words recovers the words: the k-th %s conversion
      reads the k-th word, and there is none past the last one. */
  lemma {:induction false} NthWordOfUnwords(lead: seq<char>, ws: seq<seq<char>>, tail: seq<char>, k: nat)
    requires AllSpace(lead) && AllSpace(tail)
    requires forall i :: 0 <= i < |ws| ==> IsWord(ws[i])
    ensures NthWord(lead + Unwords(ws) + tail, k) == if k < |ws| then Some(ws[k]) else None
    decreases ws
  {
    if ws == [] {
      var s := lead + tail;
      assert lead + Unwords(ws) + tail == s;
      RunPrefix(lead, tail, 0, |lead|, Space);
      RunSuffix(lead, tail, 0, |tail|, Space);
      NthWordOfSpaces(s, k);
    } else if |ws| == 1 {
      assert Unwords(ws) == ws[0];
      NthWordStep(lead, ws[0], tail, k);
      if k > 0 {
        NthWordOfSpaces(tail, k - 1);
      }
    } else {
      var rest := " " + Unwords(ws[1..]) + tail;
      assert lead + Unwords(ws) + tail == lead + ws[0] + rest;
      NthWordStep(lead, ws[0], rest, k);
      if k > 0 {
        assert forall i :: 0 <= i < |ws[1..]| ==> IsWord(ws[1..][i]) by {
          forall i | 0 <= i < |ws[1..]| ensures IsWord(ws[1..][i]) {
            assert ws[1..][i] == ws[i + 1];
          }
        }
        assert AllSpace(" ");
        NthWordOfUnwords(" ", ws[1..], tail, k - 1);
      }
    }
  }

  /** Words of a NUL-free text are NUL-free. */
  lemma {:induction false} NthWordNoNul(s: seq<char>, i: nat, k: nat)
    requires i <= |s| && NUL !in s && NthWordFrom(s, i, k).Some?
    ensures NUL !in NthWordFrom(s, i, k).value
    decreases k
  {
    var p := Skip(s, i, Space);
    var e := Skip(s, p, NonSpace);
    if k == 0 {
      assert forall m :: 0 <= m < e - p ==> s[p..e][m] == s[p + m];
    } else {
      NthWordNoNul(s, e, k - 1);
    }
  }

  // ------------------------------------------------------------ decimal text

  /** The decimal text of a natural number, as printf's %d writes it. */
  function Decimal(n: nat): (r: seq<char>)
    ensures r != []
  {
    var last := ['0' + (n % 10) as char];
    if n < 10 then last else Decimal(n / 10) + last
  }

  /** Decimal writes digits whose value is the number. */
  lemma {:induction false} DecimalDigits(n: nat)
    ensures AllDigits(Decimal(n)) && DigitsValue(Decimal(n)) == n
  {
    var last := ['0' + (n % 10) as char];
    assert last[0] as int - '0' as int == n % 10;
    if n < 10 {
      assert DigitsAt(last, 0, 1) == DigitsAt(last, 0, 0) * 10 + n % 10;
    } else {
      var high := Decimal(n / 10);
      DecimalDigits(n / 10);
      var r := high + last;
      assert r == Decimal(n);
      DigitsAtPrefix(high, last, 0, |high|);
      assert DigitsAt(r, 0, |r|) == 10 * DigitsAt(r, 0, |high|) + n % 10;
      assert AllDigits(r) by {
        forall k | 0 <= k < |r| ensures IsDigit(r[k]) {
          if k < |high| { assert r[k] == high[k]; }
        }
      }
    }
  }

  /** The sign printf writes in front of an integer. */
  function SignText(n: int): seq<char> {
    if n < 0 then "-" else []
  }

  function Abs(n: int): nat {
    if n < 0 then -n else n
  }

  /** The decimal text of an integer, with a '-' for negative values. */
  function IntText(n: int): seq<char> {
    SignText(n) + Decimal(Abs(n))
  }

  function Pow10(k: nat): nat {
    if k == 0 then 1 else 10 * Pow10(k - 1)
  }

  /** A number below 10^k has at most k decimal digits. */
  lemma {:induction false} DecimalFits(n: nat, k: nat)
    requires 1 <= k && n < Pow10(k)
    ensures |Decimal(n)| <= k
  {
    if n >= 10 {
      assert Pow10(k) == 10 * Pow10(k - 1);
      DecimalFits(n / 10, k - 1);
    }
  }

  /** The sign and digits of an integer's text, regrouped. */
  lemma IntTextRegroup(pre: seq<char>, lead: seq<char>, n: int, rest: seq<char>)
    ensures pre + lead + IntText(n) + rest == pre + (lead + SignText(n) + Decimal(Abs(n)) + rest)
  {
  }

  /** strtol reads back what %d writes, after any white space, and stops
      where the number ends. */
  lemma ParseLongOfIntText(pre: seq<char>, lead: seq<char>, n: int, rest: seq<char>)
    requires AllSpace(lead)
    requires rest != [] ==> !IsDigit(rest[0])
    ensures ParseLongFrom(pre + lead + IntText(n) + rest, |pre|) == Some((n, |pre| + |lead| + |IntText(n)|))
  {
    var t := lead + SignText(n) + Decimal(Abs(n)) + rest;
    IntTextRegroup(pre, lead, n, rest);
    DecimalDigits(Abs(n));
    ParseLongOfParts(lead, SignText(n), Decimal(Abs(n)), rest);
    ParseLongShift(pre, t, 0);
  }

  /** How the first number of a reading line is delimited. */
  lemma LineRegroup(time: int, value: int, rest: seq<char>)
    ensures IntText(time) + " " + IntText(value) + rest == [] + [] + IntText(time) + (" " + IntText(value) + rest)
  {
  }

  /** A line "<time> <value> ..." scans to exactly those two numbers. */
  lemma ScanTwoIntsOfLine(time: int, value: int, rest: seq<char>)
    requires rest != [] ==> !IsDigit(rest[0])
    ensures ScanTwoInts(IntText(time) + " " + IntText(value) + rest) == (Some(time), Some(value))
  {
    LineRegroup(time, value, rest);
    ParseLongOfIntText([], [], time, " " + IntText(value) + rest);
    assert AllSpace(" ");
    ParseLongOfIntText(IntText(time), " ", value, rest);
  }

  // ------------------------------------------------------------------ strstr

  /** strstr(hay, needle) != NULL. */
  function Contains(hay: seq<char>, needle: seq<char>): bool
    decreases |hay|
  {
    if |hay| < |needle| then false
    else hay[..|needle|] == needle || (hay != [] && Contains(hay[1..], needle))
  }

  /** needle occurs in hay starting at offset i. */
  predicate OccursAt(hay: seq<char>, needle: seq<char>, i: nat) {
    i + |needle| <= |hay| && hay[i..i + |needle|] == needle
  }

  /** strstr finds the needle exactly when it occurs somewhere in the haystack. */
  lemma {:induction false} ContainsIff(hay: seq<char>, needle: seq<char>)
    ensures Contains(hay, needle) <==> exists i: nat :: OccursAt(hay, needle, i)
    decreases |hay|
  {
    if |hay| < |needle| {
    } else if hay[..|needle|] == needle {
      assert OccursAt(hay, needle, 0);
    } else if hay != [] {
      ContainsIff(hay[1..], needle);
      if exists i: nat :: OccursAt(hay, needle, i) {
        var i: nat :| OccursAt(hay, needle, i);
        assert hay[0..0 + |needle|] == hay[..|needle|];
        assert i != 0;
        assert hay[1..][i - 1..i - 1 + |needle|] == hay[i..i + |needle|];
        assert OccursAt(hay[1..], needle, i - 1);
      }
      if Contains(hay[1..], needle) {
        var i: nat :| OccursAt(hay[1..], needle, i);
        assert hay[i + 1..i + 1 + |needle|] == hay[1..][i..i + |needle|];
        assert OccursAt(hay, needle, i + 1);
      }
    }
  }

  /** Substring search tolerates anything around the needle. */
  lemma ContainsSurrounded(before: seq<char>, needle: seq<char>, after: seq<char>)
    ensures Contains(before + needle + after, needle)
  {
    var hay := before + needle + after;
    assert hay[|before|..|before| + |needle|] == needle;
    assert OccursAt(hay, needle, |before|);
    ContainsIff(hay, needle);
  }
}

/** Facts about strings that the key formats and hash payloads rest on. */
module Texts {

  // Letter case, for ASCII letters.

  function LowerChar(c: char): char {
    if 'A' <= c <= 'Z' then (c as int + 32) as char else c
  }

  function UpperChar(c: char): char {
    if 'a' <= c <= 'z' then (c as int - 32) as char else c
  }

  function Lower(s: string): (r: string)
    ensures |r| == |s| && forall i :: 0 <= i < |s| ==> r[i] == LowerChar(s[i])
  {
    seq(|s|, i requires 0 <= i < |s| => LowerChar(s[i]))
  }

  function Upper(s: string): (r: string)
    ensures |r| == |s| && forall i :: 0 <= i < |s| ==> r[i] == UpperChar(s[i])
  {
    seq(|s|, i requires 0 <= i < |s| => UpperChar(s[i]))
  }

  predicate NoColon(s: string) {
    ':' !in s
  }

  lemma ColonAt(s: string, a: string, b: string)
    requires s == a + ":" + b
    ensures |a| < |s| && s[|a|] == ':' && s[..|a|] == a && s[|a| + 1..] == b
    ensures NoColon(a) ==> forall i :: 0 <= i < |a| ==> s[i] != ':'
    ensures NoColon(b) ==> forall i :: |a| < i < |s| ==> s[i] != ':'
  {
    assert forall i :: 0 <= i < |a| ==> s[i] == a[i];
    assert forall i :: |a| < i < |s| ==> s[i] == b[i - |a| - 1];
  }

  /** The part before the first colon ends where that colon stands. */
  lemma FirstColonSplits(a: string, b: string, x: string, y: string)
    requires NoColon(a) && NoColon(x)
    requires a + ":" + b == x + ":" + y
    ensures a == x && b == y
  {
    ColonAt(a + ":" + b, a, b);
    ColonAt(a + ":" + b, x, y);
  }

  /** The same from the right: what follows the last colon. */
  lemma LastColonSplits(a: string, b: string, x: string, y: string)
    requires NoColon(b) && NoColon(y)
    requires a + ":" + b == x + ":" + y
    ensures a == x && b == y
  {
    ColonAt(a + ":" + b, a, b);
    ColonAt(a + ":" + b, x, y);
  }
}

/** Decimal notation of natural numbers, plain and padded with zeros to a minimum width. */
module Decimals {
  import opened Options
  import opened Texts

  predicate IsDigit(c: char) {
    '0' <= c <= '9'
  }

  predicate AllDigits(s: string) {
    forall i :: 0 <= i < |s| ==> IsDigit(s[i])
  }

  function Digit(d: nat): (c: char)
    requires d < 10
    ensures IsDigit(c)
  {
    ('0' as int + d) as char
  }

  function DigitValue(c: char): (d: nat)
    requires IsDigit(c)
    ensures d < 10 && Digit(d) == c
  {
    c as int - '0' as int
  }

  function Print(n: nat): (s: string)
    ensures s != "" && AllDigits(s)
  {
    if n < 10 then [Digit(n)] else Print(n / 10) + [Digit(n % 10)]
  }

  function Parse(s: string): nat
    requires AllDigits(s)
  {
    if s == "" then 0 else Parse(s[..|s| - 1]) * 10 + DigitValue(s[|s| - 1])
  }

  function Zeros(n: nat): (s: string)
    ensures |s| == n && AllDigits(s)
  {
    seq(n, _ => '0')
  }

  function ZeroFilled(s: string, width: nat): (r: string)
    requires AllDigits(s)
    ensures AllDigits(r) && |r| == if |s| >= width then |s| else width
    decreases width - |s|
  {
    if |s| >= width then s else ZeroFilled("0" + s, width)
  }

  /** At least `width` digits: `{n:0{width}d}`. */
  function Padded(n: nat, width: nat): (s: string)
    ensures AllDigits(s) && |s| >= width && s != ""
  {
    ZeroFilled(Print(n), width)
  }

  lemma {:induction false} ParsePrint(n: nat)
    ensures Parse(Print(n)) == n
  {
    if n >= 10 {
      ParsePrint(n / 10);
      assert Print(n)[..|Print(n)| - 1] == Print(n / 10);
    }
  }

  lemma PrintInjective(m: nat, n: nat)
    requires Print(m) == Print(n)
    ensures m == n
  {
    ParsePrint(m);
    ParsePrint(n);
  }

  lemma DigitsHaveNoColon(s: string)
    requires AllDigits(s)
    ensures NoColon(s)
  {
  }

  lemma {:induction false} LeadingZeroDoesNotCount(s: string)
    requires AllDigits(s)
    ensures AllDigits("0" + s) && Parse("0" + s) == Parse(s)
  {
    if s == "" {
      assert ("0" + s)[..0] == "";
    } else {
      LeadingZeroDoesNotCount(s[..|s| - 1]);
      assert ("0" + s)[..|s|] == "0" + s[..|s| - 1];
    }
  }

  lemma {:induction false} ParseZeroFilled(s: string, width: nat)
    requires AllDigits(s)
    ensures Parse(ZeroFilled(s, width)) == Parse(s)
    decreases width - |s|
  {
    if |s| < width {
      LeadingZeroDoesNotCount(s);
      ParseZeroFilled("0" + s, width);
    }
  }

  /** Reading undoes writing, also past the minimum width. */
  lemma ParsePadded(n: nat, width: nat)
    ensures Parse(Padded(n, width)) == n
  {
    ParsePrint(n);
    ParseZeroFilled(Print(n), width);
  }

  // ---------------------------------------------------------------- reading text as an integer

  predicate IsSpace(c: char) {
    c == ' ' || c == '\t' || c == '\n' || c == '\r' || c as int in {11, 12, 28, 29, 30, 31}
  }

  function Strip(s: string): string
    decreases |s|
  {
    if s != "" && IsSpace(s[0]) then Strip(s[1..])
    else if s != "" && IsSpace(s[|s| - 1]) then Strip(s[..|s| - 1])
    else s
  }

  predicate AllSpace(s: string) {
    forall i :: 0 <= i < |s| ==> IsSpace(s[i])
  }

  lemma BlankInFront(s: string, lead: string, inner: string, trail: string)
    requires s != "" && IsSpace(s[0]) && AllSpace(lead) && s[1..] == lead + inner + trail
    ensures s == [s[0]] + lead + inner + trail && AllSpace([s[0]] + lead)
  {
    assert s == [s[0]] + s[1..];
  }

  lemma BlankBehind(s: string, lead: string, inner: string, trail: string)
    requires s != "" && IsSpace(s[|s| - 1]) && AllSpace(trail) && s[..|s| - 1] == lead + inner + trail
    ensures s == lead + inner + (trail + [s[|s| - 1]]) && AllSpace(trail + [s[|s| - 1]])
  {
    assert s == s[..|s| - 1] + [s[|s| - 1]];
  }

  /** Stripping takes the blanks at both ends, all of them and nothing else. */
  lemma {:induction false} StripTakesOuterBlanks(s: string) returns (lead: string, trail: string)
    ensures s == lead + Strip(s) + trail && AllSpace(lead) && AllSpace(trail)
    ensures Strip(s) != "" ==> !IsSpace(Strip(s)[0]) && !IsSpace(Strip(s)[|Strip(s)| - 1])
    decreases |s|
  {
    if s != "" && IsSpace(s[0]) {
      lead, trail := StripTakesOuterBlanks(s[1..]);
      BlankInFront(s, lead, Strip(s), trail);
      lead := [s[0]] + lead;
    } else if s != "" && IsSpace(s[|s| - 1]) {
      lead, trail := StripTakesOuterBlanks(s[..|s| - 1]);
      BlankBehind(s, lead, Strip(s), trail);
      trail := trail + [s[|s| - 1]];
    } else {
      lead, trail := "", "";
    }
  }

  /** Digits, single underscores between them allowed. */
  function IntDigits(s: string): Option<nat> {
    if s == "" || !IsDigit(s[|s| - 1]) then None
    else if |s| == 1 then Some(DigitValue(s[0]))
    else
      var front := if s[|s| - 2] == '_' then s[..|s| - 2] else s[..|s| - 1];
      match IntDigits(front)
      case None => None
      case Some(v) => Some(v * 10 + DigitValue(s[|s| - 1]))
  }

  /** `int(text)` for ASCII text, when there is no minus sign. */
  function ToNat(s: string): Option<nat> {
    var t := Strip(s);
    IntDigits(if t != "" && t[0] == '+' then t[1..] else t)
  }

  /** `int(text)` for ASCII text. */
  function ToInt(s: string): Option<int> {
    var t := Strip(s);
    if t != "" && t[0] == '-' then
      match IntDigits(t[1..])
      case None => None
      case Some(n) => Some(0 as int - n)
    else
      match ToNat(s)
      case None => None
      case Some(n) => Some(n)
  }

  lemma {:induction false} DigitsReadAsNumber(s: string)
    requires AllDigits(s) && s != ""
    ensures IntDigits(s) == Some(Parse(s))
  {
    if |s| == 1 {
      assert s[..0] == "";
    } else {
      DigitsReadAsNumber(s[..|s| - 1]);
    }
  }

  lemma DigitsAreStripped(s: string)
    requires AllDigits(s) && s != ""
    ensures Strip(s) == s && s[0] != '+'
  {
    assert IsDigit(s[0]) && IsDigit(s[|s| - 1]);
  }

  /** Reading undoes printing. */
  lemma PrintIsReadBack(n: nat)
    ensures ToInt(Print(n)) == Some(n)
  {
    DigitsAreStripped(Print(n));
    DigitsReadAsNumber(Print(n));
    ParsePrint(n);
    assert IsDigit(Print(n)[0]);
  }

  lemma MinusIsKept(digits: string)
    requires AllDigits(digits) && digits != ""
    ensures Strip("-" + digits) == "-" + digits && ("-" + digits)[1..] == digits
  {
    var s := "-" + digits;
    assert !IsSpace(s[0]) && IsDigit(s[|s| - 1]);
  }

  /** A minus sign in front makes it negative. */
  lemma NegativeIsReadBack(n: nat)
    ensures ToInt("-" + Print(n)) == Some(0 as int - n)
  {
    MinusIsKept(Print(n));
    DigitsReadAsNumber(Print(n));
    ParsePrint(n);
  }
}

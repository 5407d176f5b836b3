/**
 * Character-level helpers shared by the display and the link matcher: ASCII
 * digits, digit runs, decimal rendering (Python's `%d`) and the subset of
 * Python's `str.format` that the program's templates use.
 */
module Text {
  import opened Wrappers

  predicate IsDigit(c: char) {
    '0' <= c <= '9'
  }

  predicate AllDigits(s: string, lo: nat, hi: nat) {
    lo <= hi <= |s| && forall k :: lo <= k < hi ==> IsDigit(s[k])
  }

  /** Length of the longest run of ASCII digits in `s` starting at `lo`. */
  function DigitsFrom(s: string, lo: nat): (n: nat)
    requires lo <= |s|
    ensures AllDigits(s, lo, lo + n)
    ensures lo + n < |s| ==> !IsDigit(s[lo + n])
    decreases |s| - lo
  {
    if lo == |s| || !IsDigit(s[lo]) then 0 else 1 + DigitsFrom(s, lo + 1)
  }

  /** A maximal digit run is the only digit run that is followed by a non-digit. */
  lemma DigitRunForced(s: string, lo: nat, n: nat, m: nat)
    requires AllDigits(s, lo, lo + n) && lo + n < |s| && !IsDigit(s[lo + n])
    requires AllDigits(s, lo, lo + m) && lo + m < |s| && !IsDigit(s[lo + m])
    ensures n == m
  {
  }

  function DigitChar(d: nat): (c: char)
    requires d < 10
    ensures IsDigit(c)
  {
    ('0' as int + d) as char
  }

  function DigitValue(c: char): (d: nat)
    requires IsDigit(c)
    ensures d < 10
  {
    c as int - '0' as int
  }

  /** Decimal representation of `n` without leading zeros, as Python's `"%d" % n` renders it. */
  function Decimal(n: nat): (s: string)
    ensures |s| > 0 && AllDigits(s, 0, |s|)
    ensures s[0] == '0' ==> n == 0
  {
    if n < 10 then [DigitChar(n)] else Decimal(n / 10) + [DigitChar(n % 10)]
  }

  /** The number a run of decimal digits denotes. */
  function Value(s: string): nat
    requires AllDigits(s, 0, |s|)
  {
    if s == [] then 0 else 10 * Value(s[..|s| - 1]) + DigitValue(s[|s| - 1])
  }

  /** Reading back the rendered digits gives the number: `int("%d" % n) == n`. */
  lemma {:induction false} ValueOfDecimal(n: nat)
    ensures Value(Decimal(n)) == n
  {
    var s := Decimal(n);
    if n >= 10 {
      assert s[..|s| - 1] == Decimal(n / 10);
      ValueOfDecimal(n / 10);
    }
  }

  predicate NoBraces(s: string) {
    '{' !in s && '}' !in s
  }

  lemma NoBracesJoin(a: string, b: string)
    requires NoBraces(a) && NoBraces(b)
    ensures NoBraces(a + b)
  {
  }

  function Prepend(p: string, r: Option<string>): Option<string> {
    match r
    case Some(x) => Some(p + x)
    case None => None
  }

  /**
   * Python's `template.format(*args)` for automatically numbered fields `{}`
   * and the escapes `{{` and `}}`.  None stands for the exception Python
   * raises: a lone brace (ValueError) or more fields than arguments
   * (IndexError); a field of another form (`{0}`, `{name}`) is outside this
   * subset and also gives None.  Extra arguments are ignored, as in Python.
   */
  function Format(t: string, args: seq<string>): Option<string>
    decreases |t|
  {
    if t == [] then Some("")
    else if t[0] == '{' && |t| >= 2 && t[1] == '}' then
      if args == [] then None else Prepend(args[0], Format(t[2..], args[1..]))
    else if t[0] == '{' && |t| >= 2 && t[1] == '{' then Prepend("{", Format(t[2..], args))
    else if t[0] == '}' && |t| >= 2 && t[1] == '}' then Prepend("}", Format(t[2..], args))
    else if t[0] == '{' || t[0] == '}' then None
    else Prepend([t[0]], Format(t[1..], args))
  }

  /** Text without braces is copied through unchanged, whatever the arguments. */
  lemma {:induction false} FormatLiteral(p: string, t: string, args: seq<string>)
    requires NoBraces(p)
    ensures Format(p + t, args) == Prepend(p, Format(t, args))
  {
    if p == [] {
      assert p + t == t;
      match Format(t, args)
      case Some(x) => assert p + x == x;
      case None =>
    } else {
      assert (p + t)[0] == p[0] && p[0] in p;
      assert (p + t)[1..] == p[1..] + t;
      assert NoBraces(p[1..]) by {
        forall c | c in p[1..] ensures c in p {
          var k :| 0 <= k < |p[1..]| && p[1..][k] == c;
          assert p[k + 1] == c;
        }
      }
      FormatLiteral(p[1..], t, args);
      match Format(t, args)
      case Some(x) => assert [p[0]] + (p[1..] + x) == p + x;
      case None =>
    }
  }

  /** A template without braces formats to itself: the arguments are not used. */
  lemma FormatWithoutFields(t: string, args: seq<string>)
    requires NoBraces(t)
    ensures Format(t, args) == Some(t)
  {
    FormatLiteral(t, "", args);
    assert t + "" == t;
  }

  /** A field `{}` is replaced by the next argument, verbatim. */
  lemma FormatField(a: string, t: string, args: seq<string>)
    ensures Format("{}" + t, [a] + args) == Prepend(a, Format(t, args))
  {
    var u := "{}" + t;
    assert u[0] == '{' && u[1] == '}' && u[2..] == t;
    assert ([a] + args)[1..] == args;
  }

  /** A field at the end of the template takes the last argument. */
  lemma FormatLastField(b: string, q: string)
    requires NoBraces(q)
    ensures Format("{}" + q, [b]) == Some(b + q)
  {
    FormatWithoutFields(q, []);
    assert [b] == [b] + [];
    FormatField(b, q, []);
  }

  /** Two fields separated and followed by brace-free text. */
  lemma FormatTwoFields(a: string, b: string, p: string, q: string)
    requires NoBraces(p) && NoBraces(q)
    ensures Format("{}" + (p + ("{}" + q)), [a, b]) == Some(a + (p + (b + q)))
  {
    assert Format(p + ("{}" + q), [b]) == Some(p + (b + q)) by {
      FormatLastField(b, q);
      FormatLiteral(p, "{}" + q, [b]);
    }
    assert [a, b] == [a] + [b];
    FormatField(a, p + ("{}" + q), [b]);
  }

  /** Three fields separated and followed by brace-free text. */
  lemma FormatThreeFields(a: string, b: string, c: string, p: string, q: string, r: string)
    requires NoBraces(p) && NoBraces(q) && NoBraces(r)
    ensures Format("{}" + (p + ("{}" + (q + ("{}" + r)))), [a, b, c]) == Some(a + (p + (b + (q + (c + r)))))
  {
    var rest := "{}" + (q + ("{}" + r));
    assert Format(p + rest, [b, c]) == Some(p + (b + (q + (c + r)))) by {
      FormatTwoFields(b, c, q, r);
      FormatLiteral(p, rest, [b, c]);
    }
    assert [a, b, c] == [a] + [b, c];
    FormatField(a, p + rest, [b, c]);
  }
}

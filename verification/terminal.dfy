/**
 * The part of an ECMA-48 terminal that the progress display relies on.
 *
 * A terminal reads characters as a stream of control tokens: printable
 * characters, carriage return, line feed and control sequences
 * `ESC [ <decimal parameter> <final character>`.  It interprets CUU (final
 * `A`, cursor up), CUD (final `B`, cursor down) and EL with parameter 2
 * (final `K`, erase the whole line); other control sequences leave the screen
 * as it is.  The screen is a list of rows of text with a cursor row and
 * column; it has no height limit and never scrolls.
 */
module Terminal {
  import opened Text

  const ESC: char := 27 as char

  datatype Ctl =
    | Print(c: char)
    | CarriageReturn
    | LineFeed
    | Csi(param: nat, final: char)

  /** The characters that carry one token to the terminal. */
  function Encode(op: Ctl): string {
    match op
    case Print(c) => [c]
    case CarriageReturn => "\r"
    case LineFeed => "\n"
    case Csi(n, f) => [ESC, '['] + Decimal(n) + [f]
  }

  function EncodeAll(ops: seq<Ctl>): string {
    if ops == [] then "" else Encode(ops[0]) + EncodeAll(ops[1..])
  }

  /** Each character of `s` printed as it is. */
  function Prints(s: string): (ops: seq<Ctl>)
    ensures |ops| == |s|
  {
    if s == [] then [] else [Print(s[0])] + Prints(s[1..])
  }

  /**
   * How a terminal splits characters into tokens.  An ESC not followed by
   * `[` is dropped; a control sequence cut off by the end of the input has no
   * effect.
   */
  function Parse(s: string): seq<Ctl>
    decreases |s|
  {
    if s == [] then []
    else if s[0] == ESC then
      if |s| >= 2 && s[1] == '[' then
        var n := DigitsFrom(s, 2);
        if 2 + n < |s| then [Csi(Value(s[2..2 + n]), s[2 + n])] + Parse(s[3 + n..])
        else []
      else Parse(s[1..])
    else if s[0] == '\r' then [CarriageReturn] + Parse(s[1..])
    else if s[0] == '\n' then [LineFeed] + Parse(s[1..])
    else [Print(s[0])] + Parse(s[1..])
  }

  /** Tokens whose characters a terminal reads back as the same tokens. */
  predicate WellFormed(op: Ctl) {
    match op
    case Print(c) => c != ESC && c != '\r' && c != '\n'
    case Csi(_, f) => !IsDigit(f)
    case _ => true
  }

  predicate AllWellFormed(ops: seq<Ctl>)
    decreases |ops|
  {
    ops == [] || (WellFormed(ops[0]) && AllWellFormed(ops[1..]))
  }

  /** Text without ESC, CR or LF: printing it moves nothing but the column. */
  predicate Printable(s: string)
    decreases |s|
  {
    s == [] || (s[0] != ESC && s[0] != '\r' && s[0] != '\n' && Printable(s[1..]))
  }

  /** Concatenated well-formed token lists are well formed. */
  lemma {:induction false} AppendWellFormed(a: seq<Ctl>, b: seq<Ctl>)
    requires AllWellFormed(a) && AllWellFormed(b)
    ensures AllWellFormed(a + b)
    decreases |a|
  {
    if a == [] {
      assert a + b == b;
    } else {
      assert (a + b)[0] == a[0];
      assert (a + b)[1..] == a[1..] + b;
      AppendWellFormed(a[1..], b);
    }
  }

  /** Concatenated printable texts are printable. */
  lemma {:induction false} AppendPrintable(a: string, b: string)
    requires Printable(a) && Printable(b)
    ensures Printable(a + b)
    decreases |a|
  {
    if a == [] {
      assert a + b == b;
    } else {
      assert (a + b)[0] == a[0];
      assert (a + b)[1..] == a[1..] + b;
      AppendPrintable(a[1..], b);
    }
  }

  lemma {:induction false} EncodeAllAppend(a: seq<Ctl>, b: seq<Ctl>)
    ensures EncodeAll(a + b) == EncodeAll(a) + EncodeAll(b)
  {
    if a == [] {
      assert a + b == b;
    } else {
      assert (a + b)[0] == a[0];
      assert (a + b)[1..] == a[1..] + b;
      EncodeAllAppend(a[1..], b);
    }
  }

  lemma {:induction false} EncodePrints(s: string)
    ensures EncodeAll(Prints(s)) == s
  {
    if s != [] {
      var ops := Prints(s);
      assert ops[0] == Print(s[0]) && ops[1..] == Prints(s[1..]);
      EncodePrints(s[1..]);
      assert [s[0]] + s[1..] == s;
    }
  }

  lemma {:induction false} PrintsWellFormed(s: string)
    requires Printable(s)
    ensures AllWellFormed(Prints(s))
  {
    if s != [] {
      PrintsWellFormed(s[1..]);
      var ops := Prints(s);
      assert ops[0] == Print(s[0]) && ops[1..] == Prints(s[1..]);
    }
  }

  /** A control sequence followed by anything is read as that sequence, then the rest. */
  lemma ParseCsi(n: nat, f: char, rest: string)
    requires !IsDigit(f)
    ensures Parse(Encode(Csi(n, f)) + rest) == [Csi(n, f)] + Parse(rest)
  {
    var d := Decimal(n);
    var s := Encode(Csi(n, f)) + rest;
    assert s == [ESC, '['] + (d + [f] + rest);
    assert s[0] == ESC && s[1] == '[';
    assert forall k :: 2 <= k < 2 + |d| ==> s[k] == d[k - 2];
    assert s[2 + |d|] == f;
    DigitRunForced(s, 2, DigitsFrom(s, 2), |d|);
    assert s[2..2 + |d|] == d;
    ValueOfDecimal(n);
    assert s[3 + |d|..] == rest;
  }

  /** One well-formed token followed by anything is read as that token, then the rest. */
  lemma ParseToken(op: Ctl, rest: string)
    requires WellFormed(op)
    ensures Parse(Encode(op) + rest) == [op] + Parse(rest)
  {
    var s := Encode(op) + rest;
    match op
    case Print(c) =>
      assert s[0] == c && s[1..] == rest;
    case CarriageReturn =>
      assert s[0] == '\r' && s[1..] == rest;
    case LineFeed =>
      assert s[0] == '\n' && s[1..] == rest;
    case Csi(n, f) =>
      ParseCsi(n, f, rest);
  }

  /** The terminal reads back exactly the tokens that were written, when each is well formed. */
  lemma {:induction false} ParseEncodeAll(ops: seq<Ctl>)
    requires AllWellFormed(ops)
    ensures Parse(EncodeAll(ops)) == ops
  {
    if ops != [] {
      ParseToken(ops[0], EncodeAll(ops[1..]));
      ParseEncodeAll(ops[1..]);
      assert [ops[0]] + ops[1..] == ops;
    }
  }

  // ---- the screen ----

  datatype Screen = Screen(rows: seq<string>, row: nat, col: nat)

  /** An empty screen with the cursor at the top left. */
  const Blank: Screen := Screen([], 0, 0)

  /** The text of row `r`; rows below the last written one are empty. */
  function RowAt(rows: seq<string>, r: nat): string {
    if r < |rows| then rows[r] else ""
  }

  /** Replace row `r` by `line`, adding empty rows above it when the screen is shorter. */
  function SetRow(rows: seq<string>, r: nat, line: string): seq<string> {
    if r < |rows| then rows[r := line] else rows + seq(r - |rows|, _ => "") + [line]
  }

  /** Put `c` in column `col` of `line`, padding with blanks when the line is shorter. */
  function Overwrite(line: string, col: nat, c: char): string {
    if col < |line| then line[col := c] else line + seq(col - |line|, _ => ' ') + [c]
  }

  /** A parameter of 0 means 1 for the cursor movements (ECMA-48 default). */
  function Count(n: nat): nat {
    if n == 0 then 1 else n
  }

  /** The effect of one token on the screen. */
  function Step(t: Screen, op: Ctl): Screen {
    match op
    case Print(c) =>
      t.(rows := SetRow(t.rows, t.row, Overwrite(RowAt(t.rows, t.row), t.col, c)), col := t.col + 1)
    case CarriageReturn => t.(col := 0)
    case LineFeed => t.(row := t.row + 1)
    case Csi(n, f) =>
      if f == 'A' then t.(row := if t.row >= Count(n) then t.row - Count(n) else 0)
      else if f == 'B' then t.(row := t.row + Count(n))
      else if f == 'K' && n == 2 then t.(rows := if t.row < |t.rows| then t.rows[t.row := ""] else t.rows)
      else t
  }

  function Run(t: Screen, ops: seq<Ctl>): Screen
    decreases |ops|
  {
    if ops == [] then t else Run(Step(t, ops[0]), ops[1..])
  }

  /** Writing `a` then `b` to a terminal is the same as writing `a + b`. */
  lemma {:induction false} RunAppend(t: Screen, a: seq<Ctl>, b: seq<Ctl>)
    ensures Run(t, a + b) == Run(Run(t, a), b)
    decreases |a|
  {
    if a == [] {
      assert a + b == b;
    } else {
      assert (a + b)[0] == a[0];
      assert (a + b)[1..] == a[1..] + b;
      RunAppend(Step(t, a[0]), a[1..], b);
    }
  }

  lemma SetRowTwice(rows: seq<string>, r: nat, a: string, b: string)
    ensures SetRow(SetRow(rows, r, a), r, b) == SetRow(rows, r, b)
  {
    if r >= |rows| {
      assert SetRow(SetRow(rows, r, a), r, b) == (rows + seq(r - |rows|, _ => "") + [a])[r := b];
    }
  }

  /** Printing one character at the end of the cursor's row appends it to that row. */
  lemma PrintAtEnd(t: Screen, c: char)
    requires t.col == |RowAt(t.rows, t.row)|
    ensures Step(t, Print(c)) == t.(rows := SetRow(t.rows, t.row, RowAt(t.rows, t.row) + [c]), col := t.col + 1)
  {
    assert Overwrite(RowAt(t.rows, t.row), t.col, c) == RowAt(t.rows, t.row) + [c];
  }

  /** Printing `s` at the end of the cursor's row appends `s` to that row. */
  lemma {:induction false} PrintsAppend(t: Screen, s: string)
    requires t.col == |RowAt(t.rows, t.row)|
    requires t.row < |t.rows| || s != []
    ensures Run(t, Prints(s)) == t.(rows := SetRow(t.rows, t.row, RowAt(t.rows, t.row) + s), col := t.col + |s|)
    decreases |s|
  {
    var line := RowAt(t.rows, t.row);
    if s == [] {
      assert line + s == line;
      assert t.rows[t.row := line] == t.rows;
    } else {
      var ops := Prints(s);
      assert ops[0] == Print(s[0]) && ops[1..] == Prints(s[1..]);
      PrintAtEnd(t, s[0]);
      var t1 := Step(t, Print(s[0]));
      PrintsAppend(t1, s[1..]);
      SetRowTwice(t.rows, t.row, line + [s[0]], line + [s[0]] + s[1..]);
      assert line + [s[0]] + s[1..] == line + s;
    }
  }
}

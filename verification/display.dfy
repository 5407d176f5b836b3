/**
 * ParallelStreamWriter (addons.py): one terminal line per operation running
 * in parallel, each rewritten in place by moving the cursor up to it, erasing
 * it, writing the new text and moving back down.
 *
 * The process's standard output is replaced by an in-memory stream: `output`
 * is every character written to it, in order, and `flushed` is how many of
 * them the last flush pushed out.  The ghost field `ops` is what those
 * characters say to a terminal, and `screen` is the screen they produce.
 */
module Display {
  import opened Wrappers
  import opened Text
  import opened Terminal

  /** Python's `list.index`: the first position of `x`, or None where Python raises ValueError. */
  function FirstIndex(s: seq<string>, x: string): (r: Option<nat>)
    ensures r.None? <==> x !in s
    ensures r.Some? ==> r.value < |s| && s[r.value] == x
    ensures r.Some? ==> forall k :: 0 <= k < r.value ==> s[k] != x
  {
    if s == [] then None
    else if s[0] == x then Some(0)
    else match FirstIndex(s[1..], x)
      case None => None
      case Some(k) => Some(k + 1)
  }

  /**
   * The distance `write` moves the cursor up and back down: at least one
   * line (the cursor sits below the last line) and at most all of them.
   */
  lemma WriteDistance(lines: seq<string>, item: string)
    requires item in lines
    ensures 1 <= |lines| - FirstIndex(lines, item).value <= |lines|
  {
  }

  /** `"{} {} ... \r\n"`, the template `initialize` formats. */
  const InitTemplate: string := "{}" + (" " + ("{}" + InitTail))
  const InitTail: string := " ... \r\n"

  /** `"{} {} ... {}\r"`, the template `write` formats. */
  const WriteTemplate: string := "{}" + (" " + ("{}" + (Dots + ("{}" + "\r"))))
  const Dots: string := " ... "

  /** The text of an operation's line; the status is empty right after registration. */
  function LineText(msg: string, item: string, status: string): string {
    msg + (" " + (item + (Dots + status)))
  }

  /** `"%c[%dA" % (27, n)`: move the cursor up `n` lines. */
  function CursorUp(n: nat): string {
    [ESC] + "[" + Decimal(n) + "A"
  }

  /** `"%c[%dB" % (27, n)`: move the cursor down `n` lines. */
  function CursorDown(n: nat): string {
    [ESC] + "[" + Decimal(n) + "B"
  }

  /** `"%c[2K\r" % 27`: erase the whole line and return to its first column. */
  const EraseLine: string := [ESC] + "[2K\r"

  /** What `initialize` writes, as terminal tokens. */
  function InitOps(text: string): seq<Ctl> {
    Prints(text) + [CarriageReturn, LineFeed]
  }

  /** The tokens of each of the four strings `write` passes to the stream. */
  function UpOps(diff: nat): seq<Ctl> {
    [Csi(diff, 'A')]
  }

  const EraseOps: seq<Ctl> := [Csi(2, 'K'), CarriageReturn]

  function LineOps(text: string): seq<Ctl> {
    Prints(text) + [CarriageReturn]
  }

  function DownOps(diff: nat): seq<Ctl> {
    [Csi(diff, 'B')]
  }

  /** What `write` writes for a line `diff` rows above the cursor, as terminal tokens. */
  function WriteOps(diff: nat, text: string): seq<Ctl> {
    UpOps(diff) + EraseOps + LineOps(text) + DownOps(diff)
  }

  /** The characters of the four strings `write` passes to the stream. */
  function WriteText(msg: string, item: string, status: string, diff: nat): string {
    CursorUp(diff) + EraseLine + (LineText(msg, item, status) + "\r") + CursorDown(diff)
  }

  /** The characters `write` emits say exactly `WriteOps`. */
  lemma WriteEncodes(diff: nat, text: string)
    ensures EncodeAll(WriteOps(diff, text)) == CursorUp(diff) + EraseLine + (text + "\r") + CursorDown(diff)
  {
    UpEncodes(diff);
    EraseEncodes();
    LineEncodes(text);
    DownEncodes(diff);
    EncodeAllAppend(UpOps(diff) + EraseOps + LineOps(text), DownOps(diff));
    EncodeAllAppend(UpOps(diff) + EraseOps, LineOps(text));
    EncodeAllAppend(UpOps(diff), EraseOps);
  }

  lemma InitEncodes(text: string)
    ensures EncodeAll(InitOps(text)) == text + "\r\n"
  {
    EncodePrints(text);
    EncodeAllAppend(Prints(text), [CarriageReturn, LineFeed]);
  }

  lemma UpEncodes(diff: nat)
    ensures EncodeAll(UpOps(diff)) == CursorUp(diff)
  {
  }

  lemma EraseEncodes()
    ensures EncodeAll(EraseOps) == EraseLine
  {
    assert Decimal(2) == "2";
  }

  lemma LineEncodes(text: string)
    ensures EncodeAll(LineOps(text)) == text + "\r"
  {
    EncodePrints(text);
    EncodeAllAppend(Prints(text), [CarriageReturn]);
  }

  lemma DownEncodes(diff: nat)
    ensures EncodeAll(DownOps(diff)) == CursorDown(diff)
  {
  }

  lemma FormatInitLine(msg: string, item: string)
    ensures Format(InitTemplate, [msg, item]) == Some(LineText(msg, item, "") + "\r\n")
  {
    FormatTwoFields(msg, item, " ", InitTail);
    assert InitTail == Dots + "\r\n";
    calc {
      LineText(msg, item, "") + "\r\n";
    ==  { assert Dots + "" == Dots; }
      (msg + (" " + (item + Dots))) + "\r\n";
    ==  { assert (item + Dots) + "\r\n" == item + (Dots + "\r\n");
          assert (" " + (item + Dots)) + "\r\n" == " " + ((item + Dots) + "\r\n");
          assert (msg + (" " + (item + Dots))) + "\r\n" == msg + ((" " + (item + Dots)) + "\r\n"); }
      msg + (" " + (item + (Dots + "\r\n")));
    }
  }

  lemma FormatWriteLine(msg: string, item: string, status: string)
    ensures Format(WriteTemplate, [msg, item, status]) == Some(LineText(msg, item, status) + "\r")
  {
    FormatThreeFields(msg, item, status, " ", Dots, "\r");
    assert (Dots + status) + "\r" == Dots + (status + "\r");
    assert (item + (Dots + status)) + "\r" == item + ((Dots + status) + "\r");
    assert (" " + (item + (Dots + status))) + "\r" == " " + ((item + (Dots + status)) + "\r");
    assert (msg + (" " + (item + (Dots + status)))) + "\r" == msg + ((" " + (item + (Dots + status))) + "\r");
  }

  /** Registering a line prints it on a fresh row below the others. */
  lemma InitOpsEffect(t: Screen, text: string)
    requires t.row == |t.rows| && t.col == 0 && text != []
    ensures Run(t, InitOps(text)) == Screen(t.rows + [text], t.row + 1, 0)
  {
    assert RowAt(t.rows, t.row) + text == text;
    PrintsAppend(t, text);
    var t1 := Run(t, Prints(text));
    var rows := SetRow(t.rows, t.row, text);
    assert rows == t.rows + [text] by {
      assert |rows| == |t.rows| + 1;
      forall k | 0 <= k < |rows| ensures rows[k] == (t.rows + [text])[k] {
        if k < |t.rows| {
          assert rows[k] == RowAt(t.rows, k);
        }
      }
    }
    assert t1 == Screen(t.rows + [text], t.row, |text|);
    RunAppend(t, Prints(text), [CarriageReturn, LineFeed]);
    var t2 := Step(t1, CarriageReturn);
    var t3 := Step(t2, LineFeed);
    assert Run(t3, []) == t3;
    assert Run(t2, [LineFeed]) == t3;
    assert Run(t1, [CarriageReturn, LineFeed]) == t3;
  }

  /** Writing the tokens of `write` chunk by chunk is writing them all at once. */
  lemma RunWriteChunks(t: Screen, diff: nat, text: string)
    ensures Run(Run(Run(Run(t, UpOps(diff)), EraseOps), LineOps(text)), DownOps(diff)) == Run(t, WriteOps(diff, text))
  {
    RunAppend(t, UpOps(diff) + EraseOps + LineOps(text), DownOps(diff));
    RunAppend(t, UpOps(diff) + EraseOps, LineOps(text));
    RunAppend(t, UpOps(diff), EraseOps);
  }

  /** Moving up `diff` rows from a row at least that low. */
  lemma UpEffect(t: Screen, diff: nat)
    requires 1 <= diff <= t.row
    ensures Run(t, UpOps(diff)) == t.(row := t.row - diff)
  {
    assert UpOps(diff)[1..] == [];
  }

  /** Erasing a row that exists empties it and returns to its first column. */
  lemma EraseEffect(t: Screen)
    requires t.row < |t.rows|
    ensures Run(t, EraseOps) == t.(rows := t.rows[t.row := ""], col := 0)
  {
    var t1 := Step(t, Csi(2, 'K'));
    assert EraseOps[1..] == [CarriageReturn];
    assert Run(t1, [CarriageReturn]) == Step(t1, CarriageReturn);
  }

  /** Printing `text` on an empty existing row leaves `text` there, with the cursor back at its start. */
  lemma LineEffect(t: Screen, text: string)
    requires t.row < |t.rows| && t.rows[t.row] == "" && t.col == 0
    ensures Run(t, LineOps(text)) == t.(rows := t.rows[t.row := text])
  {
    PrintsAppend(t, text);
    assert "" + text == text;
    RunAppend(t, Prints(text), [CarriageReturn]);
  }

  /** Moving down `diff` rows. */
  lemma DownEffect(t: Screen, diff: nat)
    requires 1 <= diff
    ensures Run(t, DownOps(diff)) == t.(row := t.row + diff)
  {
    assert DownOps(diff)[1..] == [];
  }

  /**
   * From a cursor `diff` rows below row `i`, `write`'s tokens replace row `i`
   * by `text`, leave every other row as it was, and bring the cursor back to
   * where it started, in the first column.
   */
  lemma WriteOpsEffect(t: Screen, diff: nat, text: string)
    requires 1 <= diff <= t.row && t.row - diff < |t.rows|
    ensures Run(t, WriteOps(diff, text)) == t.(rows := t.rows[t.row - diff := text], col := 0)
  {
    var i := t.row - diff;
    var s1, s2, s3 := t.(row := i), Screen(t.rows[i := ""], i, 0), Screen(t.rows[i := text], i, 0);
    UpEffect(t, diff);
    EraseEffect(s1);
    LineEffect(s2, text);
    assert t.rows[i := ""][i := text] == t.rows[i := text];
    DownEffect(s3, diff);
    assert Run(Run(Run(Run(t, UpOps(diff)), EraseOps), LineOps(text)), DownOps(diff)) == s3.(row := t.row);
    RunWriteChunks(t, diff, text);
  }

  /**
   * The display invariant on a screen: one row per registered item, in
   * registration order, row `i` showing item `i` with the status last written
   * to it, and the cursor in the first column of the row below the last one.
   */
  ghost predicate Shows(t: Screen, msg: string, items: seq<string>, statuses: seq<string>) {
    && |statuses| == |items|
    && |t.rows| == |items|
    && t.row == |items|
    && t.col == 0
    && forall i :: 0 <= i < |items| ==> t.rows[i] == LineText(msg, items[i], statuses[i])
  }

  /** Registering an item keeps the display invariant, with the new item's status empty. */
  lemma InitShows(t: Screen, msg: string, items: seq<string>, statuses: seq<string>, item: string)
    requires Shows(t, msg, items, statuses)
    ensures Run(t, InitOps(LineText(msg, item, ""))) == Screen(t.rows + [LineText(msg, item, "")], t.row + 1, 0)
    ensures Shows(Run(t, InitOps(LineText(msg, item, ""))), msg, items + [item], statuses + [""])
  {
    InitOpsEffect(t, LineText(msg, item, ""));
  }

  /**
   * Writing `status` for the item at position `i`, from the cursor's resting
   * row, keeps the display invariant with only item `i`'s status changed.
   */
  lemma WriteShows(t: Screen, msg: string, items: seq<string>, statuses: seq<string>, i: nat, status: string)
    requires Shows(t, msg, items, statuses) && i < |items|
    ensures Run(t, WriteOps(|items| - i, LineText(msg, items[i], status)))
            == t.(rows := t.rows[i := LineText(msg, items[i], status)])
    ensures Shows(Run(t, WriteOps(|items| - i, LineText(msg, items[i], status))), msg, items, statuses[i := status])
  {
    var text := LineText(msg, items[i], status);
    WriteOpsEffect(t, |items| - i, text);
    var rows, statuses' := t.rows[i := text], statuses[i := status];
    forall j | 0 <= j < |items| ensures rows[j] == LineText(msg, items[j], statuses'[j]) {
      if j != i {
        assert rows[j] == t.rows[j];
      }
    }
  }

  /** Writing the same status twice shows the same screen as writing it once. */
  lemma WriteIdempotent(t: Screen, diff: nat, text: string)
    requires 1 <= diff <= t.row && t.row - diff < |t.rows|
    ensures Run(Run(t, WriteOps(diff, text)), WriteOps(diff, text)) == Run(t, WriteOps(diff, text))
  {
    WriteOpsEffect(t, diff, text);
    var t1 := Run(t, WriteOps(diff, text));
    WriteOpsEffect(t1, diff, text);
    assert t1.rows[t.row - diff := text] == t1.rows;
  }

  /** With printable message and item, what `initialize` writes reads back unchanged. */
  lemma InitOpsWellFormed(msg: string, item: string)
    requires Printable(msg) && Printable(item)
    ensures AllWellFormed(InitOps(LineText(msg, item, "")))
  {
    LineTextPrintable(msg, item, "");
    PrintsWellFormed(LineText(msg, item, ""));
    AppendWellFormed(Prints(LineText(msg, item, "")), [CarriageReturn, LineFeed]);
  }

  /** With printable message, item and status, what `write` writes reads back unchanged. */
  lemma WriteOpsWellFormed(diff: nat, msg: string, item: string, status: string)
    requires Printable(msg) && Printable(item) && Printable(status)
    ensures AllWellFormed(WriteOps(diff, LineText(msg, item, status)))
  {
    var text := LineText(msg, item, status);
    LineTextPrintable(msg, item, status);
    PrintsWellFormed(text);
    AppendWellFormed(Prints(text), [CarriageReturn]);
    AppendWellFormed(UpOps(diff), EraseOps);
    AppendWellFormed(UpOps(diff) + EraseOps, LineOps(text));
    AppendWellFormed(UpOps(diff) + EraseOps + LineOps(text), DownOps(diff));
  }

  /** Registering a printable item keeps a well-formed token log well formed. */
  lemma InitKeepsWellFormed(ops: seq<Ctl>, msg: string, item: string)
    ensures AllWellFormed(ops) && Printable(msg) && Printable(item)
            ==> AllWellFormed(ops + InitOps(LineText(msg, item, "")))
  {
    if AllWellFormed(ops) && Printable(msg) && Printable(item) {
      InitOpsWellFormed(msg, item);
      AppendWellFormed(ops, InitOps(LineText(msg, item, "")));
    }
  }

  /** Writing a printable status keeps a well-formed token log well formed. */
  lemma WriteKeepsWellFormed(ops: seq<Ctl>, diff: nat, msg: string, item: string, status: string)
    ensures AllWellFormed(ops) && Printable(msg) && Printable(item) && Printable(status)
            ==> AllWellFormed(ops + WriteOps(diff, LineText(msg, item, status)))
  {
    if AllWellFormed(ops) && Printable(msg) && Printable(item) && Printable(status) {
      WriteOpsWellFormed(diff, msg, item, status);
      AppendWellFormed(ops, WriteOps(diff, LineText(msg, item, status)));
    }
  }

  lemma LineTextPrintable(msg: string, item: string, status: string)
    requires Printable(msg) && Printable(item) && Printable(status)
    ensures Printable(LineText(msg, item, status))
  {
    assert Printable(Dots) && Printable(" ");
    AppendPrintable(Dots, status);
    AppendPrintable(item, Dots + status);
    AppendPrintable(" ", item + (Dots + status));
    AppendPrintable(msg, " " + (item + (Dots + status)));
  }

  lemma AppendFour<T>(o: seq<T>, a: seq<T>, b: seq<T>, c: seq<T>, d: seq<T>)
    ensures o + a + b + c + d == o + (a + b + c + d)
  {
  }

  /** The characters `write` appends to a log of `ops` are a log of `ops + WriteOps`. */
  lemma WriteLogged(output: string, ops: seq<Ctl>, msg: string, item: string, status: string, diff: nat)
    requires output == EncodeAll(ops)
    ensures output + WriteText(msg, item, status, diff) == EncodeAll(ops + WriteOps(diff, LineText(msg, item, status)))
  {
    WriteEncodes(diff, LineText(msg, item, status));
    EncodeAllAppend(ops, WriteOps(diff, LineText(msg, item, status)));
  }

  /**
   * On the screen a terminal shows after `ops`, `write`'s tokens show row
   * `i` with the new status, and the display invariant holds again with
   * only item `i`'s status changed.
   */
  lemma WriteRendered(ops: seq<Ctl>, t: Screen, msg: string, items: seq<string>, statuses: seq<string>, i: nat, status: string)
    requires t == Run(Blank, ops) && Shows(t, msg, items, statuses) && i < |items|
    ensures var diff, text := |items| - i, LineText(msg, items[i], status);
      && Run(Blank, ops + WriteOps(diff, text)) == t.(rows := t.rows[i := text])
      && Shows(t.(rows := t.rows[i := text]), msg, items, statuses[i := status])
  {
    var diff, text := |items| - i, LineText(msg, items[i], status);
    RunAppend(Blank, ops, WriteOps(diff, text));
    WriteShows(t, msg, items, statuses, i, status);
  }

  /** The line `initialize` formats. */
  function InitLine(msg: string, item: string): (line: string)
    ensures line == LineText(msg, item, "") + "\r\n"
  {
    FormatInitLine(msg, item);
    Format(InitTemplate, [msg, item]).value
  }

  /** The line `write` formats. */
  function WriteLine(msg: string, item: string, status: string): (line: string)
    ensures line == LineText(msg, item, status) + "\r"
  {
    FormatWriteLine(msg, item, status);
    Format(WriteTemplate, [msg, item, status]).value
  }

  class ParallelStreamWriter {
    const msg: string
    var lines: seq<string>
    var output: string
    var flushed: nat
    ghost var ops: seq<Ctl>
    ghost var screen: Screen
    ghost var statuses: seq<string>

    /** `ops` is what the logged characters say. */
    ghost predicate Logged()
      reads this
    {
      output == EncodeAll(ops)
    }

    /**
     * `screen` is what a terminal shows after interpreting `ops`, and it
     * satisfies the display invariant.
     */
    ghost predicate Valid()
      reads this
    {
      && Logged()
      && screen == Run(Blank, ops)
      && flushed <= |output|
      && Shows(screen, msg, lines, statuses)
    }

    constructor (msg: string)
      ensures Valid() && this.msg == msg
      ensures lines == [] && output == "" && flushed == 0
      ensures ops == [] && screen == Blank && statuses == []
    {
      this.msg := msg;
      lines := [];
      output := "";
      flushed := 0;
      ops := [];
      screen := Blank;
      statuses := [];
    }

    /** `stream.write(chunk)`, where `meaning` is what the chunk's characters say. */
    method Emit(chunk: string, ghost meaning: seq<Ctl>)
      requires Logged() && EncodeAll(meaning) == chunk
      modifies this`output, this`ops
      ensures Logged()
      ensures output == old(output) + chunk && ops == old(ops) + meaning
    {
      EncodeAllAppend(ops, meaning);
      output := output + chunk;
      ops := ops + meaning;
    }

    /** `stream.flush()`. */
    method Flush()
      modifies this`flushed
      ensures flushed == |output|
    {
      flushed := |output|;
    }

    /** `initialize`: register `item` on a new line below the others and print it. */
    method Initialize(item: string)
      requires Valid()
      modifies this
      ensures Valid()
      ensures lines == old(lines) + [item] && statuses == old(statuses) + [""]
      ensures output == old(output) + (LineText(msg, item, "") + "\r\n") && flushed == |output|
      ensures ops == old(ops) + InitOps(LineText(msg, item, ""))
      ensures screen == Screen(old(screen).rows + [LineText(msg, item, "")], |lines|, 0)
      ensures AllWellFormed(old(ops)) && Printable(msg) && Printable(item) ==> AllWellFormed(ops)
    {
      ghost var text := LineText(msg, item, "");
      InitKeepsWellFormed(ops, msg, item);
      InitShows(screen, msg, lines, statuses, item);
      RunAppend(Blank, ops, InitOps(text));
      lines := lines + [item];
      var line := InitLine(msg, item);
      InitEncodes(text);
      Emit(line, InitOps(text));
      Flush();
      screen := Run(screen, InitOps(text));
      statuses := statuses + [""];
    }

    /**
     * `write`: show `status` on the first line registered for `item`.
     * When `item` was never registered, Python's `list.index` raises before
     * anything is written: `found` is false and nothing changes.
     */
    method Write(item: string, status: string) returns (found: bool)
      requires Valid()
      modifies this
      ensures Valid()
      ensures found <==> item in lines
      ensures lines == old(lines)
      ensures !found ==> output == old(output) && flushed == old(flushed)
      ensures !found ==> ops == old(ops) && screen == old(screen) && statuses == old(statuses)
      ensures found ==>
        var i := FirstIndex(lines, item).value;
        && output == old(output) + WriteText(msg, item, status, |lines| - i)
        && flushed == |output|
        && ops == old(ops) + WriteOps(|lines| - i, LineText(msg, item, status))
        && statuses == old(statuses)[i := status]
        && screen == old(screen).(rows := old(screen).rows[i := LineText(msg, item, status)])
      ensures AllWellFormed(old(ops)) && Printable(msg) && Printable(item) && Printable(status) ==> AllWellFormed(ops)
    {
      var position := FirstIndex(lines, item);
      if position.None? {
        return false;
      }
      WriteKeepsWellFormed(ops, |lines| - position.value, msg, item, status);
      Rewrite(position.value, status);
      found := true;
    }

    /** The body of `write` once the item's position is known. */
    method Rewrite(position: nat, status: string)
      requires Valid() && position < |lines|
      modifies this
      ensures Valid()
      ensures lines == old(lines)
      ensures output == old(output) + WriteText(msg, lines[position], status, |lines| - position)
      ensures flushed == |output|
      ensures ops == old(ops) + WriteOps(|lines| - position, LineText(msg, lines[position], status))
      ensures statuses == old(statuses)[position := status]
      ensures screen == old(screen).(rows := old(screen).rows[position := LineText(msg, lines[position], status)])
    {
      var item := lines[position];
      var diff := |lines| - position;
      ghost var text := LineText(msg, item, status);
      var line := WriteLine(msg, item, status);
      WriteLogged(output, ops, msg, item, status, diff);
      WriteRendered(ops, screen, msg, lines, statuses, position, status);
      // the four `stream.write` calls, then `stream.flush()`
      var out := output;
      // move up
      out := out + CursorUp(diff);
      // erase
      out := out + EraseLine;
      out := out + line;
      // move back down
      out := out + CursorDown(diff);
      AppendFour(output, CursorUp(diff), EraseLine, line, CursorDown(diff));
      ghost var ops', screen', statuses' := ops + WriteOps(diff, text), screen.(rows := screen.rows[position := text]), statuses[position := status];
      assert out == output + WriteText(msg, item, status, diff) == EncodeAll(ops');
      assert screen' == Run(Blank, ops') && Shows(screen', msg, lines, statuses');
      output, flushed := out, |out|;
      ops, screen, statuses := ops', screen', statuses';
    }
  }

  /**
   * A terminal reading the logged characters shows `screen`, provided
   * every token written was well formed (by Initialize and Write this holds
   * when the message, the items and the statuses contain no ESC, CR or LF).
   */
  lemma TerminalShowsScreen(w: ParallelStreamWriter)
    requires w.Valid() && AllWellFormed(w.ops)
    ensures Run(Blank, Parse(w.output)) == w.screen
  {
    ParseEncodeAll(w.ops);
  }
}

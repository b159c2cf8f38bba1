/**
 * The exposure-series program text and its parser, `ExecuteSeries` in both
 * GUIs (the two copies are the same code). Each non-blank line becomes one
 * command: `add delay <ms>` a delay, anything else `<count> <exposure> <label>`.
 */
module Series {
  import opened Wrappers
  import opened Decimal
  import opened Tokens

  /**
   * One command of a series: the source's one-element list `[float]` or
   * three-element list `[int, float, str]`.
   */
  datatype Command =
    | Delay(duration: real)
    | Burst(count: int, exposure: real, target: string)

  type Program = seq<Command>

  /** Why a line failed: the Python exception raised while reading it. */
  datatype Reason =
    | MissingField(index: nat)   // IndexError on parts[index]
    | NotInteger(token: string)  // ValueError from int(token)
    | NotNumber(token: string)   // ValueError from float(token)

  /** The failing line (its index among the lines of the text) and the reason. */
  datatype ParseError = ParseError(row: nat, reason: Reason)

  predicate IsDelayLine(parts: seq<string>)
  {
    |parts| >= 2 && parts[0] == "add" && parts[1] == "delay"
  }

  /**
   * The command read from the tokens of one non-blank line, evaluating the
   * fields in the order the source does.
   */
  function ParseTokens(parts: seq<string>): Result<Command, Reason>
    requires |parts| > 0
  {
    if parts[0] == "add" && |parts| < 2 then Err(MissingField(1))
    else if parts[0] == "add" && parts[1] == "delay" then
      if |parts| < 3 then Err(MissingField(2))
      else match ParseReal(parts[2])
        case None => Err(NotNumber(parts[2]))
        case Some(d) => Ok(Delay(d))
    else match ParseInt(parts[0])
      case None => Err(NotInteger(parts[0]))
      case Some(n) =>
        if |parts| < 2 then Err(MissingField(1))
        else match ParseReal(parts[1])
          case None => Err(NotNumber(parts[1]))
          case Some(e) =>
            if |parts| < 3 then Err(MissingField(2))
            else Ok(Burst(n, e, parts[2]))
  }

  /**
   * What a line means: `add delay x` is a delay of float(x); any other line
   * is a burst of int, float and word from its first three tokens; a bare
   * `add` is an IndexError.
   */
  lemma LineMeaning(parts: seq<string>)
    requires |parts| > 0
    ensures var r := ParseTokens(parts);
      (IsDelayLine(parts) ==>
        (r.Ok? <==> |parts| >= 3 && ParseReal(parts[2]).Some?) &&
        (r.Ok? ==> r.value == Delay(ParseReal(parts[2]).value))) &&
      (!IsDelayLine(parts) ==>
        (r.Ok? <==> |parts| >= 3 && ParseInt(parts[0]).Some? && ParseReal(parts[1]).Some?) &&
        (r.Ok? ==> r.value == Burst(ParseInt(parts[0]).value, ParseReal(parts[1]).value, parts[2]))) &&
      (parts == ["add"] ==> r == Err(MissingField(1)))
  {
  }

  /**
   * A line starting with `add` that is not `add delay` is read as a burst and
   * fails: IndexError on `parts[1]` when `add` stands alone, otherwise the
   * ValueError of `int("add")`.
   */
  lemma AddLinesRejected(parts: seq<string>)
    requires |parts| > 0 && parts[0] == "add" && !IsDelayLine(parts)
    ensures |parts| == 1 ==> ParseTokens(parts) == Err(MissingField(1))
    ensures |parts| > 1 ==> ParseTokens(parts) == Err(NotInteger("add"))
  {
    NotNumeric("add", 0);
  }

  /** Tokens after the third never change what a line means. */
  lemma ExtraTokensIgnored(parts: seq<string>, extra: seq<string>)
    requires |parts| == 3
    ensures ParseTokens(parts + extra) == ParseTokens(parts)
  {
    var p := parts + extra;
    assert p[0] == parts[0] && p[1] == parts[1] && p[2] == parts[2];
  }

  /**
   * The series read from the lines, left to right: blank lines are skipped,
   * and the first line that fails ends the parse with its error.
   */
  function ParseRows(rows: seq<string>): Result<Program, ParseError>
  {
    if rows == [] then Ok([])
    else
      match ParseRows(rows[..|rows| - 1])
      case Err(e) => Err(e)
      case Ok(series) =>
        var parts := Split(rows[|rows| - 1]);
        if parts == [] then Ok(series)
        else match ParseTokens(parts)
          case Err(why) => Err(ParseError(|rows| - 1, why))
          case Ok(c) => Ok(series + [c])
  }

  /** The series the text of the program box compiles to. */
  function ParseProgram(text: string): Result<Program, ParseError>
  {
    ParseRows(SplitLines(text))
  }

  predicate IsBlank(row: string) { Split(row) == [] }

  /** The non-blank rows, in order. */
  function NonBlank(rows: seq<string>): (r: seq<string>)
    ensures forall k :: 0 <= k < |r| ==> !IsBlank(r[k])
  {
    if rows == [] then []
    else NonBlank(rows[..|rows| - 1]) + (if IsBlank(rows[|rows| - 1]) then [] else [rows[|rows| - 1]])
  }

  /**
   * A successful parse has one command per non-blank line, in line order,
   * each the command that line reads as on its own.
   */
  lemma {:induction false} ParseRowsOk(rows: seq<string>)
    requires ParseRows(rows).Ok?
    ensures var p := ParseRows(rows).value;
      |p| == |NonBlank(rows)| &&
      forall k :: 0 <= k < |p| ==> ParseTokens(Split(NonBlank(rows)[k])) == Ok(p[k])
  {
    if rows != [] {
      ParseRowsOk(rows[..|rows| - 1]);
    }
  }

  /** If every non-blank line reads as a command on its own, the whole text parses. */
  lemma {:induction false} ParseRowsAllLinesOk(rows: seq<string>)
    requires forall k :: 0 <= k < |NonBlank(rows)| ==> ParseTokens(Split(NonBlank(rows)[k])).Ok?
    ensures ParseRows(rows).Ok?
  {
    if rows != [] {
      var init := rows[..|rows| - 1];
      var nb := NonBlank(rows);
      assert forall k :: 0 <= k < |NonBlank(init)| ==> NonBlank(init)[k] == nb[k];
      ParseRowsAllLinesOk(init);
      if !IsBlank(rows[|rows| - 1]) {
        assert nb[|nb| - 1] == rows[|rows| - 1];
      }
    }
  }

  /**
   * A failed parse names a non-blank line that fails on its own, and every
   * line before it parses: no series is built past the first bad line.
   */
  lemma {:induction false} ParseRowsErr(rows: seq<string>)
    requires ParseRows(rows).Err?
    ensures var e := ParseRows(rows).error;
      e.row < |rows| && !IsBlank(rows[e.row]) &&
      ParseTokens(Split(rows[e.row])) == Err(e.reason) &&
      ParseRows(rows[..e.row]).Ok?
  {
    var init := rows[..|rows| - 1];
    if ParseRows(init).Err? {
      ParseRowsErr(init);
      var e := ParseRows(init).error;
      assert rows[..e.row] == init[..e.row];
    } else {
      assert rows[..|rows| - 1] == init;
    }
  }

  /** Once a prefix of the lines fails, all the lines fail the same way. */
  lemma {:induction false} ParseRowsErrSticks(rows: seq<string>, i: nat)
    requires i <= |rows|
    requires ParseRows(rows[..i]).Err?
    ensures ParseRows(rows) == ParseRows(rows[..i])
    decreases |rows|
  {
    if i < |rows| {
      var front := rows[..|rows| - 1];
      assert front[..i] == rows[..i];
      ParseRowsErrSticks(front, i);
      ParseRowsAfterErr(rows);
    } else {
      assert rows[..i] == rows;
    }
  }

  /** A row after a failed one is not parsed. */
  lemma ParseRowsAfterErr(rows: seq<string>)
    requires rows != [] && ParseRows(rows[..|rows| - 1]).Err?
    ensures ParseRows(rows) == ParseRows(rows[..|rows| - 1])
  {
  }

  /**
   * `ExecuteSeries`'s loop over `input_string.splitlines()`: appends one
   * command per non-blank row and stops at the first exception.
   */
  method CompileSeries(text: string) returns (r: Result<Program, ParseError>)
    ensures r == ParseProgram(text)
  {
    var rows := SplitLines(text);
    var series: Program := [];
    for i := 0 to |rows|
      invariant ParseRows(rows[..i]) == Ok(series)
    {
      assert rows[..i + 1][..i] == rows[..i];
      var parts := Split(rows[i]);
      if parts == [] {
        continue;
      }
      var c := ParseTokens(parts);
      if c.Err? {
        r := Err(ParseError(i, c.error));
        ParseRowsErrSticks(rows, i + 1);
        return;
      }
      series := series + [c.value];
    }
    assert rows[..|rows|] == rows;
    r := Ok(series);
  }

  // ---- Printing a series back to text ----

  predicate IsWhole(x: real) { x == x.Floor as real }

  /** A command that has a text form in the grammar: whole numbers, a one-word target name. */
  predicate Printable(c: Command)
  {
    match c
    case Delay(d) => IsWhole(d)
    case Burst(n, e, target) => IsWhole(e) && |target| > 0 && NoSpace(target)
  }

  function CommandWords(c: Command): seq<string>
  {
    match c
    case Delay(d) => ["add", "delay", IntText(d.Floor)]
    case Burst(n, e, target) => [IntText(n), IntText(e.Floor), target]
  }

  function CommandText(c: Command): string { JoinWords(CommandWords(c)) }

  /** The program text of a series: one line per command. */
  function Render(p: Program): string
  {
    JoinLines(seq(|p|, i requires 0 <= i < |p| => CommandText(p[i])))
  }

  lemma IntTextWord(n: int)
    ensures |IntText(n)| > 0 && NoSpace(IntText(n)) && IntText(n) != "add"
  {
    var s := IntText(n);
    if n < 0 {
      assert s[1..] == NatText(-n);
      assert forall i :: 1 <= i < |s| ==> s[i] == NatText(-n)[i - 1];
    }
    assert s[|s| - 1] != 'd';
  }

  lemma CommandWordsAreWords(c: Command)
    requires Printable(c)
    ensures forall i :: 0 <= i < |CommandWords(c)| ==> |CommandWords(c)[i]| > 0 && NoSpace(CommandWords(c)[i])
  {
    match c {
      case Delay(d) =>
        IntTextWord(d.Floor);
      case Burst(n, e, target) =>
        IntTextWord(n);
        IntTextWord(e.Floor);
    }
  }

  lemma CommandWordsParse(c: Command)
    requires Printable(c)
    ensures ParseTokens(CommandWords(c)) == Ok(c)
  {
    match c {
      case Delay(d) =>
        ParseRealIntText(d.Floor);
      case Burst(n, e, target) =>
        IntTextWord(n);
        ParseIntText(n);
        ParseRealIntText(e.Floor);
    }
  }

  /** A printed command is one line whose words read back as the command. */
  lemma {:induction false} CommandRoundTrip(c: Command)
    requires Printable(c)
    ensures Split(CommandText(c)) == CommandWords(c)
    ensures ParseTokens(Split(CommandText(c))) == Ok(c)
    ensures |CommandText(c)| > 0 && NoLineBreak(CommandText(c)) && !IsBlank(CommandText(c))
  {
    CommandWordsAreWords(c);
    SplitJoinWords(CommandWords(c));
    CommandWordsParse(c);
    JoinWordsNoLineBreak(CommandWords(c));
  }

  /** Parsing the printed text of a printable series gives the series back. */
  lemma {:induction false} RenderRoundTrip(p: Program)
    requires forall i :: 0 <= i < |p| ==> Printable(p[i])
    ensures ParseProgram(Render(p)) == Ok(p)
  {
    var lines := seq(|p|, i requires 0 <= i < |p| => CommandText(p[i]));
    forall i | 0 <= i < |lines|
      ensures |lines[i]| > 0 && NoLineBreak(lines[i])
    {
      CommandRoundTrip(p[i]);
    }
    SplitJoinLines(lines);
    RowsRoundTrip(p, lines);
  }

  /** A two-command series prints as its two command lines. */
  lemma RenderPair(a: Command, b: Command)
    ensures Render([a, b]) == CommandText(a) + "\n" + CommandText(b)
  {
    var lines := seq(2, i requires 0 <= i < 2 => CommandText([a, b][i]));
    assert lines == [CommandText(a), CommandText(b)];
    assert lines[1..] == [CommandText(b)];
    assert JoinLines(lines[1..]) == CommandText(b);
    assert JoinLines(lines) == lines[0] + "\n" + JoinLines(lines[1..]);
    assert Render([a, b]) == JoinLines(lines);
  }

  /** Two printable commands, printed on two lines, read back as themselves. */
  lemma ParsePair(a: Command, b: Command, x: string, y: string)
    requires Printable(a) && Printable(b) && CommandText(a) == x && CommandText(b) == y
    ensures ParseProgram(x + "\n" + y) == Ok([a, b])
  {
    RenderPair(a, b);
    assert forall i :: 0 <= i < |[a, b]| ==> Printable([a, b][i]);
    RenderRoundTrip([a, b]);
  }

  /** The line of a whole-millisecond delay. */
  lemma DelayText(ms: int)
    ensures Printable(Delay(ms as real))
    ensures CommandText(Delay(ms as real)) == "add" + " " + ("delay" + " " + IntText(ms))
  {
    assert (ms as real).Floor == ms;
    JoinThreeWords("add", "delay", IntText(ms));
  }

  /** The line of a burst with a whole exposure and a one-word target. */
  lemma BurstText(n: int, e: int, target: string)
    requires |target| > 0 && NoSpace(target)
    ensures Printable(Burst(n, e as real, target))
    ensures CommandText(Burst(n, e as real, target)) == IntText(n) + " " + (IntText(e) + " " + target)
  {
    assert (e as real).Floor == e;
    JoinThreeWords(IntText(n), IntText(e), target);
  }

  /** A text of one non-blank line is that line's command, or its error at row 0. */
  lemma OneLineProgram(text: string)
    requires SplitLines(text) == [text] && Split(text) != []
    ensures ParseTokens(Split(text)).Err? ==> ParseProgram(text) == Err(ParseError(0, ParseTokens(Split(text)).error))
    ensures ParseTokens(Split(text)).Ok? ==> ParseProgram(text) == Ok([ParseTokens(Split(text)).value])
  {
    OneRow(text);
  }

  lemma OneRow(row: string)
    requires Split(row) != []
    ensures ParseTokens(Split(row)).Err? ==> ParseRows([row]) == Err(ParseError(0, ParseTokens(Split(row)).error))
    ensures ParseTokens(Split(row)).Ok? ==> ParseRows([row]) == Ok([ParseTokens(Split(row)).value])
  {
    var rows := [row];
    assert rows[..|rows| - 1] == [] && rows[|rows| - 1] == row;
    assert ParseRows(rows[..|rows| - 1]) == Ok([]);
    var r := ParseTokens(Split(row));
    if r.Ok? {
      assert [] + [r.value] == [r.value];
    }
  }

  lemma {:induction false} RowsRoundTrip(p: Program, lines: seq<string>)
    requires |lines| == |p|
    requires forall i :: 0 <= i < |p| ==> Printable(p[i]) && lines[i] == CommandText(p[i])
    ensures ParseRows(lines) == Ok(p)
  {
    if p != [] {
      var n := |p| - 1;
      RowsRoundTrip(p[..n], lines[..n]);
      CommandRoundTrip(p[n]);
      assert p[..n] + [p[n]] == p;
    }
  }
}

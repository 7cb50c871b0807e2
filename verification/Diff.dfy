/** The unified-diff reader: a one-pass machine over the lines of a patch.
    A text is a sequence of code points; bytes that are not UTF-8 stand for
    characters no case of the reader names. */
module Diff {
  import opened Wrappers
  import opened Text
  import Decimal

  datatype Kind = Context | Add | Del | Hunk | Note

  /** One line of a file's body. A side that has no line is numbered 0. */
  datatype Row = Row(kind: Kind, oldNo: int, newNo: int, text: string, sign: string)

  datatype Status = Added | Deleted | Renamed | Modified

  datatype File = File(
    path: string, oldPath: string, status: Status, binary: bool,
    additions: nat, deletions: nat, rows: seq<Row>,
    collapsed: bool, overBudget: bool)
  {
    function Changed(): nat { additions + deletions }
  }

  const HEADER := "diff --git "
  const NEW_MODE := "new file mode"
  const DELETED_MODE := "deleted file mode"
  const RENAME_FROM := "rename from "
  const RENAME_TO := "rename to "
  const BINARY := "Binary files "
  const GIT_BINARY := "GIT binary patch"
  const OLD_NAME := "--- "
  const NEW_NAME := "+++ "
  const HUNK_MARK := "@@"

  // ---- names ----

  /** git's a/ or b/ prefix removed; None for a text that names no file. */
  function StripPrefix(raw: string): Option<string> {
    var s := TrimSpace(raw);
    if s == "/dev/null" then None
    else if HasPrefix(s, "a/") then Some(s[2..])
    else if HasPrefix(s, "b/") then Some(s[2..])
    else
      var name := Cut(s, '\t').0;
      if name == "" then None else Some(name)
  }

  /** The two names of a header line: (old, new). */
  function SplitGitHeader(s: string): (string, string) {
    var i := Index(s, " b/");
    if i < 0 then ("", TrimSpace(s))
    else (StripPrefix(s[..i]).GetOr(""), StripPrefix(s[i + 1..]).GetOr(""))
  }

  // ---- hunk headers ----

  /** A line number, or 0 for a text strconv.Atoi refuses. */
  function Number(s: string): (n: int)
    ensures 0 <= n <= Decimal.MAX_INT
  {
    var digits := Cut(s, ',').0;
    if digits != "" && Decimal.AllDigits(digits) && Decimal.Value(digits) <= Decimal.MAX_INT
    then Decimal.Value(digits)
    else 0
  }

  function TrimSigns(s: string): string {
    if s != "" && (s[0] == '+' || s[0] == '-') then TrimSigns(s[1..]) else s
  }

  /** The text after its first mark, or the whole text. */
  function AfterMark(s: string): string {
    var i := Index(s, HUNK_MARK);
    if i >= 0 then s[i + 2..] else s
  }

  /** The text before its first mark, or the whole text. */
  function BeforeMark(s: string): string {
    var i := Index(s, HUNK_MARK);
    if i >= 0 then s[..i] else s
  }

  /** What the header says between its two marks. */
  function HunkFields(line: string): seq<string> {
    Fields(BeforeMark(AfterMark(line)))
  }

  /** The number of the last field that carries the sign, 0 when none does. */
  function StartOf(fields: seq<string>, sign: char): int {
    if fields == [] then 0
    else
      var last := fields[|fields| - 1];
      if HasPrefix(last, [sign]) then Number(TrimSigns(last))
      else StartOf(fields[..|fields| - 1], sign)
  }

  function OldStart(line: string): int { StartOf(HunkFields(line), '-') }
  function NewStart(line: string): int { StartOf(HunkFields(line), '+') }

  /** The loop of hunkStarts. */
  method HunkStarts(line: string) returns (oldStart: int, newStart: int)
    ensures oldStart == OldStart(line) && newStart == NewStart(line)
  {
    var fields := HunkFields(line);
    oldStart, newStart := 0, 0;
    for i := 0 to |fields|
      invariant oldStart == StartOf(fields[..i], '-')
      invariant newStart == StartOf(fields[..i], '+')
    {
      var f := fields[i];
      var n := Number(TrimSigns(f));
      if HasPrefix(f, "-") {
        oldStart := n;
      } else if HasPrefix(f, "+") {
        newStart := n;
      }
      assert fields[..i + 1][..i] == fields[..i];
    }
    assert fields[..|fields|] == fields;
  }

  // ---- one line ----

  /** Go's int is 64 bits wide and wraps. */
  function Inc(n: int): int {
    if n == Decimal.MAX_INT then Decimal.MIN_INT else n + 1
  }

  /** What the reader holds between lines. */
  datatype Reader = Reader(files: seq<File>, cur: Option<File>, oldLine: int, newLine: int)

  const START := Reader([], None, 0, 0)

  function NewFile(names: (string, string)): File {
    File(names.1, names.0, Modified, false, 0, 0, [], false, false)
  }

  function Closed(st: Reader): seq<File> {
    if st.cur.Some? then st.files + [st.cur.value] else st.files
  }

  /** A line about the file as a whole, in the order the cases are tried;
      None when the line is not one. */
  function Meta(f: File, line: string): Option<File> {
    if HasPrefix(line, NEW_MODE) then Some(f.(status := Added))
    else if HasPrefix(line, DELETED_MODE) then Some(f.(status := Deleted))
    else if HasPrefix(line, RENAME_FROM) then
      Some(f.(oldPath := TrimPrefix(line, RENAME_FROM), status := Renamed))
    else if HasPrefix(line, RENAME_TO) then
      Some(f.(path := TrimPrefix(line, RENAME_TO), status := Renamed))
    else if HasPrefix(line, BINARY) || HasPrefix(line, GIT_BINARY) then Some(f.(binary := true))
    else if HasPrefix(line, OLD_NAME) then
      Some(f.(oldPath := StripPrefix(TrimPrefix(line, OLD_NAME)).GetOr(f.oldPath)))
    else if HasPrefix(line, NEW_NAME) then
      Some(f.(path := StripPrefix(TrimPrefix(line, NEW_NAME)).GetOr(f.path)))
    else None
  }

  /** The row a body line becomes at the two line numbers; None when it is none. */
  function BodyRow(line: string, oldLine: int, newLine: int): Option<Row> {
    if HasPrefix(line, "+") then Some(Row(Add, 0, newLine, line[1..], "+"))
    else if HasPrefix(line, "-") then Some(Row(Del, oldLine, 0, line[1..], "-"))
    else if HasPrefix(line, "\\") then Some(Row(Note, 0, 0, TrimSpace(line), ""))
    else if line == "" || HasPrefix(line, " ") then
      Some(Row(Context, oldLine, newLine, TrimPrefix(line, " "), " "))
    else None
  }

  predicate OnOldSide(k: Kind) { k == Context || k == Del }
  predicate OnNewSide(k: Kind) { k == Context || k == Add }

  function Append(f: File, r: Row): File {
    f.(rows := f.rows + [r],
       additions := f.additions + if r.kind == Add then 1 else 0,
       deletions := f.deletions + if r.kind == Del then 1 else 0)
  }

  /** A line of a file that is not about the file as a whole. */
  function Body(st: Reader, line: string): Reader
    requires st.cur.Some?
  {
    var f := st.cur.value;
    if HasPrefix(line, HUNK_MARK) then
      Reader(st.files, Some(Append(f, Row(Hunk, 0, 0, line, ""))), OldStart(line), NewStart(line))
    else if f.rows == [] then st
    else
      var row := BodyRow(line, st.oldLine, st.newLine);
      if row.None? then st
      else
        var k := row.value.kind;
        Reader(st.files, Some(Append(f, row.value)),
               if OnOldSide(k) then Inc(st.oldLine) else st.oldLine,
               if OnNewSide(k) then Inc(st.newLine) else st.newLine)
  }

  function Step(st: Reader, line: string): Reader {
    if HasPrefix(line, HEADER) then
      Reader(Closed(st), Some(NewFile(SplitGitHeader(TrimPrefix(line, HEADER)))), 0, 0)
    else if st.cur.None? then st
    else
      var meta := Meta(st.cur.value, line);
      if meta.Some? then st.(cur := meta) else Body(st, line)
  }

  function ReadLines(st: Reader, lines: seq<string>): Reader
    decreases |lines|
  {
    if lines == [] then st else ReadLines(Step(st, lines[0]), lines[1..])
  }

  /** The row a final newline leaves behind, when it left one. */
  predicate EndsBlank(f: File) {
    f.rows != [] &&
    f.rows[|f.rows| - 1].kind == Context && f.rows[|f.rows| - 1].text == ""
  }

  function TrimLast(files: seq<File>): seq<File> {
    if files != [] && EndsBlank(files[|files| - 1]) then
      var f := files[|files| - 1];
      files[|files| - 1 := f.(rows := f.rows[..|f.rows| - 1])]
    else files
  }

  /** What reading a text gives. */
  function ReadText(text: string): seq<File> {
    TrimLast(Closed(ReadLines(START, Split(text, '\n'))))
  }

  // ---- the reader as the source writes it ----

  /** The cases about the file as a whole. */
  method MetaLine(f: File, line: string) returns (handled: bool, g: File)
    ensures (if handled then Some(g) else None) == Meta(f, line)
    ensures !handled ==> g == f
  {
    g, handled := f, true;
    if HasPrefix(line, NEW_MODE) {
      g := g.(status := Added);
    } else if HasPrefix(line, DELETED_MODE) {
      g := g.(status := Deleted);
    } else if HasPrefix(line, RENAME_FROM) {
      g := g.(oldPath := TrimPrefix(line, RENAME_FROM), status := Renamed);
    } else if HasPrefix(line, RENAME_TO) {
      g := g.(path := TrimPrefix(line, RENAME_TO), status := Renamed);
    } else if HasPrefix(line, BINARY) || HasPrefix(line, GIT_BINARY) {
      g := g.(binary := true);
    } else if HasPrefix(line, OLD_NAME) {
      var p := StripPrefix(TrimPrefix(line, OLD_NAME));
      if p.Some? {
        g := g.(oldPath := p.value);
      }
    } else if HasPrefix(line, NEW_NAME) {
      var p := StripPrefix(TrimPrefix(line, NEW_NAME));
      if p.Some? {
        g := g.(path := p.value);
      }
    } else {
      handled := false;
    }
  }

  /** The cases of a hunk and its body. */
  method BodyLine(f: File, line: string, oldLine: int, newLine: int)
    returns (g: File, oldNext: int, newNext: int)
    ensures Reader([], Some(g), oldNext, newNext) == Body(Reader([], Some(f), oldLine, newLine), line)
  {
    g, oldNext, newNext := f, oldLine, newLine;
    if HasPrefix(line, HUNK_MARK) {
      oldNext, newNext := HunkStarts(line);
      g := g.(rows := g.rows + [Row(Hunk, 0, 0, line, "")]);
    } else if g.rows == [] {
      // Index, mode and similarity lines, before any hunk.
    } else if HasPrefix(line, "+") {
      g := g.(additions := g.additions + 1, rows := g.rows + [Row(Add, 0, newLine, line[1..], "+")]);
      newNext := Inc(newNext);
    } else if HasPrefix(line, "-") {
      g := g.(deletions := g.deletions + 1, rows := g.rows + [Row(Del, oldLine, 0, line[1..], "-")]);
      oldNext := Inc(oldNext);
    } else if HasPrefix(line, "\\") {
      g := g.(rows := g.rows + [Row(Note, 0, 0, TrimSpace(line), "")]);
    } else if line == "" || HasPrefix(line, " ") {
      g := g.(rows := g.rows + [Row(Context, oldLine, newLine, TrimPrefix(line, " "), " ")]);
      oldNext, newNext := Inc(oldNext), Inc(newNext);
    }
  }

  method ParseFiles(text: string) returns (files: seq<File>)
    ensures files == ReadText(text)
  {
    hide Meta, BodyRow, Append, OldStart, NewStart, SplitGitHeader;
    files := [];
    var cur: Option<File> := None;
    var oldLine, newLine := 0, 0;
    var lines := Split(text, '\n');

    for i := 0 to |lines|
      invariant ReadLines(START, lines) == ReadLines(Reader(files, cur, oldLine, newLine), lines[i..])
    {
      var line := lines[i];
      ghost var before := Reader(files, cur, oldLine, newLine);
      assert lines[i..][1..] == lines[i + 1..];
      if HasPrefix(line, HEADER) {
        if cur.Some? {
          files := files + [cur.value];
        }
        cur := Some(NewFile(SplitGitHeader(TrimPrefix(line, HEADER))));
        oldLine, newLine := 0, 0;
      } else if cur.Some? {
        var handled, f := MetaLine(cur.value, line);
        if !handled {
          f, oldLine, newLine := BodyLine(f, line, oldLine, newLine);
        }
        cur := Some(f);
      }
      assert Reader(files, cur, oldLine, newLine) == Step(before, line);
    }
    if cur.Some? {
      files := files + [cur.value];
    }
    var n := |files|;
    if n > 0 {
      var f := files[n - 1];
      var r := |f.rows|;
      if r > 0 && f.rows[r - 1].kind == Context && f.rows[r - 1].text == "" {
        files := files[n - 1 := f.(rows := f.rows[..r - 1])];
      }
    }
  }
}

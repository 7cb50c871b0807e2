/** What the diff reader keeps on every text: files are read independently of
    their neighbours, rows are numbered by their hunk, and counts are the rows'. */
module DiffLaws {
  import opened Wrappers
  import opened Text
  import opened Diff
  import Decimal

  // ---- reading is compositional ----

  lemma {:induction false} ReadLinesConcat(st: Reader, a: seq<string>, b: seq<string>)
    ensures ReadLines(st, a + b) == ReadLines(ReadLines(st, a), b)
    decreases |a|
  {
    if a == [] {
      assert a + b == b;
    } else {
      assert (a + b)[1..] == a[1..] + b;
      ReadLinesConcat(Step(st, a[0]), a[1..], b);
    }
  }

  function Behind(files: seq<File>, st: Reader): Reader {
    st.(files := files + st.files)
  }

  /** Files already closed do not influence the reading of later lines. */
  lemma {:induction false} ClosedFilesAreInert(done: seq<File>, st: Reader, lines: seq<string>)
    ensures ReadLines(Behind(done, st), lines) == Behind(done, ReadLines(st, lines))
    decreases |lines|
  {
    if lines != [] {
      StepBehind(done, st, lines[0]);
      ClosedFilesAreInert(done, Step(st, lines[0]), lines[1..]);
    }
  }

  lemma StepBehind(done: seq<File>, st: Reader, line: string)
    ensures Step(Behind(done, st), line) == Behind(done, Step(st, line))
  {
    assert Closed(Behind(done, st)) == done + Closed(st);
  }

  /** A header line restarts the reader, whatever it held. */
  lemma HeaderRestarts(st: Reader, lines: seq<string>)
    requires lines != [] && HasPrefix(lines[0], HEADER)
    ensures Closed(ReadLines(st, lines)) == Closed(st) + Closed(ReadLines(START, lines))
    ensures Closed(ReadLines(START, lines)) != []
  {
    var first := Step(START, lines[0]);
    assert Step(st, lines[0]) == Behind(Closed(st), first);
    ClosedFilesAreInert(Closed(st), first, lines[1..]);
    StaysOpen(first, lines[1..]);
  }

  lemma {:induction false} StaysOpen(st: Reader, lines: seq<string>)
    requires st.cur.Some?
    ensures ReadLines(st, lines).cur.Some?
    decreases |lines|
  {
    if lines != [] {
      StaysOpen(Step(st, lines[0]), lines[1..]);
    }
  }

  lemma {:induction false} NothingBeforeAHeader(st: Reader, lines: seq<string>)
    requires st.cur.None? ==> st.files == []
    ensures var r := ReadLines(st, lines); r.cur.None? ==> r.files == []
    decreases |lines|
  {
    if lines != [] {
      NothingBeforeAHeader(Step(st, lines[0]), lines[1..]);
    }
  }

  /** The files of a text with no final trim. */
  function Untrimmed(text: string): seq<File> {
    Closed(ReadLines(START, Split(text, '\n')))
  }

  /** The piece a final newline leaves is read and then taken back, and nothing else is. */
  lemma BlankIsTrimmed(st: Reader)
    requires st.cur.None? ==> st.files == []
    ensures TrimLast(Closed(Step(st, ""))) == Closed(st)
  {
    if st.cur.Some? && st.cur.value.rows != [] {
      var f := st.cur.value;
      var row := Row(Context, st.oldLine, st.newLine, "", " ");
      assert TrimPrefix("", " ") == "";
      assert Meta(f, "") == None;
      assert Step(st, "").cur == Some(Append(f, row));
      assert (f.rows + [row])[..|f.rows|] == f.rows;
    }
  }

  /** The trim removes exactly the artifact of the final newline. */
  lemma FinalNewlineIsTrimmed(text: string)
    ensures ReadText(text + "\n") == Untrimmed(text)
  {
    assert text + "\n" == text + ['\n'] + "";
    SplitConcat(text, "", '\n');
    ReadLinesConcat(START, Split(text, '\n'), [""]);
    NothingBeforeAHeader(START, Split(text, '\n'));
    BlankIsTrimmed(ReadLines(START, Split(text, '\n')));
    assert ReadLines(ReadLines(START, Split(text, '\n')), [""]) == Step(ReadLines(START, Split(text, '\n')), "");
  }

  /** Without the final newline the same trim takes a real row, exactly when the
      text, completed by its newline, ends in an empty context row. */
  lemma MissingNewline(text: string)
    ensures var whole := ReadText(text + "\n");
            ReadText(text) == whole <==> (whole == [] || !EndsBlank(whole[|whole| - 1]))
    ensures var whole := ReadText(text + "\n");
            whole != [] && EndsBlank(whole[|whole| - 1]) ==>
              |ReadText(text)| == |whole| &&
              ReadText(text)[|whole| - 1].rows == whole[|whole| - 1].rows[..|whole[|whole| - 1].rows| - 1]
  {
    FinalNewlineIsTrimmed(text);
    var whole := Untrimmed(text);
    if whole != [] && EndsBlank(whole[|whole| - 1]) {
      assert |TrimLast(whole)[|whole| - 1].rows| < |whole[|whole| - 1].rows|;
    }
  }

  lemma FirstPiecePrefix(s: string, p: string, sep: char)
    requires HasPrefix(s, p) && Free(p, sep)
    ensures HasPrefix(Split(s, sep)[0], p)
  {
    var rest := s[|p|..];
    assert s == p + rest;
    PieceOfConcat(p, rest, sep);
  }

  lemma {:induction false} PieceOfConcat(p: string, rest: string, sep: char)
    requires Free(p, sep)
    ensures Split(p + rest, sep) == [p + Split(rest, sep)[0]] + Split(rest, sep)[1..]
  {
    var parts := Split(rest, sep);
    if p == "" {
      assert p + rest == rest;
      assert [parts[0]] + parts[1..] == parts;
      assert p + parts[0] == parts[0];
    } else {
      PieceOfConcat(p[1..], rest, sep);
      assert (p + rest)[1..] == p[1..] + rest;
      assert p + parts[0] == [p[0]] + (p[1..] + parts[0]);
    }
  }

  lemma TrimLastOfConcat(a: seq<File>, b: seq<File>)
    requires b != []
    ensures TrimLast(a + b) == a + TrimLast(b)
  {
  }

  /** A text that ends in a newline and a text that starts with a header are read
      apart: no file depends on its neighbours. */
  lemma ReadTextConcat(a: string, b: string)
    requires a != "" && a[|a| - 1] == '\n'
    requires HasPrefix(b, HEADER)
    ensures ReadText(a + b) == ReadText(a) + ReadText(b)
  {
    var body := a[..|a| - 1];
    var st := ReadLines(START, Split(body, '\n'));
    assert a == body + "\n";
    FinalNewlineIsTrimmed(body);
    assert a + b == body + ['\n'] + b;
    SplitConcat(body, b, '\n');
    ReadLinesConcat(START, Split(body, '\n'), Split(b, '\n'));
    FirstPiecePrefix(b, HEADER, '\n');
    HeaderRestarts(st, Split(b, '\n'));
    TrimLastOfConcat(Closed(st), Closed(ReadLines(START, Split(b, '\n'))));
  }

  // ---- a text that was cut ----

  lemma {:induction false} FilesGrow(st: Reader, lines: seq<string>)
    ensures st.files <= ReadLines(st, lines).files && (st.cur.Some? ==> ReadLines(st, lines).cur.Some?)
    decreases |lines|
  {
    if lines != [] {
      assert st.files <= Step(st, lines[0]).files && (st.cur.Some? ==> Step(st, lines[0]).cur.Some?) by {
        hide Meta, BodyRow;
      }
      hide Step;
      FilesGrow(Step(st, lines[0]), lines[1..]);
    }
  }

  /** A line and its beginning close the same files, and the line opens one when its
      beginning does. */
  lemma StepBeginning(st: Reader, part: string, line: string)
    requires part <= line
    ensures Step(st, part).files <= Step(st, line).files
    ensures Step(st, part).cur.Some? ==> Step(st, line).cur.Some?
  {
    hide Meta, BodyRow;
    if HasPrefix(part, HEADER) {
      assert line[..|HEADER|] == part[..|HEADER|];
    }
  }

  lemma TrimKeepsOthers(files: seq<File>)
    ensures |TrimLast(files)| == |files|
    ensures files != [] ==> TrimLast(files)[..|files| - 1] == files[..|files| - 1]
  {
  }

  /** A text cut anywhere gives the files of the whole, but for the last it gives. */
  lemma CutText(text: string, n: nat)
    requires n <= |text| && ReadText(text[..n]) != []
    ensures var part, whole := ReadText(text[..n]), ReadText(text);
            |part| <= |whole| && part[..|part| - 1] == whole[..|part| - 1]
  {
    var j := SplitBeginning(text, n, '\n');
    CutLines(Split(text[..n], '\n'), Split(text, '\n'), j);
    hide ReadText, ReadLines, Split;
    CutFiles(text[..n], text);
  }

  lemma CutLines(cut: seq<string>, lines: seq<string>, j: nat)
    requires Begins(cut, lines, j)
    ensures var before, after := ReadLines(START, cut), ReadLines(START, lines);
            before.files <= after.files && (before.cur.Some? ==> after.cur.Some?)
  {
    hide Step;
    var st := ReadLines(START, lines[..j]);
    assert cut == lines[..j] + [cut[j]] && lines == lines[..j] + lines[j..];
    ReadLinesConcat(START, lines[..j], [cut[j]]);
    ReadLinesConcat(START, lines[..j], lines[j..]);
    StepBeginning(st, cut[j], lines[j]);
    assert lines[j..][1..] == lines[j + 1..] && [cut[j]][1..] == [];
    FilesGrow(Step(st, lines[j]), lines[j + 1..]);
  }

  lemma CutFiles(a: string, b: string)
    requires var before, after := ReadLines(START, Split(a, '\n')), ReadLines(START, Split(b, '\n'));
             before.files <= after.files && (before.cur.Some? ==> after.cur.Some?)
    requires ReadText(a) != []
    ensures |ReadText(a)| <= |ReadText(b)| && ReadText(a)[..|ReadText(a)| - 1] == ReadText(b)[..|ReadText(a)| - 1]
  {
    var before, after := ReadLines(START, Split(a, '\n')), ReadLines(START, Split(b, '\n'));
    TrimKeepsOthers(Closed(before));
    TrimKeepsOthers(Closed(after));
    NothingBeforeAHeader(START, Split(a, '\n'));
    hide ReadLines, TrimLast, Split;
  }

  // ---- numbering and counts ----

  function CountKind(rows: seq<Row>, k: Kind): nat {
    if rows == [] then 0
    else CountKind(rows[..|rows| - 1], k) + if rows[|rows| - 1].kind == k then 1 else 0
  }

  /** How many of the rows stand on the old side. */
  function OldRows(rows: seq<Row>): nat { CountKind(rows, Context) + CountKind(rows, Del) }
  function NewRows(rows: seq<Row>): nat { CountKind(rows, Context) + CountKind(rows, Add) }

  /** A 64-bit two's complement reading of n. */
  function Wrap(n: int): int {
    (n - Decimal.MIN_INT) % 0x1_0000_0000_0000_0000 + Decimal.MIN_INT
  }

  lemma IncWraps(n: int)
    ensures Inc(Wrap(n)) == Wrap(n + 1)
  {
  }

  /** A line number that fits is not changed by the width. */
  lemma WrapFits(n: int)
    requires Decimal.MIN_INT <= n <= Decimal.MAX_INT
    ensures Wrap(n) == n
  {
  }

  /** Where the numbering stands after some rows. */
  function Counters(rows: seq<Row>): (int, int) {
    if rows == [] then (0, 0)
    else
      var last := rows[|rows| - 1];
      var before := Counters(rows[..|rows| - 1]);
      if last.kind == Hunk then (OldStart(last.text), NewStart(last.text))
      else (if OnOldSide(last.kind) then Inc(before.0) else before.0,
            if OnNewSide(last.kind) then Inc(before.1) else before.1)
  }

  /** The sign git wrote, and nothing for a row git wrote none on. */
  function SignOf(k: Kind): string {
    match k
    case Context => " "
    case Add => "+"
    case Del => "-"
    case Hunk => ""
    case Note => ""
  }

  predicate RowAt(rows: seq<Row>, k: nat)
    requires k < |rows|
  {
    var r := rows[k];
    var at := Counters(rows[..k]);
    r.sign == SignOf(r.kind)
    && r.oldNo == (if OnOldSide(r.kind) then at.0 else 0)
    && r.newNo == (if OnNewSide(r.kind) then at.1 else 0)
    && (k == 0 ==> r.kind == Hunk)
  }

  /** What holds of every file the reader gives. */
  predicate Sound(f: File) {
    f.additions == CountKind(f.rows, Add)
    && f.deletions == CountKind(f.rows, Del)
    && (forall k :: 0 <= k < |f.rows| ==> RowAt(f.rows, k))
    && !f.collapsed && !f.overBudget
  }

  predicate SoundReader(st: Reader) {
    (forall f <- st.files :: Sound(f))
    && (st.cur.Some? ==> Sound(st.cur.value) && (st.oldLine, st.newLine) == Counters(st.cur.value.rows))
  }

  lemma AppendSound(f: File, r: Row)
    requires Sound(f)
    requires RowAt(f.rows + [r], |f.rows|)
    ensures Sound(Append(f, r))
  {
    hide Counters, RowAt;
    var rows := f.rows + [r];
    assert rows[..|rows| - 1] == f.rows;
    forall k | 0 <= k < |rows| ensures RowAt(rows, k) {
      if k < |f.rows| {
        RowAtPrefix(f.rows, r, k);
      }
    }
  }

  lemma RowAtPrefix(rows: seq<Row>, r: Row, k: nat)
    requires k < |rows| && RowAt(rows, k)
    ensures RowAt(rows + [r], k)
  {
    hide Counters;
    assert (rows + [r])[..k] == rows[..k];
  }

  lemma CountersLast(rows: seq<Row>, r: Row)
    ensures Counters(rows + [r]) ==
            if r.kind == Hunk then (OldStart(r.text), NewStart(r.text))
            else (if OnOldSide(r.kind) then Inc(Counters(rows).0) else Counters(rows).0,
                  if OnNewSide(r.kind) then Inc(Counters(rows).1) else Counters(rows).1)
  {
    hide OldStart, NewStart, Inc;
    assert (rows + [r])[..|rows|] == rows;
  }

  /** The row a body line becomes stands where the counters say. */
  lemma BodyRowFits(line: string, rows: seq<Row>)
    requires rows != []
    requires BodyRow(line, Counters(rows).0, Counters(rows).1).Some?
    ensures RowAt(rows + [BodyRow(line, Counters(rows).0, Counters(rows).1).value], |rows|)
    ensures BodyRow(line, Counters(rows).0, Counters(rows).1).value.kind != Hunk
  {
    hide Counters, BodyRow;
    BodyRowShape(line, Counters(rows).0, Counters(rows).1);
    var r := BodyRow(line, Counters(rows).0, Counters(rows).1).value;
    assert (rows + [r])[..|rows|] == rows;
  }

  lemma BodyRowShape(line: string, oldLine: int, newLine: int)
    requires BodyRow(line, oldLine, newLine).Some?
    ensures var r := BodyRow(line, oldLine, newLine).value;
            r.kind != Hunk && r.sign == SignOf(r.kind)
            && r.oldNo == (if OnOldSide(r.kind) then oldLine else 0)
            && r.newNo == (if OnNewSide(r.kind) then newLine else 0)
  {
    hide TrimSpace, TrimPrefix;
  }

  lemma HunkRowFits(line: string, rows: seq<Row>)
    ensures RowAt(rows + [Row(Hunk, 0, 0, line, "")], |rows|)
  {
    hide Counters;
  }

  lemma BodySound(st: Reader, line: string)
    requires SoundReader(st) && st.cur.Some?
    ensures SoundReader(Body(st, line))
  {
    hide Counters, OldStart, NewStart, Inc, RowAt, BodyRow, Sound, CountKind;
    var f := st.cur.value;
    if HasPrefix(line, HUNK_MARK) {
      var r := Row(Hunk, 0, 0, line, "");
      HunkRowFits(line, f.rows);
      AppendSound(f, r);
      CountersLast(f.rows, r);
    } else if f.rows != [] && BodyRow(line, st.oldLine, st.newLine).Some? {
      var r := BodyRow(line, st.oldLine, st.newLine).value;
      BodyRowFits(line, f.rows);
      AppendSound(f, r);
      CountersLast(f.rows, r);
    }
  }

  lemma MetaSound(f: File, line: string)
    requires Sound(f) && Meta(f, line).Some?
    ensures Sound(Meta(f, line).value) && Meta(f, line).value.rows == f.rows
  {
  }

  lemma StepSound(st: Reader, line: string)
    requires SoundReader(st)
    ensures SoundReader(Step(st, line))
  {
    if HasPrefix(line, HEADER) {
      assert forall f <- Closed(st) :: Sound(f);
    } else if st.cur.Some? {
      if Meta(st.cur.value, line).Some? {
        MetaSound(st.cur.value, line);
      } else {
        BodySound(st, line);
      }
    }
  }

  lemma {:induction false} ReadLinesSound(st: Reader, lines: seq<string>)
    requires SoundReader(st)
    ensures SoundReader(ReadLines(st, lines))
    decreases |lines|
  {
    if lines != [] {
      StepSound(st, lines[0]);
      ReadLinesSound(Step(st, lines[0]), lines[1..]);
    }
  }

  lemma TrimSound(f: File)
    requires Sound(f) && EndsBlank(f)
    ensures Sound(f.(rows := f.rows[..|f.rows| - 1]))
  {
    var rows := f.rows[..|f.rows| - 1];
    forall k | 0 <= k < |rows| ensures RowAt(rows, k) {
      assert RowAt(f.rows, k);
      assert rows[..k] == f.rows[..k];
    }
  }

  /** Every file of every text is sound. */
  lemma ReadTextSound(text: string)
    ensures forall f <- ReadText(text) :: Sound(f)
  {
    ReadLinesSound(START, Split(text, '\n'));
    var files := Untrimmed(text);
    assert forall f <- files :: Sound(f);
    if files != [] && EndsBlank(files[|files| - 1]) {
      TrimSound(files[|files| - 1]);
    }
  }

  lemma SidesStep(rows: seq<Row>, r: Row)
    ensures OldRows(rows + [r]) == OldRows(rows) + if OnOldSide(r.kind) then 1 else 0
    ensures NewRows(rows + [r]) == NewRows(rows) + if OnNewSide(r.kind) then 1 else 0
  {
    assert (rows + [r])[..|rows|] == rows;
  }

  lemma CountersAtHunk(rows: seq<Row>, r: Row)
    requires r.kind == Hunk
    ensures Counters(rows + [r]) == (Wrap(OldStart(r.text)), Wrap(NewStart(r.text)))
  {
    hide OldStart, NewStart, Counters, Wrap;
    StartsFit(r.text);
    WrapFits(OldStart(r.text));
    WrapFits(NewStart(r.text));
    CountersLast(rows, r);
  }

  lemma HunkRowIsOnNoSide(r: Row)
    requires r.kind == Hunk
    ensures OldRows([r]) == 0 && NewRows([r]) == 0
  {
    SidesStep([], r);
    assert [] + [r] == [r];
  }

  lemma StartsFit(line: string)
    ensures 0 <= OldStart(line) <= Decimal.MAX_INT && 0 <= NewStart(line) <= Decimal.MAX_INT
  {
    hide HunkFields;
    StartFits(HunkFields(line), '-');
    StartFits(HunkFields(line), '+');
  }

  lemma {:induction false} CountersInHunk(rows: seq<Row>, h: nat, k: nat)
    requires h < k <= |rows| && rows[h].kind == Hunk
    requires forall j :: h < j < k ==> rows[j].kind != Hunk
    ensures Counters(rows[..k]) ==
            (Wrap(OldStart(rows[h].text) + OldRows(rows[h..k])), Wrap(NewStart(rows[h].text) + NewRows(rows[h..k])))
    decreases k
  {
    hide *;
    var last := rows[k - 1];
    assert rows[..k] == rows[..k - 1] + [last];
    if k == h + 1 {
      CountersAtHunk(rows[..h], last);
      HunkRowIsOnNoSide(last);
      assert rows[h..k] == [last];
    } else {
      var run := rows[h..k - 1];
      assert rows[h..k] == run + [last];
      CountersInHunk(rows, h, k - 1);
      CountersLast(rows[..k - 1], last);
      SidesStep(run, last);
      IncWraps(OldStart(rows[h].text) + OldRows(run));
      IncWraps(NewStart(rows[h].text) + NewRows(run));
    }
  }

  lemma {:induction false} StartFits(fields: seq<string>, sign: char)
    ensures 0 <= StartOf(fields, sign) <= Decimal.MAX_INT
  {
    if fields != [] {
      StartFits(fields[..|fields| - 1], sign);
    }
  }

  /** In every file of every text, the rows under a hunk header are numbered
      consecutively from that header's starts, each on the sides it stands on. */
  lemma HunkNumbering(text: string, f: File, h: nat, k: nat)
    requires f in ReadText(text)
    requires h < k < |f.rows| && f.rows[h].kind == Hunk
    requires forall j :: h < j <= k ==> f.rows[j].kind != Hunk
    ensures f.rows[0].kind == Hunk
    ensures f.rows[k].oldNo ==
            if OnOldSide(f.rows[k].kind) then Wrap(OldStart(f.rows[h].text) + OldRows(f.rows[h..k])) else 0
    ensures f.rows[k].newNo ==
            if OnNewSide(f.rows[k].kind) then Wrap(NewStart(f.rows[h].text) + NewRows(f.rows[h..k])) else 0
    ensures f.rows[k].sign == SignOf(f.rows[k].kind)
  {
    hide OldStart, NewStart, Wrap, Counters, ReadText;
    FileSound(text, f);
    RowIsNumbered(f, 0);
    RowIsNumbered(f, k);
    CountersInHunk(f.rows, h, k);
  }

  lemma FileSound(text: string, f: File)
    requires f in ReadText(text)
    ensures Sound(f)
  {
    ReadTextSound(text);
  }

  lemma RowIsNumbered(f: File, k: nat)
    requires Sound(f) && k < |f.rows|
    ensures RowAt(f.rows, k)
  {
  }

  /** The counts of every file of every text are its rows'. */
  lemma CountsAreTheRows(text: string, f: File)
    requires f in ReadText(text)
    ensures f.additions == CountKind(f.rows, Add) && f.deletions == CountKind(f.rows, Del)
  {
    ReadTextSound(text);
  }
}

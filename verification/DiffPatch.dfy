/** The round trip for whole patches. */
module DiffPatch {
  import opened Wrappers
  import opened Text
  import opened DiffPrint
  import opened DiffNames
  import opened DiffRoundTrip
  import D = Diff
  import L = DiffLaws

  // ---- hunks ----

  function HeaderRow(h: Hunk): D.Row {
    D.Row(D.Hunk, 0, 0, HunkHeader(h), "")
  }

  lemma HunkHeaderReads(st: D.Reader, h: Hunk)
    requires st.cur.Some? && HunkShape(h)
    ensures D.Step(st, HunkHeader(h)) ==
            D.Reader(st.files, Some(Extend(st.cur.value, [HeaderRow(h)])), h.oldStart, h.newStart)
  {
    var line := HunkHeader(h);
    HunkHeaderStarts(h);
    assert line[0] == '@' && line[..2] == D.HUNK_MARK;
    assert HasPrefix(line, D.HUNK_MARK);
    BodyLineIsNoMeta(st.cur.value, line);
    AppendExtends(st.cur.value, HeaderRow(h));
    hide HunkHeader, D.Meta, D.OldStart, D.NewStart, D.Append, Extend, HasPrefix;
  }

  function Rows(h: Hunk): seq<D.Row> {
    [HeaderRow(h)] + LineRows(h.lines, h.oldStart, h.newStart)
  }

  lemma CleanHunkReads(st: D.Reader, h: Hunk)
    requires st.cur.Some? && HunkShape(h) && CleanHunk(h)
    ensures var next := D.ReadLines(st, [HunkHeader(h)] + PrintLines(h.lines));
            next.files == st.files && next.cur == Some(Extend(st.cur.value, Rows(h)))
  {
    hide D.Step, HunkHeader, LineRow;
    HunkHeaderReads(st, h);
    var next := D.Step(st, HunkHeader(h));
    assert ([HunkHeader(h)] + PrintLines(h.lines))[1..] == PrintLines(h.lines);
    CleanLinesRead(next, h.lines);
    ExtendTwice(st.cur.value, [HeaderRow(h)], LineRows(h.lines, h.oldStart, h.newStart));
  }

  lemma HunkLeavesRows(st: D.Reader, h: Hunk)
    requires st.cur.Some? && HunkShape(h)
    ensures var next := D.ReadLines(st, [HunkHeader(h)] + PrintLines(h.lines));
            next.files == st.files && next.cur.Some?
            && |next.cur.value.rows| == |st.cur.value.rows| + 1 + CleanCount(h.lines)
  {
    hide D.Step, HunkHeader, CleanCount, L.CountKind;
    HunkHeaderReads(st, h);
    assert ([HunkHeader(h)] + PrintLines(h.lines))[1..] == PrintLines(h.lines);
    LinesLeaveRows(D.Step(st, HunkHeader(h)), h.lines);
  }

  lemma {:induction false} CleanHunksRead(st: D.Reader, hs: seq<Hunk>)
    requires st.cur.Some?
    requires forall h <- hs :: HunkShape(h) && CleanHunk(h)
    ensures var next := D.ReadLines(st, PrintHunks(hs));
            next.files == st.files && next.cur == Some(Extend(st.cur.value, HunkRows(hs)))
    decreases |hs|
  {
    hide HunkHeader, HunkShape, CleanHunk, LineRow, D.Step;
    if hs == [] {
      assert Extend(st.cur.value, []).rows == st.cur.value.rows;
    } else {
      var first := [HunkHeader(hs[0])] + PrintLines(hs[0].lines);
      L.ReadLinesConcat(st, first, PrintHunks(hs[1..]));
      CleanHunkReads(st, hs[0]);
      CleanHunksRead(D.ReadLines(st, first), hs[1..]);
      ExtendTwice(st.cur.value, Rows(hs[0]), HunkRows(hs[1..]));
    }
  }

  function RowCount(hs: seq<Hunk>): nat {
    if hs == [] then 0 else 1 + CleanCount(hs[0].lines) + RowCount(hs[1..])
  }

  lemma {:induction false} HunksLeaveRows(st: D.Reader, hs: seq<Hunk>)
    requires st.cur.Some?
    requires forall h <- hs :: HunkShape(h)
    ensures var next := D.ReadLines(st, PrintHunks(hs));
            next.files == st.files && next.cur.Some?
            && |next.cur.value.rows| == |st.cur.value.rows| + RowCount(hs)
    decreases |hs|
  {
    hide HunkHeader, HunkShape, CleanCount, D.Step;
    if hs != [] {
      var first := [HunkHeader(hs[0])] + PrintLines(hs[0].lines);
      L.ReadLinesConcat(st, first, PrintHunks(hs[1..]));
      HunkLeavesRows(st, hs[0]);
      HunksLeaveRows(D.ReadLines(st, first), hs[1..]);
    }
  }

  lemma {:induction false} LineRowsLength(ls: seq<Line>, oldLine: int, newLine: int)
    ensures |LineRows(ls, oldLine, newLine)| == |ls|
  {
    if ls != [] {
      LineRowsLength(ls[1..], OldAfter(ls[0], oldLine), NewAfter(ls[0], newLine));
    }
  }

  /** Every row is there exactly when every line is clean. */
  lemma {:induction false} RowCountAll(hs: seq<Hunk>)
    ensures RowCount(hs) <= |HunkRows(hs)|
    ensures RowCount(hs) == |HunkRows(hs)| <==> forall h <- hs :: CleanHunk(h)
  {
    hide HunkHeader, LineRow;
    if hs != [] {
      RowCountAll(hs[1..]);
      CleanCountAll(hs[0].lines);
      LineRowsLength(hs[0].lines, hs[0].oldStart, hs[0].newStart);
      assert CleanHunk(hs[0]) <==> CleanCount(hs[0].lines) == |hs[0].lines|;
      assert forall h :: h in hs <==> h == hs[0] || h in hs[1..];
    }
  }

  // ---- before the hunks ----

  lemma {:induction false} InertLinesRead(st: D.Reader, lines: seq<string>)
    requires st.cur.Some? && st.cur.value.rows == []
    requires forall s <- lines :: InertLine(s)
    ensures D.ReadLines(st, lines) == st
    decreases |lines|
  {
    hide InertLine, D.Meta;
    if lines != [] {
      InertLineIsNoMeta(st.cur.value, lines[0]);
      InertLinesRead(st, lines[1..]);
    }
  }

  function WithStatus(f: D.File, p: Patch): D.File {
    if p.status == D.Renamed
    then f.(status := p.status, oldPath := Label("", p.oldPath), path := Label("", p.path))
    else if p.status == D.Modified then f
    else f.(status := p.status)
  }

  lemma ReadOne(st: D.Reader, line: string)
    ensures D.ReadLines(st, [line]) == D.Step(st, line)
  {
    hide D.Step;
    assert [line][1..] == [];
    assert D.ReadLines(D.Step(st, line), []) == D.Step(st, line);
  }

  lemma ReadTwo(st: D.Reader, a: string, b: string)
    ensures D.ReadLines(st, [a, b]) == D.Step(D.Step(st, a), b)
  {
    hide D.Step;
    assert [a, b] == [a] + [b];
    L.ReadLinesConcat(st, [a], [b]);
    ReadOne(st, a);
    ReadOne(D.Step(st, a), b);
  }

  /** The cases of the lines about the whole file, each on the text it is for. */
  lemma MetaCases(f: D.File, rest: string)
    ensures D.Meta(f, D.NEW_MODE + rest) == Some(f.(status := D.Added))
    ensures D.Meta(f, D.DELETED_MODE + rest) == Some(f.(status := D.Deleted))
    ensures D.Meta(f, D.BINARY + rest) == Some(f.(binary := true))
    ensures D.Meta(f, "GIT binary patch" + rest) == Some(f.(binary := true))
    ensures !HasPrefix(D.NEW_MODE + rest, D.HEADER) && !HasPrefix(D.DELETED_MODE + rest, D.HEADER)
    ensures !HasPrefix(D.BINARY + rest, D.HEADER)
  {
    hide TrimPrefix, D.StripPrefix;
    var n, d, b := D.NEW_MODE + rest, D.DELETED_MODE + rest, D.BINARY + rest;
    assert n[0] == 'n' && d[0] == 'd' && d[1] == 'e' && b[0] == 'B';
    assert ("GIT binary patch" + rest)[0] == 'G';
    assert D.HEADER[1] == 'i';
  }

  lemma RenameCases(f: D.File, name: string)
    ensures D.Meta(f, D.RENAME_FROM + name) == Some(f.(oldPath := name, status := D.Renamed))
    ensures D.Meta(f, D.RENAME_TO + name) == Some(f.(path := name, status := D.Renamed))
    ensures !HasPrefix(D.RENAME_FROM + name, D.HEADER) && !HasPrefix(D.RENAME_TO + name, D.HEADER)
  {
    hide D.StripPrefix;
    TrimPrefixConcat(D.RENAME_FROM, name);
    TrimPrefixConcat(D.RENAME_TO, name);
    hide TrimPrefix;
    var a, b := D.RENAME_FROM + name, D.RENAME_TO + name;
    assert a[0] == 'r' && b[0] == 'r' && b[7] == 't' && D.RENAME_FROM[7] == 'f';
  }

  lemma NameCases(f: D.File, rest: string)
    ensures D.Meta(f, D.OLD_NAME + rest) == Some(f.(oldPath := D.StripPrefix(rest).GetOr(f.oldPath)))
    ensures D.Meta(f, D.NEW_NAME + rest) == Some(f.(path := D.StripPrefix(rest).GetOr(f.path)))
    ensures !HasPrefix(D.OLD_NAME + rest, D.HEADER) && !HasPrefix(D.NEW_NAME + rest, D.HEADER)
  {
    hide D.StripPrefix;
    TrimPrefixConcat(D.OLD_NAME, rest);
    TrimPrefixConcat(D.NEW_NAME, rest);
    hide TrimPrefix;
    var a, b := D.OLD_NAME + rest, D.NEW_NAME + rest;
    assert a[0] == '-' && b[0] == '+';
  }

  lemma StatusRead(st: D.Reader, p: Patch)
    requires st.cur.Some?
    ensures D.ReadLines(st, StatusLines(p)) == st.(cur := Some(WithStatus(st.cur.value, p)))
  {
    hide D.Meta, HasPrefix, Label;
    var f := st.cur.value;
    match p.status
    case Added =>
      assert D.NEW_MODE + " " + p.mode == D.NEW_MODE + (" " + p.mode);
      MetaCases(f, " " + p.mode);
      ReadOne(st, D.NEW_MODE + " " + p.mode);
    case Deleted =>
      assert D.DELETED_MODE + " " + p.mode == D.DELETED_MODE + (" " + p.mode);
      MetaCases(f, " " + p.mode);
      ReadOne(st, D.DELETED_MODE + " " + p.mode);
    case Renamed =>
      var from, to := Label("", p.oldPath), Label("", p.path);
      RenameCases(f, from);
      RenameCases(f.(oldPath := from, status := D.Renamed), to);
      ReadTwo(st, D.RENAME_FROM + from, D.RENAME_TO + to);
    case Modified =>
  }

  lemma BinaryRead(st: D.Reader, p: Patch)
    requires st.cur.Some?
    requires !st.cur.value.binary
    ensures D.ReadLines(st, BinaryLines(p)) == st.(cur := Some(st.cur.value.(binary := p.binary)))
  {
    hide D.Meta, HasPrefix, OldLabel, NewLabel;
    if p.binary {
      var rest := OldLabel(p) + " and " + NewLabel(p) + " differ";
      assert BinaryLines(p)[0] == D.BINARY + rest;
      MetaCases(st.cur.value, rest);
      ReadOne(st, D.BINARY + rest);
    }
  }

  /** The name a name line leaves: none when the line says /dev/null, and otherwise what
      the reader makes of the label. */
  lemma NameReads(p: Patch)
    ensures D.StripPrefix(OldLabel(p) + NameEnd(OldLabel(p))) ==
            if p.status == D.Added then None else Some(ReadName("a/", p.oldPath))
    ensures D.StripPrefix(NewLabel(p) + NameEnd(NewLabel(p))) ==
            if p.status == D.Deleted then None else Some(ReadName("b/", p.path))
  {
    assert "/dev/null" + NameEnd("/dev/null") == "/dev/null";
    DevNull();
    NameLineRead("a/", p.oldPath);
    NameLineRead("b/", p.path);
    hide D.StripPrefix, NameEnd, ReadName, Label, Plain, EndsTight;
  }

  function WithNames(f: D.File, p: Patch): D.File {
    if p.hunks == [] then f
    else f.(oldPath := if p.status == D.Added then f.oldPath else ReadName("a/", p.oldPath),
            path := if p.status == D.Deleted then f.path else ReadName("b/", p.path))
  }

  lemma NamesRead(st: D.Reader, p: Patch)
    requires st.cur.Some?
    ensures D.ReadLines(st, NameLines(p)) == st.(cur := Some(WithNames(st.cur.value, p)))
  {
    NameReads(p);
    hide D.Meta, HasPrefix, D.StripPrefix, NameEnd, OldLabel, NewLabel, ReadName;
    if p.hunks != [] {
      var a, b := OldLabel(p) + NameEnd(OldLabel(p)), NewLabel(p) + NameEnd(NewLabel(p));
      var f := st.cur.value;
      NameCases(f, a);
      NameCases(f.(oldPath := D.StripPrefix(a).GetOr(f.oldPath)), b);
      ReadTwo(st, D.OLD_NAME + a, D.NEW_NAME + b);
    }
  }

  /** The file as the reader holds it when the hunks begin. */
  function Begun(names: (string, string), p: Patch): D.File {
    WithNames(WithStatus(D.NewFile(names), p).(binary := p.binary), p)
  }

  lemma PreambleRead(st: D.Reader, names: (string, string), p: Patch)
    requires st.cur == Some(D.NewFile(names)) && Shape(p)
    ensures D.ReadLines(st, Preamble(p)) == st.(cur := Some(Begun(names, p)))
  {
    hide D.Step, StatusLines, BinaryLines, NameLines, InertLine, HunkShape, ReadName, Label;
    var a := p.modes;
    var b := a + StatusLines(p);
    var c := b + p.index;
    var d := c + BinaryLines(p);
    L.ReadLinesConcat(st, d, NameLines(p));
    L.ReadLinesConcat(st, c, BinaryLines(p));
    L.ReadLinesConcat(st, b, p.index);
    L.ReadLinesConcat(st, a, StatusLines(p));
    InertLinesRead(st, p.modes);
    StatusRead(st, p);
    var st1 := st.(cur := Some(WithStatus(st.cur.value, p)));
    InertLinesRead(st1, p.index);
    BinaryRead(st1, p);
    NamesRead(st1.(cur := Some(st1.cur.value.(binary := p.binary))), p);
  }

  /** The two names are right exactly when they are plain, hold no " b/" where only the
      header has them, and end in no white space where the header or a name line does. */
  lemma BegunNames(p: Patch)
    requires Shape(p)
    ensures var f := Begun(D.SplitGitHeader(Sides(p)), p);
            f == D.File(f.path, f.oldPath, p.status, p.binary, 0, 0, [], false, false)
            && (f.path == p.path && f.oldPath == p.oldPath <==> CleanNames(p))
  {
    hide InertLine, HunkShape, D.SplitGitHeader, Contains, EndsTight, Plain, ReadName, Label, Sides;
    ReadNameKept("a/", p.oldPath);
    ReadNameKept("b/", p.path);
    if p.status != D.Renamed {
      UnmovedHeader(p);
    }
    var names := D.SplitGitHeader(Sides(p));
    BegunKept(p, names);
  }

  lemma BegunKept(p: Patch, names: (string, string))
    requires ReadName("a/", p.oldPath) == p.oldPath <==> Plain(p.oldPath) && EndsTight(p.oldPath)
    requires ReadName("b/", p.path) == p.path <==> Plain(p.path) && EndsTight(p.path)
    requires Label("", p.oldPath) == p.oldPath <==> Plain(p.oldPath)
    requires Label("", p.path) == p.path <==> Plain(p.path)
    requires p.status != D.Renamed ==>
      var kept := Plain(p.path) && !Contains(p.path, " b/") && EndsTight(p.path);
      p.oldPath == p.path && (names.1 == p.path <==> kept) && (Plain(p.path) ==> (names.0 == p.path <==> kept))
    ensures var f := Begun(names, p);
            f == D.File(f.path, f.oldPath, p.status, p.binary, 0, 0, [], false, false)
            && (f.path == p.path && f.oldPath == p.oldPath <==> CleanNames(p))
  {
    hide Contains, EndsTight, Plain, ReadName, Label;
  }

  /** What the header gives of a file that did not move. */
  lemma UnmovedHeader(p: Patch)
    requires p.oldPath == p.path
    ensures var names := D.SplitGitHeader(Sides(p));
            var kept := Plain(p.path) && !Contains(p.path, " b/") && EndsTight(p.path);
            (names.1 == p.path <==> kept) && (Plain(p.path) ==> (names.0 == p.path <==> kept))
  {
    hide D.SplitGitHeader, Contains, EndsTight;
    if Plain(p.path) {
      PlainHeader(p);
      HeaderNamesOnePath(p.path);
    } else {
      HeaderQuoted(p.path);
    }
    hide Plain, Label, PlainSides;
  }

  lemma PlainHeader(p: Patch)
    requires Plain(p.oldPath) && Plain(p.path)
    ensures Sides(p) == PlainSides(p.oldPath, p.path)
  {
  }

  // ---- one patch ----

  lemma HeaderReads(p: Patch)
    ensures D.Step(D.START, HeaderLine(p)) ==
            D.Reader([], Some(D.NewFile(D.SplitGitHeader(Sides(p)))), 0, 0)
  {
    hide D.SplitGitHeader;
    assert HeaderLine(p) == D.HEADER + Sides(p);
    TrimPrefixConcat(D.HEADER, Sides(p));
  }

  /** The reader after the lines that come before the hunks. */
  lemma BeforeHunks(p: Patch)
    requires Shape(p)
    ensures var names := D.SplitGitHeader(Sides(p));
            D.ReadLines(D.START, PrintPatch(p)) ==
            D.ReadLines(D.Reader([], Some(Begun(names, p)), 0, 0), PrintHunks(p.hunks))
  {
    hide D.Step, Preamble, PrintHunks, HeaderLine, Shape, D.SplitGitHeader;
    var names := D.SplitGitHeader(Sides(p));
    var head := [HeaderLine(p)];
    L.ReadLinesConcat(D.START, head + Preamble(p), PrintHunks(p.hunks));
    L.ReadLinesConcat(D.START, head, Preamble(p));
    ReadOne(D.START, HeaderLine(p));
    HeaderReads(p);
    PreambleRead(D.Reader([], Some(D.NewFile(names)), 0, 0), names, p);
  }

  /** One patch reads back as itself exactly when it is clean. */
  lemma PatchLinesRead(p: Patch)
    requires Shape(p)
    ensures var files := D.Closed(D.ReadLines(D.START, PrintPatch(p)));
            |files| == 1 && (files[0] == Expected(p) <==> Clean(p))
  {
    hide D.ReadLines, PrintPatch, PrintHunks, HunkRows, HunkShape, CleanHunk, InertLine,
         CleanNames, Begun, D.SplitGitHeader, L.CountKind, Contains, RowCount;
    var f := Begun(D.SplitGitHeader(Sides(p)), p);
    BeforeHunks(p);
    BegunNames(p);
    var st := D.Reader([], Some(f), 0, 0);
    HunksLeaveRows(st, p.hunks);
    RowCountAll(p.hunks);
    if forall h <- p.hunks :: CleanHunk(h) {
      CleanHunksRead(st, p.hunks);
    }
  }

  // ---- texts ----

  lemma RangeFree(sign: string, start: nat, count: nat)
    requires sign == "+" || sign == "-"
    ensures Free(Range(sign, start, count), '\n')
  {
    RangeShape(sign, start, count);
    hide Range;
    assert IsSpace('\n');
  }

  lemma HunkHeaderFree(h: Hunk)
    requires HunkShape(h)
    ensures Free(HunkHeader(h), '\n')
  {
    var a, b := Range("-", h.oldStart, h.oldCount), Range("+", h.newStart, h.newCount);
    RangeFree("-", h.oldStart, h.oldCount);
    RangeFree("+", h.newStart, h.newCount);
    hide Range;
    assert Free(Middle(a, b), '\n');
    hide Middle;
  }

  lemma {:induction false} LinesFree(ls: seq<Line>)
    requires forall l <- ls :: LineShape(l)
    ensures AllFree(PrintLines(ls), '\n')
  {
    if ls != [] {
      LinesFree(ls[1..]);
      assert LineShape(ls[0]);
    }
  }

  lemma {:induction false} HunksFree(hs: seq<Hunk>)
    requires forall h <- hs :: HunkShape(h)
    ensures AllFree(PrintHunks(hs), '\n')
  {
    hide HunkHeader;
    if hs != [] {
      HunksFree(hs[1..]);
      HunkHeaderFree(hs[0]);
      LinesFree(hs[0].lines);
    }
  }

  lemma LabelFree(mark: string, name: string)
    requires Free(mark, '\n')
    ensures Free(Label(mark, name), '\n')
  {
    QuoteShape(name);
    assert Plain(name) ==> Free(name, '\n');
    hide Quote, Plain;
  }

  lemma PreambleFree(p: Patch)
    requires Shape(p)
    ensures AllFree(Preamble(p), '\n') && Free(HeaderLine(p), '\n')
  {
    LabelFree("a/", p.oldPath);
    LabelFree("b/", p.path);
    LabelFree("", p.oldPath);
    LabelFree("", p.path);
    StatusFree(p);
    LinesOfNamesFree(p);
    hide HunkShape, HasPrefix, Label, StatusLines, NameLines, BinaryLines;
  }

  lemma LinesOfNamesFree(p: Patch)
    requires Free(Label("a/", p.oldPath), '\n') && Free(Label("b/", p.path), '\n')
    ensures AllFree(NameLines(p), '\n') && AllFree(BinaryLines(p), '\n')
  {
    hide Label;
    assert Free(OldLabel(p), '\n') && Free(NewLabel(p), '\n');
    hide OldLabel, NewLabel;
    LinesOfLabelsFree(OldLabel(p), NewLabel(p));
  }

  lemma LinesOfLabelsFree(a: string, b: string)
    requires Free(a, '\n') && Free(b, '\n')
    ensures Free(D.OLD_NAME + (a + NameEnd(a)), '\n') && Free(D.NEW_NAME + (b + NameEnd(b)), '\n')
    ensures Free(D.BINARY + (a + " and " + b + " differ"), '\n')
  {
    assert Free(D.OLD_NAME, '\n') && Free(D.NEW_NAME, '\n') && Free(D.BINARY, '\n');
  }

  lemma StatusFree(p: Patch)
    requires Free(p.mode, '\n') && Free(Label("", p.oldPath), '\n') && Free(Label("", p.path), '\n')
    ensures AllFree(StatusLines(p), '\n')
  {
    hide Label;
  }

  lemma PatchFree(p: Patch)
    requires Shape(p)
    ensures AllFree(PrintPatch(p), '\n')
  {
    PreambleFree(p);
    HunksFree(p.hunks);
    hide Preamble, PrintHunks, HeaderLine;
  }

  /** The text of newline-terminated lines reads as its lines do. */
  lemma UnlinesRead(lines: seq<string>)
    requires AllFree(lines, '\n')
    ensures D.ReadText(Unlines(lines)) == D.Closed(D.ReadLines(D.START, lines))
  {
    hide D.Step, D.Closed, D.TrimLast;
    SplitUnlines(lines, "");
    assert Unlines(lines) + "" == Unlines(lines);
    L.ReadLinesConcat(D.START, lines, [""]);
    L.NothingBeforeAHeader(D.START, lines);
    var st := D.ReadLines(D.START, lines);
    ReadOne(st, "");
    L.BlankIsTrimmed(st);
  }

  function PatchText(p: Patch): string {
    Unlines(PrintPatch(p))
  }

  /** The text of one patch reads as one file, and as that patch exactly when it is clean. */
  lemma PatchReadsBack(p: Patch)
    requires Shape(p)
    ensures |D.ReadText(PatchText(p))| == 1
    ensures D.ReadText(PatchText(p)) == [Expected(p)] <==> Clean(p)
  {
    hide PrintPatch, Expected, Clean, Shape, D.ReadText, D.ReadLines, D.Closed;
    PatchFree(p);
    UnlinesRead(PrintPatch(p));
    PatchLinesRead(p);
  }

  lemma PatchTextEnds(p: Patch)
    ensures PatchText(p) != "" && PatchText(p)[|PatchText(p)| - 1] == '\n'
    ensures HasPrefix(PatchText(p), D.HEADER)
  {
    hide Preamble, PrintHunks;
    LastNewline(PrintPatch(p));
    assert PatchText(p) == HeaderLine(p) + "\n" + Unlines(PrintPatch(p)[1..]);
  }

  lemma {:induction false} LastNewline(lines: seq<string>)
    requires lines != []
    ensures Unlines(lines) != "" && Unlines(lines)[|Unlines(lines)| - 1] == '\n'
  {
    if |lines| > 1 {
      LastNewline(lines[1..]);
    }
  }

  function Texts(ps: seq<Patch>): string {
    if ps == [] then "" else PatchText(ps[0]) + Texts(ps[1..])
  }

  /** Reading undoes printing: a printed sequence of patches gives one file a patch,
      and gives back every file exactly when every patch is clean. */
  lemma {:induction false} PatchesReadBack(ps: seq<Patch>)
    requires forall p <- ps :: Shape(p)
    ensures |D.ReadText(Texts(ps))| == |ps|
    ensures D.ReadText(Texts(ps)) == ExpectedAll(ps) <==> forall p <- ps :: Clean(p)
  {
    if ps == [] {
      NothingReads();
      hide D.ReadText;
    } else {
      hide PatchText, Expected, Clean, Shape, D.ReadText;
      var rest := ps[1..];
      PatchReadsBack(ps[0]);
      PatchesReadBack(rest);
      TextsRead(ps);
      ExpectedLength(rest);
      assert forall p :: p in ps <==> p == ps[0] || p in rest;
      var a, b := D.ReadText(PatchText(ps[0])), D.ReadText(Texts(rest));
      assert a + b == [Expected(ps[0])] + ExpectedAll(rest) <==> a == [Expected(ps[0])] && b == ExpectedAll(rest) by {
        assert (a + b)[..1] == a && (a + b)[1..] == b;
        assert ([Expected(ps[0])] + ExpectedAll(rest))[1..] == ExpectedAll(rest);
      }
    }
  }

  lemma NothingReads()
    ensures D.ReadText("") == []
  {
    UnlinesRead([]);
  }

  lemma {:induction false} ExpectedLength(ps: seq<Patch>)
    ensures |ExpectedAll(ps)| == |ps|
  {
    hide Expected;
    if ps != [] {
      ExpectedLength(ps[1..]);
    }
  }

  lemma TextsRead(ps: seq<Patch>)
    requires ps != []
    ensures D.ReadText(Texts(ps)) == D.ReadText(PatchText(ps[0])) + D.ReadText(Texts(ps[1..]))
  {
    hide D.ReadText, PatchText;
    var rest := ps[1..];
    PatchTextEnds(ps[0]);
    if rest == [] {
      NothingReads();
      assert PatchText(ps[0]) + "" == PatchText(ps[0]);
    } else {
      PatchTextEnds(rest[0]);
      PrefixOfConcat(PatchText(rest[0]), Texts(rest[1..]), D.HEADER);
      hide HasPrefix;
      L.ReadTextConcat(PatchText(ps[0]), Texts(rest));
    }
  }

  lemma PrefixOfConcat(a: string, b: string, p: string)
    requires HasPrefix(a, p)
    ensures HasPrefix(a + b, p)
  {
    assert (a + b)[..|p|] == a[..|p|];
  }

  // ---- why each condition is there ----

  /** A patch with one deleted line of the given text. */
  function Deleting(text: string): Patch {
    Patch("f", "f", D.Modified, false, "", [], [], [Hunk(1, 1, 0, 0, "", [Minus(text)])])
  }

  /** Among the patches that delete one line, exactly those whose line starts
      with "-- " are misread. */
  lemma DeletedNameLikeLine(text: string)
    requires Free(text, '\n')
    ensures D.ReadText(PatchText(Deleting(text))) == [Expected(Deleting(text))] <==> !HasPrefix(text, "-- ")
  {
    var p := Deleting(text);
    assert p.hunks[0].lines == [Minus(text)];
    assert Shape(p);
    assert Clean(p) <==> CleanHunk(p.hunks[0]);
    assert CleanHunk(p.hunks[0]) <==> CleanLine(p.hunks[0].lines[0]);
    PatchReadsBack(p);
  }

  /** Every clean patch whose last row is an empty context row loses that row
      when the text lacks its final newline. */
  lemma FinalNewlineMatters(p: Patch)
    requires Shape(p) && Clean(p)
    ensures var text := PatchText(p);
            D.ReadText(text[..|text| - 1]) == [Expected(p)] <==> !D.EndsBlank(Expected(p))
  {
    hide PatchText, Expected, Clean, Shape, D.ReadText, D.EndsBlank;
    var text := PatchText(p);
    PatchReadsBack(p);
    PatchTextEnds(p);
    var body := text[..|text| - 1];
    assert body + "\n" == text;
    L.MissingNewline(body);
  }

  /** A file that did not move is read with its own path for the old one, so the old
      path is unset only on a file with no name at all. */
  lemma UnmovedOldPath(p: Patch)
    requires Shape(p) && Clean(p) && p.status != D.Renamed
    ensures |D.ReadText(PatchText(p))| == 1
    ensures var f := D.ReadText(PatchText(p))[0];
            f.status != D.Renamed && f.oldPath == f.path == p.path && (f.oldPath == "" <==> p.path == "")
  {
    PatchReadsBack(p);
    hide D.ReadText, PatchText, Clean, L.CountKind, HunkRows;
  }
}

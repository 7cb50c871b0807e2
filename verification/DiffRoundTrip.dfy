/** Reading undoes printing: for patches in git's form the reader gives back
    every path, status, row and number, exactly when the patch is clean. */
module DiffRoundTrip {
  import opened Wrappers
  import opened Text
  import opened Decimal
  import opened DiffPrint
  import D = Diff
  import L = DiffLaws

  // ---- hunk headers ----

  lemma NumeralPlain(n: nat)
    ensures Numeral(n) != "" && (forall c <- Numeral(n) :: IsDigit(c)) && ',' !in Numeral(n)
  {
    NumeralValue(n);
  }

  lemma CountedPlain(count: nat)
    ensures forall c <- Counted(count) :: IsDigit(c) || c == ','
    ensures Counted(count) == "" || Counted(count)[0] == ','
  {
    NumeralPlain(count);
    hide Numeral;
  }

  lemma RangeShape(sign: string, start: nat, count: nat)
    requires sign == "+" || sign == "-"
    ensures var r := Range(sign, start, count);
            IsWord(r) && '@' !in r && r != "" && r[0] == sign[0]
  {
    NumeralPlain(start);
    CountedPlain(count);
    hide Numeral, Counted;
  }

  lemma NumberOfNumeral(start: nat, rest: string)
    requires start <= MAX_INT
    requires rest == "" || rest[0] == ','
    ensures D.Number(Numeral(start) + rest) == start
  {
    NumeralValue(start);
    NumeralPlain(start);
    hide Numeral, Value;
    var s := Numeral(start) + rest;
    if rest == "" {
      assert s == Numeral(start);
    } else {
      CutConcat(Numeral(start), ',', rest[1..]);
      assert s == Numeral(start) + [','] + rest[1..];
    }
  }

  lemma TrimOneSign(sign: string, w: string)
    requires sign == "+" || sign == "-"
    requires w != "" && IsDigit(w[0])
    ensures D.TrimSigns(sign + w) == w
  {
    assert (sign + w)[1..] == w;
    assert D.TrimSigns(w) == w;
  }

  lemma RangeNumber(sign: string, start: nat, count: nat)
    requires sign == "+" || sign == "-"
    requires start <= MAX_INT
    ensures D.Number(D.TrimSigns(Range(sign, start, count))) == start
  {
    hide Numeral, Counted, D.Number, D.TrimSigns;
    NumeralPlain(start);
    CountedPlain(count);
    NumberOfNumeral(start, Counted(count));
    var w := Numeral(start) + Counted(count);
    assert w[0] == Numeral(start)[0];
    TrimOneSign(sign, w);
  }

  /** The first occurrence of a mark after a text that holds none of its first character. */
  lemma IndexAfter(plain: string, mark: string, rest: string)
    requires mark != "" && mark[0] !in plain
    ensures Index(plain + (mark + rest), mark) == |plain|
  {
    hide Index;
    var s := plain + (mark + rest);
    assert s[|plain|..] == mark + rest;
    forall j | 0 <= j < |plain| ensures !(mark <= s[j..]) {
      assert s[j..][0] == plain[j];
    }
    IndexAt(s, mark, |plain|);
  }

  lemma MiddleFields(a: string, b: string)
    requires IsWord(a) && IsWord(b)
    ensures Fields(Middle(a, b)) == [a, b]
  {
    hide IsWord;
    var tail := " " + (b + " ");
    assert Middle(a, b)[1..] == a + tail;
    FieldsWord(a, tail);
    assert tail[1..] == b + " ";
    FieldsWord(b, " ");
    assert " "[1..] == "";
  }

  lemma MarkFirst(body: string)
    ensures D.AfterMark("@@" + body) == body
  {
    hide Index;
    var line := "@@" + body;
    assert "" + line == line;
    IndexAfter("", "@@", body);
  }

  lemma MarkAfter(mid: string, rest: string)
    requires '@' !in mid
    ensures D.BeforeMark(mid + ("@@" + rest)) == mid
  {
    hide Index;
    IndexAfter(mid, "@@", rest);
  }

  lemma HeaderFields(a: string, b: string, section: string)
    requires IsWord(a) && IsWord(b) && '@' !in a && '@' !in b
    ensures D.HunkFields("@@" + (Middle(a, b) + ("@@" + section))) == [a, b]
  {
    var mid := Middle(a, b);
    assert '@' !in mid;
    MiddleFields(a, b);
    hide Middle, IsWord, Fields, D.AfterMark, D.BeforeMark;
    MarkFirst(mid + ("@@" + section));
    MarkAfter(mid, section);
  }

  lemma StartsOfTwo(a: string, b: string)
    requires a != "" && b != "" && a[0] == '-' && b[0] == '+'
    ensures D.StartOf([a, b], '-') == D.Number(D.TrimSigns(a))
    ensures D.StartOf([a, b], '+') == D.Number(D.TrimSigns(b))
  {
    hide D.Number, D.TrimSigns;
    assert [a, b][..1] == [a];
  }

  lemma HunkHeaderStarts(h: Hunk)
    requires h.oldStart <= MAX_INT && h.newStart <= MAX_INT
    ensures D.OldStart(HunkHeader(h)) == h.oldStart
    ensures D.NewStart(HunkHeader(h)) == h.newStart
  {
    hide D.Number, D.TrimSigns, D.HunkFields, D.StartOf, Range, Middle, IsWord;

    var a, b := Range("-", h.oldStart, h.oldCount), Range("+", h.newStart, h.newCount);
    RangeShape("-", h.oldStart, h.oldCount);
    RangeShape("+", h.newStart, h.newCount);
    HeaderFields(a, b, h.section);
    StartsOfTwo(a, b);
    RangeNumber("-", h.oldStart, h.oldCount);
    RangeNumber("+", h.newStart, h.newCount);
  }

  // ---- which lines are about the file as a whole ----

  /** A body line is about the whole file only when it looks like a name line. */
  lemma BodyLineIsNoMeta(f: D.File, line: string)
    requires line == "" || line[0] in "+- \\@"
    requires !HasPrefix(line, D.OLD_NAME) && !HasPrefix(line, D.NEW_NAME)
    ensures !HasPrefix(line, D.HEADER) && D.Meta(f, line) == None
  {
    hide TrimPrefix, D.StripPrefix;
  }

  lemma InertLineIsNoMeta(f: D.File, line: string)
    requires InertLine(line)
    ensures !HasPrefix(line, D.HEADER) && D.Meta(f, line) == None && !HasPrefix(line, D.HUNK_MARK)
  {
    hide TrimPrefix, D.StripPrefix;
    assert line[0] == 'i' || line[0] == 's' || line[0] == 'o' || line[0] == 'n' || line[0] == 'd';
    if line[0] == 'd' {
      assert line[2] == 's' && D.DELETED_MODE[2] == 'l' && D.HEADER[2] == 'f';
    } else if line[0] == 'n' {
      assert line[4] == 'm' && D.NEW_MODE[4] == 'f';
    }
  }

  // ---- body lines ----

  function Extend(f: D.File, rows: seq<D.Row>): D.File {
    f.(rows := f.rows + rows,
       additions := f.additions + L.CountKind(rows, D.Add),
       deletions := f.deletions + L.CountKind(rows, D.Del))
  }

  lemma {:induction false} CountConcat(a: seq<D.Row>, b: seq<D.Row>, k: D.Kind)
    ensures L.CountKind(a + b, k) == L.CountKind(a, k) + L.CountKind(b, k)
    decreases |b|
  {
    if b == [] {
      assert a + b == a;
    } else {
      CountConcat(a, b[..|b| - 1], k);
      assert (a + b)[..|a + b| - 1] == a + b[..|b| - 1];
    }
  }

  lemma ExtendTwice(f: D.File, a: seq<D.Row>, b: seq<D.Row>)
    ensures Extend(Extend(f, a), b) == Extend(f, a + b)
  {
    CountConcat(a, b, D.Add);
    CountConcat(a, b, D.Del);
    Regroup(f.rows, a, b);
    hide L.CountKind;
  }

  lemma AppendExtends(f: D.File, r: D.Row)
    ensures D.Append(f, r) == Extend(f, [r])
  {
    CountOne(r, D.Add);
    CountOne(r, D.Del);
    hide L.CountKind;
  }

  lemma CountOne(r: D.Row, k: D.Kind)
    ensures L.CountKind([r], k) == if r.kind == k then 1 else 0
  {
    var rows := [r];
    assert rows[..|rows| - 1] == [];
    assert L.CountKind([], k) == 0;
  }

  /** A clean line is read as the row it was printed from. */
  lemma CleanLineReads(st: D.Reader, l: Line)
    requires st.cur.Some? && st.cur.value.rows != []
    requires LineShape(l) && CleanLine(l)
    ensures D.Step(st, PrintLine(l)) ==
            D.Reader(st.files, Some(Extend(st.cur.value, [LineRow(l, st.oldLine, st.newLine)])),
                     OldAfter(l, st.oldLine), NewAfter(l, st.newLine))
  {
    var line := PrintLine(l);
    CleanLineIsNoName(l);
    BodyLineIsNoMeta(st.cur.value, line);
    CleanLineRow(l, st.oldLine, st.newLine);
    AppendExtends(st.cur.value, LineRow(l, st.oldLine, st.newLine));
    assert !HasPrefix(line, D.HUNK_MARK) by { assert line == "" || line[0] != '@'; }
    hide D.Meta, D.BodyRow, D.Append, Extend, D.Inc, PrintLine, HasPrefix;
  }

  lemma CleanLineIsNoName(l: Line)
    requires LineShape(l) && CleanLine(l)
    ensures var line := PrintLine(l);
            line != "" && line[0] in "+- \\" && !HasPrefix(line, D.OLD_NAME) && !HasPrefix(line, D.NEW_NAME)
  {
    NameLikeLine(l);
    match l
    case Keep(t) => assert PrintLine(l)[0] == ' ';
    case Plus(t) => assert PrintLine(l)[0] == '+';
    case Minus(t) => assert PrintLine(l)[0] == '-';
    case Remark(t) => assert PrintLine(l)[0] == '\\';
  }

  lemma PrefixAfterSign(sign: string, t: string, p: string)
    ensures HasPrefix(sign + t, sign + p) <==> HasPrefix(t, p)
  {
    var n := |sign|;
    if HasPrefix(t, p) {
      assert (sign + t)[..n + |p|] == sign + p;
    }
    if HasPrefix(sign + t, sign + p) {
      assert t == (sign + t)[n..];
      assert p == (sign + p)[n..];
    }
  }

  /** The printed lines that look like name lines are the unclean ones. */
  lemma NameLikeLine(l: Line)
    requires LineShape(l)
    ensures CleanLine(l) <==> !HasPrefix(PrintLine(l), D.OLD_NAME) && !HasPrefix(PrintLine(l), D.NEW_NAME)
  {
    assert D.OLD_NAME == "-" + "-- " && D.NEW_NAME == "+" + "++ ";
    match l
    case Keep(t) => assert PrintLine(l)[0] == ' ';
    case Plus(t) => PrefixAfterSign("+", t, "++ "); assert PrintLine(l)[0] == '+';
    case Minus(t) => PrefixAfterSign("-", t, "-- "); assert PrintLine(l)[0] == '-';
    case Remark(t) => assert PrintLine(l)[0] == '\\';
  }

  lemma CleanLineRow(l: Line, oldLine: int, newLine: int)
    requires LineShape(l)
    ensures D.BodyRow(PrintLine(l), oldLine, newLine) == Some(LineRow(l, oldLine, newLine))
  {
    var line := PrintLine(l);
    match l
    case Keep(t) => assert line[0] == ' ' && line[1..] == t;
    case Plus(t) => assert line[0] == '+' && line[1..] == t;
    case Minus(t) => assert line[0] == '-' && line[1..] == t;
    case Remark(t) =>
      assert line[0] == '\\';
      RemarkTight(t);
  }

  lemma RemarkTight(t: string)
    requires HasPrefix(t, "\\") && EndsTight(t)
    ensures TrimSpace(t) == t
  {
    assert t[0] == '\\' && !IsSpace('\\');
    TrimSpaceTight(t);
  }

  /** A line that is not clean is read as a name and leaves no row. */
  lemma UncleanLineLeavesNoRow(st: D.Reader, l: Line)
    requires st.cur.Some?
    requires LineShape(l) && !CleanLine(l)
    ensures var next := D.Step(st, PrintLine(l));
            next.cur.Some? && next.files == st.files && next.cur.value.rows == st.cur.value.rows
            && next.oldLine == st.oldLine && next.newLine == st.newLine
  {
    NameLikeLine(l);
    NameLineIsMeta(st.cur.value, PrintLine(l));
    hide D.Meta, D.SplitGitHeader, PrintLine, CleanLine;
  }

  lemma NameLineIsMeta(f: D.File, line: string)
    requires HasPrefix(line, D.OLD_NAME) || HasPrefix(line, D.NEW_NAME)
    ensures !HasPrefix(line, D.HEADER)
    ensures D.Meta(f, line).Some? && D.Meta(f, line).value.rows == f.rows
  {
    hide TrimPrefix, D.StripPrefix;
    assert line[0] == '-' || line[0] == '+';
  }

  /** Line by line, reading undoes printing exactly on the clean lines. */
  lemma LineReadsBack(st: D.Reader, l: Line)
    requires st.cur.Some? && st.cur.value.rows != []
    requires LineShape(l)
    ensures (D.Step(st, PrintLine(l)).cur == Some(Extend(st.cur.value, [LineRow(l, st.oldLine, st.newLine)])))
            <==> CleanLine(l)
  {
    hide D.Step, PrintLine, LineRow, L.CountKind;
    if CleanLine(l) {
      CleanLineReads(st, l);
    } else {
      UncleanLineLeavesNoRow(st, l);
    }
  }

  function CleanCount(ls: seq<Line>): nat {
    if ls == [] then 0 else (if CleanLine(ls[0]) then 1 else 0) + CleanCount(ls[1..])
  }

  lemma {:induction false} CleanCountAll(ls: seq<Line>)
    ensures CleanCount(ls) <= |ls|
    ensures CleanCount(ls) == |ls| <==> forall l <- ls :: CleanLine(l)
  {
    if ls != [] {
      CleanCountAll(ls[1..]);
      assert forall l :: l in ls <==> l == ls[0] || l in ls[1..];
    }
  }

  lemma {:induction false} CleanLinesRead(st: D.Reader, ls: seq<Line>)
    requires st.cur.Some? && st.cur.value.rows != []
    requires forall l <- ls :: LineShape(l) && CleanLine(l)
    ensures var next := D.ReadLines(st, PrintLines(ls));
            next.files == st.files
            && next.cur == Some(Extend(st.cur.value, LineRows(ls, st.oldLine, st.newLine)))
    decreases |ls|
  {
    hide D.Step, PrintLine, LineRow, OldAfter, NewAfter, LineShape, CleanLine;
    if ls == [] {
      assert Extend(st.cur.value, []).rows == st.cur.value.rows;
    } else {
      var l := ls[0];
      var row := LineRow(l, st.oldLine, st.newLine);
      CleanLineReads(st, l);
      var next := D.Step(st, PrintLine(l));
      CleanLinesRead(next, ls[1..]);
      ExtendTwice(st.cur.value, [row], LineRows(ls[1..], next.oldLine, next.newLine));
      assert PrintLines(ls)[1..] == PrintLines(ls[1..]);
    }
  }

  /** Whatever the lines, each clean one leaves one row and no other does. */
  lemma {:induction false} LinesLeaveRows(st: D.Reader, ls: seq<Line>)
    requires st.cur.Some? && st.cur.value.rows != []
    requires forall l <- ls :: LineShape(l)
    ensures var next := D.ReadLines(st, PrintLines(ls));
            next.files == st.files && next.cur.Some?
            && |next.cur.value.rows| == |st.cur.value.rows| + CleanCount(ls)
    decreases |ls|
  {
    hide D.Step, PrintLine, LineRow, LineShape, CleanLine;
    if ls != [] {
      var l := ls[0];
      if CleanLine(l) {
        CleanLineReads(st, l);
      } else {
        UncleanLineLeavesNoRow(st, l);
      }
      LinesLeaveRows(D.Step(st, PrintLine(l)), ls[1..]);
      assert PrintLines(ls)[1..] == PrintLines(ls[1..]);
    }
  }
}

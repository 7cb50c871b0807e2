/** Patches as git writes them, and when reading one gives it back. */
module DiffPrint {
  import opened Wrappers
  import opened Text
  import Decimal
  import D = Diff
  import L = DiffLaws

  /** One line of a hunk, without git's sign. */
  datatype Line = Keep(text: string) | Plus(text: string) | Minus(text: string) | Remark(text: string)

  datatype Hunk = Hunk(
    oldStart: nat, oldCount: nat, newStart: nat, newCount: nat,
    section: string, lines: seq<Line>)

  /** One file of a patch. `modes` and `index` are the lines that name no file. */
  datatype Patch = Patch(
    oldPath: string, path: string, status: D.Status, binary: bool,
    mode: string, modes: seq<string>, index: seq<string>, hunks: seq<Hunk>)

  // ---- the printer ----

  function PrintLine(l: Line): string {
    match l
    case Keep(t) => " " + t
    case Plus(t) => "+" + t
    case Minus(t) => "-" + t
    case Remark(t) => t
  }

  function PrintLines(ls: seq<Line>): seq<string> {
    if ls == [] then [] else [PrintLine(ls[0])] + PrintLines(ls[1..])
  }

  /** git leaves a count of one out of a hunk header. */
  function Counted(count: nat): string {
    if count == 1 then "" else "," + Decimal.Numeral(count)
  }

  /** One side of a hunk header. */
  function Range(sign: string, start: nat, count: nat): string {
    sign + (Decimal.Numeral(start) + Counted(count))
  }

  /** What stands between the two marks. */
  function Middle(a: string, b: string): string {
    " " + (a + (" " + (b + " ")))
  }

  function HunkHeader(h: Hunk): string {
    "@@" + (Middle(Range("-", h.oldStart, h.oldCount), Range("+", h.newStart, h.newCount)) + ("@@" + h.section))
  }

  function PrintHunks(hs: seq<Hunk>): seq<string> {
    if hs == [] then []
    else [HunkHeader(hs[0])] + PrintLines(hs[0].lines) + PrintHunks(hs[1..])
  }

  // ---- names ----

  /** The bytes of a character in UTF-8. */
  function Utf8(c: char): (bytes: seq<nat>)
    ensures bytes != [] && forall i :: 0 <= i < |bytes| ==> bytes[i] < 256
  {
    var n := c as int;
    if n < 0x80 then [n]
    else if n < 0x800 then [0xC0 + n / 0x40, 0x80 + n % 0x40]
    else if n < 0x1_0000 then [0xE0 + n / 0x1000, 0x80 + n / 0x40 % 0x40, 0x80 + n % 0x40]
    else [0xF0 + n / 0x4_0000, 0x80 + n / 0x1000 % 0x40, 0x80 + n / 0x40 % 0x40, 0x80 + n % 0x40]
  }

  function OctalDigit(n: nat): char
    requires n < 8
  {
    '0' + n as char
  }

  function Octal(bytes: seq<nat>): string
    requires forall i :: 0 <= i < |bytes| ==> bytes[i] < 256
  {
    if bytes == [] then ""
    else
      var b := bytes[0];
      ['\\', OctalDigit(b / 64), OctalDigit(b / 8 % 8), OctalDigit(b % 8)] + Octal(bytes[1..])
  }

  /** The characters git does not print in a name as they stand: control characters, the
      quote, the backslash, and everything beyond ASCII. */
  predicate NeedsQuote(c: char) {
    c < ' ' || c == '"' || c == '\\' || c >= '\U{7F}'
  }

  function QuoteChar(c: char): string {
    if c == '"' then "\\\""
    else if c == '\\' then "\\\\"
    else if c == '\U{07}' then "\\a"
    else if c == '\U{08}' then "\\b"
    else if c == '\t' then "\\t"
    else if c == '\n' then "\\n"
    else if c == '\U{0B}' then "\\v"
    else if c == '\U{0C}' then "\\f"
    else if c == '\r' then "\\r"
    else if NeedsQuote(c) then Octal(Utf8(c))
    else [c]
  }

  function Quote(name: string): string {
    if name == "" then "" else QuoteChar(name[0]) + Quote(name[1..])
  }

  /** A name git prints as it stands. */
  predicate Plain(name: string) {
    forall c <- name :: !NeedsQuote(c)
  }

  /** A name with its mark, in quotes when it is not plain. */
  function Label(mark: string, name: string): string {
    if Plain(name) then mark + name else "\"" + (mark + (Quote(name) + "\""))
  }

  function OldLabel(p: Patch): string {
    if p.status == D.Added then "/dev/null" else Label("a/", p.oldPath)
  }

  function NewLabel(p: Patch): string {
    if p.status == D.Deleted then "/dev/null" else Label("b/", p.path)
  }

  // ---- the lines that name a file ----

  function StatusLines(p: Patch): seq<string> {
    match p.status
    case Added => [D.NEW_MODE + " " + p.mode]
    case Deleted => [D.DELETED_MODE + " " + p.mode]
    case Renamed => [D.RENAME_FROM + Label("", p.oldPath), D.RENAME_TO + Label("", p.path)]
    case Modified => []
  }

  /** git ends a label that holds a space with a tab. */
  function NameEnd(label': string): string {
    if ' ' in label' then "\t" else ""
  }

  function NameLines(p: Patch): seq<string> {
    if p.hunks == [] then []
    else [D.OLD_NAME + (OldLabel(p) + NameEnd(OldLabel(p))), D.NEW_NAME + (NewLabel(p) + NameEnd(NewLabel(p)))]
  }

  function BinaryLines(p: Patch): seq<string> {
    if p.binary then [D.BINARY + (OldLabel(p) + " and " + NewLabel(p) + " differ")] else []
  }

  /** The two sides of a header line. */
  function Sides(p: Patch): string {
    Label("a/", p.oldPath) + " " + Label("b/", p.path)
  }

  function HeaderLine(p: Patch): string {
    D.HEADER + Sides(p)
  }

  function Preamble(p: Patch): seq<string> {
    p.modes + StatusLines(p) + p.index + BinaryLines(p) + NameLines(p)
  }

  function PrintPatch(p: Patch): seq<string> {
    [HeaderLine(p)] + Preamble(p) + PrintHunks(p.hunks)
  }

  // ---- what the reader should give ----

  function LineRow(l: Line, oldLine: int, newLine: int): D.Row {
    match l
    case Keep(t) => D.Row(D.Context, oldLine, newLine, t, " ")
    case Plus(t) => D.Row(D.Add, 0, newLine, t, "+")
    case Minus(t) => D.Row(D.Del, oldLine, 0, t, "-")
    case Remark(t) => D.Row(D.Note, 0, 0, t, "")
  }

  function OldAfter(l: Line, n: int): int { if l.Keep? || l.Minus? then D.Inc(n) else n }
  function NewAfter(l: Line, n: int): int { if l.Keep? || l.Plus? then D.Inc(n) else n }

  function LineRows(ls: seq<Line>, oldLine: int, newLine: int): seq<D.Row> {
    if ls == [] then []
    else [LineRow(ls[0], oldLine, newLine)] +
         LineRows(ls[1..], OldAfter(ls[0], oldLine), NewAfter(ls[0], newLine))
  }

  function HunkRows(hs: seq<Hunk>): seq<D.Row> {
    if hs == [] then []
    else [D.Row(D.Hunk, 0, 0, HunkHeader(hs[0]), "")] +
         LineRows(hs[0].lines, hs[0].oldStart, hs[0].newStart) + HunkRows(hs[1..])
  }

  function Expected(p: Patch): D.File {
    var rows := HunkRows(p.hunks);
    D.File(p.path, p.oldPath, p.status, p.binary,
           L.CountKind(rows, D.Add), L.CountKind(rows, D.Del), rows, false, false)
  }

  function ExpectedAll(ps: seq<Patch>): seq<D.File> {
    if ps == [] then [] else [Expected(ps[0])] + ExpectedAll(ps[1..])
  }

  // ---- the form git writes ----

  predicate InertLine(s: string) {
    Free(s, '\n') &&
    (HasPrefix(s, "index ") || HasPrefix(s, "similarity index ") || HasPrefix(s, "dissimilarity index ")
     || HasPrefix(s, "old mode ") || HasPrefix(s, "new mode "))
  }

  predicate LineShape(l: Line) {
    Free(l.text, '\n') &&
    (l.Remark? ==> HasPrefix(l.text, "\\") && EndsTight(l.text))
  }

  predicate HunkShape(h: Hunk) {
    h.oldStart <= Decimal.MAX_INT && h.newStart <= Decimal.MAX_INT
    && Free(h.section, '\n') && forall l <- h.lines :: LineShape(l)
  }

  /** A patch in the form git writes it, under any names: newline-free lines, one name
      unless the file moved, no body beside a binary file. */
  predicate Shape(p: Patch) {
    Free(p.mode, '\n')
    && (p.status != D.Renamed ==> p.oldPath == p.path)
    && (p.binary ==> p.hunks == [])
    && (forall s <- p.modes :: InertLine(s)) && (forall s <- p.index :: InertLine(s))
    && (forall h <- p.hunks :: HunkShape(h))
  }

  // ---- when it reads back ----

  /** A body line the reader does not mistake for a name line. */
  predicate CleanLine(l: Line) {
    !(l.Minus? && HasPrefix(l.text, "-- ")) && !(l.Plus? && HasPrefix(l.text, "++ "))
  }

  /** No line but the header names one of the file's sides. */
  predicate HeaderOnly(p: Patch) {
    p.status == D.Added || p.status == D.Deleted || (p.status == D.Modified && p.hunks == [])
  }

  predicate CleanHunk(h: Hunk) {
    forall l <- h.lines :: CleanLine(l)
  }

  /** Only the rename lines name the file, and they are read as they stand. */
  predicate RenameOnly(p: Patch) {
    p.status == D.Renamed && p.hunks == []
  }

  /** Names the reader gives back: plain ones, which are not quoted; ending in no white
      space where they are trimmed; and with no " b/" where only the header has them. */
  predicate CleanNames(p: Patch) {
    Plain(p.oldPath) && Plain(p.path)
    && (RenameOnly(p) || (EndsTight(p.oldPath) && EndsTight(p.path)))
    && (HeaderOnly(p) ==> !Contains(p.path, " b/"))
  }

  predicate Clean(p: Patch) {
    (forall h <- p.hunks :: CleanHunk(h)) && CleanNames(p)
  }
}

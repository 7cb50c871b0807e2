/** The render budget: a second pass that rewrites the files of a patch in place. */
module DiffBudget {
  import opened Wrappers
  import opened Diff
  import Text
  import Decimal
  import L = DiffLaws
  import P = DiffPrint
  import R = DiffPatch
  import RT = DiffRoundTrip

  datatype Budget = Budget(collapse: int, perFile: int, perPatch: int, force: string)

  const DEFAULT := Budget(500, 5000, 20000, "")

  /** A budget with all three bounds zero is the default one. */
  function Effective(b: Budget): Budget {
    if b.collapse == 0 && b.perFile == 0 && b.perPatch == 0 then DEFAULT else b
  }

  predicate Forced(f: File, b: Budget) {
    b.force != "" && b.force == f.path
  }

  /** A body that is not rendered at all. */
  predicate Dropped(f: File, b: Budget) {
    !f.binary && f.rows != [] && !Forced(f, b) && b.perFile > 0 && f.Changed() > b.perFile
  }

  /** A body that is rendered shut. */
  predicate Shut(f: File, b: Budget, total: int) {
    !Forced(f, b) &&
    ((b.perPatch > 0 && total > b.perPatch) || (b.collapse > 0 && f.Changed() > b.collapse))
  }

  function Render(f: File, b: Budget, total: int): File {
    if f.binary || f.rows == [] then f
    else if Dropped(f, b) then f.(rows := [], overBudget := true)
    else f.(collapsed := Shut(f, b, total))
  }

  function RenderAll(files: seq<File>, b: Budget, total: int): seq<File> {
    seq(|files|, i requires 0 <= i < |files| => Render(files[i], b, total))
  }

  function Additions(files: seq<File>): nat {
    if files == [] then 0 else Additions(files[..|files| - 1]) + files[|files| - 1].additions
  }

  function Deletions(files: seq<File>): nat {
    if files == [] then 0 else Deletions(files[..|files| - 1]) + files[|files| - 1].deletions
  }

  function DropCount(files: seq<File>, b: Budget): nat {
    if files == [] then 0
    else DropCount(files[..|files| - 1], b) + if Dropped(files[|files| - 1], b) then 1 else 0
  }

  function Flagged(files: seq<File>): nat {
    if files == [] then 0
    else Flagged(files[..|files| - 1]) + if files[|files| - 1].overBudget then 1 else 0
  }

  /** What a page gets of a patch. */
  datatype View = View(files: seq<File>, additions: nat, deletions: nat, overBudget: nat)

  function ViewOf(text: string, b: Budget): (v: View)
    ensures |v.files| == |ReadText(text)|
  {
    var files := ReadText(text);
    View(RenderAll(files, Effective(b), Additions(files) + Deletions(files)),
         Additions(files), Deletions(files), DropCount(files, Effective(b)))
  }

  // ---- the passes as the source writes them ----

  class Patch {
    const files: array<File>
    var additions: nat
    var deletions: nat
    var overBudget: nat

    constructor (read: seq<File>)
      ensures files.Length == |read| && files[..] == read
      ensures additions == 0 && deletions == 0 && overBudget == 0
      ensures fresh(files)
    {
      files := new File[|read|](i requires 0 <= i < |read| => read[i]);
      additions, deletions, overBudget := 0, 0, 0;
    }

    method ApplyBudget(b: Budget)
      modifies `overBudget, files
      ensures files[..] == RenderAll(old(files[..]), b, additions + deletions)
      ensures overBudget == old(overBudget) + DropCount(old(files[..]), b)
    {
      var total := additions + deletions;
      var shutAll := b.perPatch > 0 && total > b.perPatch;
      ghost var before := files[..];
      for i := 0 to files.Length
        invariant files[i..] == before[i..]
        invariant forall j :: 0 <= j < i ==> files[j] == Render(before[j], b, total)
        invariant overBudget == old(overBudget) + DropCount(before[..i], b)
      {
        var f := files[i];
        assert f == files[i..][0] == before[i];
        assert before[..i + 1][..i] == before[..i];
        assert before[i..][1..] == before[i + 1..];
        assert files[i + 1..] == files[i..][1..];
        if !f.binary && f.rows != [] {
          var forced := b.force != "" && b.force == f.path;
          if !forced && b.perFile > 0 && f.Changed() > b.perFile {
            files[i] := f.(rows := [], overBudget := true);
            overBudget := overBudget + 1;
          } else if forced {
            files[i] := f.(collapsed := false);
          } else if shutAll {
            files[i] := f.(collapsed := true);
          } else {
            files[i] := f.(collapsed := b.collapse > 0 && f.Changed() > b.collapse);
          }
        }
      }
      assert before[..files.Length] == before;
    }
  }

  method Parse(text: string, b: Budget) returns (p: Patch)
    ensures fresh(p) && fresh(p.files)
    ensures View(p.files[..], p.additions, p.deletions, p.overBudget) == ViewOf(text, b)
  {
    hide ReadText, RenderAll, DropCount;
    var budget := b;
    if b.collapse == 0 && b.perFile == 0 && b.perPatch == 0 {
      budget := DEFAULT;
    }
    var files := ParseFiles(text);
    p := new Patch(files);
    for i := 0 to p.files.Length
      invariant p.files[..] == files
      invariant p.additions == Additions(files[..i]) && p.deletions == Deletions(files[..i])
      invariant p.overBudget == 0
    {
      assert files[..i + 1][..i] == files[..i];
      p.additions := p.additions + p.files[i].additions;
      p.deletions := p.deletions + p.files[i].deletions;
    }
    assert files[..p.files.Length] == files;
    p.ApplyBudget(budget);
  }

  // ---- what the budget keeps ----

  /** Which files there are, what they are called and how much of them changed
      does not depend on the budget. */
  lemma BudgetKeepsTheFacts(text: string, b: Budget, i: nat)
    requires i < |ReadText(text)|
    ensures var v := ViewOf(text, b);
            |v.files| == |ReadText(text)| &&
            var f, g := ReadText(text)[i], v.files[i];
            f.path == g.path && f.oldPath == g.oldPath && f.status == g.status && f.binary == g.binary
            && g.additions == L.CountKind(f.rows, Add) && g.deletions == L.CountKind(f.rows, Del)
            && (g.rows == f.rows || (g.rows == [] && g.overBudget))
  {
    hide ReadText;
    L.ReadTextSound(text);
    var f := ReadText(text)[i];
    assert L.Sound(f);
    hide L.RowAt, L.CountKind;
  }

  /** The bounds in force: those given, or 500, 5000 and 20000 lines with nothing forced
      when all three are zero. */
  lemma BoundsInForce(b: Budget)
    ensures (b.collapse, b.perFile, b.perPatch) != (0, 0, 0) ==> Effective(b) == b
    ensures (b.collapse, b.perFile, b.perPatch) == (0, 0, 0) ==>
      Effective(b).collapse == 500 && Effective(b).perFile == 5000 && Effective(b).perPatch == 20000 &&
      Effective(b).force == ""
  {
  }

  /** The one path that is rendered whatever its size. */
  predicate Named(g: File, force: string) {
    force != "" && g.path == force
  }

  /** A body is dropped exactly when it is text, unforced and over the per-file
      bound; a dropped body is flagged and no other is. */
  lemma DroppedExactly(text: string, b: Budget, i: nat)
    requires i < |ReadText(text)|
    ensures var f, g, e := ReadText(text)[i], ViewOf(text, b).files[i], Effective(b);
            var over := !f.binary && f.rows != [] && !Named(f, e.force) &&
                        0 < e.perFile < L.CountKind(f.rows, Add) + L.CountKind(f.rows, Del);
            (g.overBudget <==> over) && (f.rows != [] ==> (g.rows == [] <==> over))
  {
    hide ReadText;
    L.ReadTextSound(text);
    assert L.Sound(ReadText(text)[i]);
    hide L.RowAt, L.CountKind;
  }

  /** A file is shut exactly when it is text, rendered and unforced, and past one of the
      two bounds: the changed lines of the whole patch, or its own. */
  lemma ShutExactly(text: string, b: Budget, i: nat)
    requires i < |ReadText(text)|
    ensures var v, e := ViewOf(text, b), Effective(b);
            var g := v.files[i];
            g.collapsed <==>
              !g.binary && g.rows != [] && !Named(g, e.force) &&
              (0 < e.perPatch < v.additions + v.deletions || 0 < e.collapse < g.additions + g.deletions)
  {
    hide ReadText;
    L.ReadTextSound(text);
    assert L.Sound(ReadText(text)[i]);
    hide L.RowAt, L.CountKind;
  }

  /** A text body a page shows open though nobody asked for it. */
  predicate ShownOpen(g: File, force: string) {
    !g.binary && g.rows != [] && !g.collapsed && !Named(g, force)
  }

  function OpenLines(files: seq<File>, force: string): nat {
    if files == [] then 0
    else
      var last := files[|files| - 1];
      OpenLines(files[..|files| - 1], force) + if ShownOpen(last, force) then last.additions + last.deletions else 0
  }

  lemma {:induction false} OpenLinesWithin(files: seq<File>, force: string)
    ensures OpenLines(files, force) <= Additions(files) + Deletions(files)
    ensures (forall g <- files :: !ShownOpen(g, force)) ==> OpenLines(files, force) == 0
    decreases |files|
  {
    if files != [] {
      OpenLinesWithin(files[..|files| - 1], force);
      assert files[|files| - 1] in files;
    }
  }

  /** What a page shows open fits: all of it together within the bound of the patch, and
      each body within the bound of a file. */
  lemma OpenFits(text: string, b: Budget)
    ensures var v, e := ViewOf(text, b), Effective(b);
            (e.perPatch > 0 ==> OpenLines(v.files, e.force) <= e.perPatch) &&
            (e.collapse > 0 ==>
               forall g <- v.files :: ShownOpen(g, e.force) ==> g.additions + g.deletions <= e.collapse)
  {
    hide ReadText, RenderAll, OpenLines, Additions, Deletions, DropCount, Effective;
    var v, e := ViewOf(text, b), Effective(b);
    ViewAddsUp(text, b);
    OpenLinesWithin(v.files, e.force);
    forall g | g in v.files
      ensures ShownOpen(g, e.force) ==>
        !(0 < e.perPatch < v.additions + v.deletions) && !(0 < e.collapse < g.additions + g.deletions)
    {
      var i :| 0 <= i < |v.files| && g == v.files[i];
      ShutExactly(text, b, i);
    }
    hide ViewOf;
  }

  /** The totals are sums: they add up over any two parts, and over one file they are its
      counts. */
  lemma {:induction false} TotalsAdd(a: seq<File>, b: seq<File>)
    ensures Additions(a + b) == Additions(a) + Additions(b)
    ensures Deletions(a + b) == Deletions(a) + Deletions(b)
    ensures Flagged(a + b) == Flagged(a) + Flagged(b)
    decreases |b|
  {
    if b == [] {
      assert a + b == a;
    } else {
      TotalsAdd(a, b[..|b| - 1]);
      assert (a + b)[..|a + b| - 1] == a + b[..|b| - 1];
    }
  }

  lemma TotalsOfOne(f: File)
    ensures Additions([f]) == f.additions && Deletions([f]) == f.deletions
    ensures Flagged([f]) == if f.overBudget then 1 else 0
  {
    assert [f][..0] == [];
  }

  /** No unforced text body that is rendered exceeds the per-file bound. */
  lemma RenderedFits(text: string, b: Budget, g: File)
    requires g in ViewOf(text, b).files
    requires !g.binary && g.rows != [] && !Named(g, Effective(b).force) && Effective(b).perFile > 0
    ensures g.Changed() <= Effective(b).perFile
  {
    hide ReadText;
    var files := ReadText(text);
    var i :| 0 <= i < |files| && g == ViewOf(text, b).files[i];
  }

  /** The totals are the sums, and the count of dropped bodies is the count of flags. */
  lemma {:induction false} FlagsAreCounted(files: seq<File>, b: Budget, total: int)
    requires forall f <- files :: !f.overBudget
    ensures Flagged(RenderAll(files, b, total)) == DropCount(files, b)
    ensures Additions(RenderAll(files, b, total)) == Additions(files)
    ensures Deletions(RenderAll(files, b, total)) == Deletions(files)
  {
    if files != [] {
      var n := |files| - 1;
      assert RenderAll(files, b, total)[..n] == RenderAll(files[..n], b, total);
      FlagsAreCounted(files[..n], b, total);
      assert files[n] in files;
    }
  }

  lemma ViewAddsUp(text: string, b: Budget)
    ensures var v := ViewOf(text, b);
            v.additions == Additions(v.files) && v.deletions == Deletions(v.files)
            && v.overBudget == Flagged(v.files)
  {
    hide ReadText, RenderAll, Additions, Deletions, Flagged, DropCount;
    L.ReadTextSound(text);
    var files := ReadText(text);
    assert forall f <- files :: L.Sound(f) && !f.overBudget;
    FlagsAreCounted(files, Effective(b), Additions(files) + Deletions(files));
  }

  // ---- opening every file ----

  /** The budget of the link that opens every shut file. */
  function OpenEvery(b: Budget): Budget {
    b.(collapse := 0, perPatch := 0)
  }

  /** With a per-file bound, every file renders open and the dropped bodies are the same. */
  lemma OpenEveryOpens(text: string, b: Budget, i: nat)
    requires b.perFile != 0 && i < |ReadText(text)|
    ensures !ViewOf(text, OpenEvery(b)).files[i].collapsed
    ensures ViewOf(text, OpenEvery(b)).files[i].overBudget == ViewOf(text, b).files[i].overBudget
    ensures ViewOf(text, OpenEvery(b)).files[i].rows == ViewOf(text, b).files[i].rows
  {
    hide ReadText;
    L.ReadTextSound(text);
    assert L.Sound(ReadText(text)[i]);
    hide L.RowAt, L.CountKind;
  }

  function Pluses(n: nat): seq<P.Line> {
    if n == 0 then [] else [P.Plus("")] + Pluses(n - 1)
  }

  /** A clean patch that adds n empty lines. */
  function Adding(n: nat): P.Patch {
    P.Patch("f", "f", Modified, false, "", [], [], [P.Hunk(0, 0, 1, n, "", Pluses(n))])
  }

  lemma {:induction false} PlusesShape(n: nat)
    ensures forall l <- Pluses(n) :: l == P.Plus("")
  {
    if n > 0 { PlusesShape(n - 1); }
  }

  lemma {:induction false} PlusRows(n: nat, oldLine: int, newLine: int)
    ensures L.CountKind(P.LineRows(Pluses(n), oldLine, newLine), Add) == n
    ensures L.CountKind(P.LineRows(Pluses(n), oldLine, newLine), Del) == 0
  {
    if n > 0 {
      var row := P.LineRow(P.Plus(""), oldLine, newLine);
      var rest := P.LineRows(Pluses(n - 1), oldLine, Inc(newLine));
      PlusRows(n - 1, oldLine, Inc(newLine));
      assert Pluses(n)[1..] == Pluses(n - 1);
      assert P.LineRows(Pluses(n), oldLine, newLine) == [row] + rest;
      RT.CountConcat([row], rest, Add);
      RT.CountConcat([row], rest, Del);
      RT.CountOne(row, Add);
      RT.CountOne(row, Del);
    }
  }

  lemma AddingReads(n: nat)
    ensures ReadText(R.PatchText(Adding(n))) == [P.Expected(Adding(n))]
    ensures var f := P.Expected(Adding(n));
            f.additions == n && f.deletions == 0 && f.rows != [] && !f.binary && f.path == "f"
  {
    var p := Adding(n);
    PlusesShape(n);
    AddingIsClean(n);
    hide ReadText, R.PatchText, P.Shape, P.Clean;
    R.PatchReadsBack(p);
    var head := R.HeaderRow(p.hunks[0]);
    var rows := P.LineRows(Pluses(n), 0, 1);
    hide R.HeaderRow, Pluses, P.LineRows;
    assert p.hunks[1..] == [];
    assert P.HunkRows(p.hunks) == [head] + rows + [] by { hide P.HunkHeader; }
    assert [head] + rows + [] == [head] + rows;
    PlusRows(n, 0, 1);
    RT.CountConcat([head], rows, Add);
    RT.CountConcat([head], rows, Del);
    RT.CountOne(head, Add);
    RT.CountOne(head, Del);
  }

  lemma AddingIsClean(n: nat)
    ensures P.Shape(Adding(n)) && P.Clean(Adding(n))
  {
    PlusesShape(n);
    hide Pluses;
    var p := Adding(n);
    assert P.HunkShape(p.hunks[0]);
    assert P.CleanHunk(p.hunks[0]);
  }

  /** Without a per-file bound the opened budget has all three bounds zero, is
      taken for the default one, and shuts a file again: so opening every file
      opens every file of every text exactly when there is a per-file bound. */
  lemma OpenEveryExactly(b: Budget)
    ensures b.perFile != 0 <==>
            forall text, i | 0 <= i < |ReadText(text)| :: !ViewOf(text, OpenEvery(b)).files[i].collapsed
  {
    hide ReadText, ViewOf;
    if b.perFile != 0 {
      forall text, i: nat | i < |ReadText(text)|
        ensures !ViewOf(text, OpenEvery(b)).files[i].collapsed
      {
        OpenEveryOpens(text, b, i);
      }
    } else {
      LongFileIsShut(b);
    }
  }

  lemma LongFileIsShut(b: Budget)
    requires b.perFile == 0
    ensures var text := R.PatchText(Adding(501));
            |ReadText(text)| == 1 && ViewOf(text, OpenEvery(b)).files[0].collapsed
  {
    AddingReads(501);
    hide ReadText, R.PatchText, Adding, P.Expected;
  }
}

/** Repository paths in addresses: their normal form, their parents and the links to them. */
module Paths {
  import opened Text
  import opened Wrappers
  import opened Url
  import Clients

  // ---- the normal form ----

  /** What the path means, read from its end: a segment stands unless a later
      ".." takes it away. `skip` is how many are still to be taken. */
  function Resolve(segs: seq<string>, skip: nat): seq<string> {
    if segs == [] then []
    else
      var front, last := segs[..|segs| - 1], segs[|segs| - 1];
      if last == "" || last == "." then Resolve(front, skip)
      else if last == ".." then Resolve(front, skip + 1)
      else if skip > 0 then Resolve(front, skip - 1)
      else Resolve(front, 0) + [last]
  }

  function CleanOf(p: string): string {
    Join(Resolve(Split(p, '/'), 0), '/')
  }

  /** One step of the stack the source keeps. */
  function Push(out: seq<string>, seg: string): seq<string> {
    if seg == "" || seg == "." then out
    else if seg == ".." then if out == [] then out else out[..|out| - 1]
    else out + [seg]
  }

  function Stack(segs: seq<string>): seq<string> {
    if segs == [] then [] else Push(Stack(segs[..|segs| - 1]), segs[|segs| - 1])
  }

  function DropLast(out: seq<string>, k: nat): seq<string> {
    if k >= |out| then [] else out[..|out| - k]
  }

  /** The stack agrees with the reading from the end, whatever is still to be taken. */
  lemma {:induction false} StackResolves(segs: seq<string>, skip: nat)
    ensures Resolve(segs, skip) == DropLast(Stack(segs), skip)
    decreases |segs|
  {
    if segs != [] {
      var front, last := segs[..|segs| - 1], segs[|segs| - 1];
      StackResolves(front, skip);
      StackResolves(front, skip + 1);
      StackResolves(front, 0);
      if skip > 0 {
        StackResolves(front, skip - 1);
      }
    }
  }

  lemma DropNothing(out: seq<string>)
    ensures DropLast(out, 0) == out
  {
  }

  method CleanPath(p: string) returns (r: string)
    ensures r == CleanOf(p)
  {
    hide Split, Join, DropLast, Resolve;
    var segs := Split(p, '/');
    var out: seq<string> := [];
    for i := 0 to |segs|
      invariant out == Stack(segs[..i])
    {
      assert segs[..i + 1][..i] == segs[..i];
      var seg := segs[i];
      if seg == "" || seg == "." {
      } else if seg == ".." {
        if |out| > 0 {
          out := out[..|out| - 1];
        }
      } else {
        out := out + [seg];
      }
    }
    assert segs[..|segs|] == segs;
    StackResolves(segs, 0);
    DropNothing(out);
    r := Join(out, '/');
  }

  predicate CleanSegment(s: string) {
    s != "" && s != "." && s != ".." && Free(s, '/')
  }

  lemma {:induction false} ResolvedAreClean(segs: seq<string>, skip: nat)
    requires AllFree(segs, '/')
    ensures forall s <- Resolve(segs, skip) :: CleanSegment(s)
    decreases |segs|
  {
    if segs != [] {
      var front, last := segs[..|segs| - 1], segs[|segs| - 1];
      assert last in segs;
      assert AllFree(front, '/');
      ResolvedAreClean(front, skip);
      ResolvedAreClean(front, skip + 1);
      ResolvedAreClean(front, 0);
      if skip > 0 {
        ResolvedAreClean(front, skip - 1);
      }
    }
  }

  lemma {:induction false} CleanResolves(segs: seq<string>)
    requires forall s <- segs :: CleanSegment(s)
    ensures Resolve(segs, 0) == segs
    decreases |segs|
  {
    if segs != [] {
      assert segs[|segs| - 1] in segs;
      CleanResolves(segs[..|segs| - 1]);
      assert segs == segs[..|segs| - 1] + [segs[|segs| - 1]];
    }
  }

  predicate IsClean(p: string) {
    p == "" || forall s <- Split(p, '/') :: CleanSegment(s)
  }

  /** The normal form has no empty, "." or ".." segment. */
  lemma CleanOfIsClean(p: string)
    ensures IsClean(CleanOf(p))
    ensures CleanOf(p) != "" ==> Split(CleanOf(p), '/') == Resolve(Split(p, '/'), 0)
  {
    hide Split, Join, Resolve;
    SplitPieces(p, '/');
    ResolvedAreClean(Split(p, '/'), 0);
    var segs := Resolve(Split(p, '/'), 0);
    if segs != [] {
      SplitJoin(segs, '/');
    } else {
      EmptyJoin();
    }
  }

  lemma EmptyJoin()
    ensures Join([], '/') == ""
  {
  }

  /** A path in normal form is its own. */
  lemma CleanStays(p: string)
    requires IsClean(p)
    ensures CleanOf(p) == p
  {
    if p == "" {
      assert Split("", '/') == [""];
      assert [""][..0] == [];
    } else {
      hide Split, Join, Resolve;
      CleanResolves(Split(p, '/'));
      JoinSplit(p, '/');
    }
  }

  /** Cleaning twice is cleaning once, and a path is clean exactly when cleaning keeps it. */
  lemma CleanIdempotent(p: string)
    ensures CleanOf(CleanOf(p)) == CleanOf(p)
    ensures CleanOf(p) == p <==> IsClean(p)
  {
    CleanOfIsClean(p);
    CleanStays(CleanOf(p));
    if IsClean(p) {
      CleanStays(p);
    }
    hide CleanOf, IsClean;
  }

  // ---- parents ----

  /** strings.CutLast at the separator: the directory that holds p, empty at the root. */
  function ParentPath(p: string): (r: string)
    ensures |r| <= |p| && (p != "" ==> |r| < |p|)
  {
    if p == "" then ""
    else if p[|p| - 1] == '/' then p[..|p| - 1]
    else ParentPath(p[..|p| - 1])
  }

  lemma {:induction false} ParentOf(dir: string, name: string)
    requires Free(name, '/')
    ensures ParentPath(dir + "/" + name) == dir
    decreases |name|
  {
    var p := dir + "/" + name;
    if name == "" {
      assert p[..|p| - 1] == dir;
    } else {
      assert p[..|p| - 1] == dir + "/" + name[..|name| - 1];
      ParentOf(dir, name[..|name| - 1]);
    }
  }

  lemma {:induction false} ParentOfName(name: string)
    requires Free(name, '/')
    ensures ParentPath(name) == ""
    decreases |name|
  {
    if name != "" {
      assert name[|name| - 1] in name;
      ParentOfName(name[..|name| - 1]);
    }
  }

  /** The directories above p, root-most first, without the root. */
  function Ancestors(p: string): seq<string>
    decreases |p|
  {
    var dir := ParentPath(p);
    if dir == "" then [] else Ancestors(dir) + [dir]
  }

  function Prefix(segs: seq<string>, n: nat): string
    requires n <= |segs|
  {
    Join(segs[..n], '/')
  }

  function Prefixes(segs: seq<string>, n: nat): seq<string>
    requires n <= |segs|
  {
    if n == 0 then [] else Prefixes(segs, n - 1) + [Prefix(segs, n)]
  }

  lemma PrefixStep(segs: seq<string>, n: nat)
    requires 0 < n < |segs|
    ensures Prefix(segs, n + 1) == Prefix(segs, n) + "/" + segs[n]
  {
    assert segs[..n + 1] == segs[..n] + [segs[n]];
    JoinConcat(segs[..n], [segs[n]], '/');
    assert Join([segs[n]], '/') == segs[n];
  }

  lemma PrefixNotEmpty(segs: seq<string>, n: nat)
    requires 0 < n <= |segs| && segs[0] != ""
    ensures Prefix(segs, n) != ""
  {
    assert segs[..n][0] == segs[0];
  }

  /** The proper prefixes of a path are its iterated parents. */
  lemma {:induction false} PrefixesAreAncestors(segs: seq<string>, n: nat)
    requires AllFree(segs, '/') && segs != [] && segs[0] != "" && n < |segs|
    ensures Ancestors(Prefix(segs, n + 1)) == Prefixes(segs, n)
    decreases n
  {
    hide ParentPath, Join;
    if n == 0 {
      OneName(segs);
      ParentOfName(segs[0]);
    } else {
      hide Prefix;
      PrefixesAreAncestors(segs, n - 1);
      PrefixStep(segs, n);
      PrefixNotEmpty(segs, n);
      assert segs[n] in segs;
      ParentOf(Prefix(segs, n), segs[n]);
    }
  }

  lemma OneName(segs: seq<string>)
    requires segs != []
    ensures Prefix(segs, 1) == segs[0]
  {
    assert segs[..1] == [segs[0]];
  }

  // ---- links ----

  lemma {:induction false} PiecesBytes(p: Bytes)
    ensures forall i :: 0 <= i < |Split(p, '/')| ==> IsBytes(Split(p, '/')[i])
    decreases |p|
  {
    if p != "" {
      PiecesBytes(p[1..]);
      var rest := Split(p[1..], '/');
      assert IsBytes(rest[0]);
    }
  }

  function Pieces(p: Bytes): (r: seq<Bytes>)
    ensures r == Split(p, '/')
  {
    PiecesBytes(p);
    Split(p, '/')
  }

  function EscapedOf(p: Bytes): string {
    Join(Clients.EscapeAll(Pieces(p), Segment), '/')
  }

  /** Each cell of the split path is overwritten by its escaped form. */
  method EscapePath(p: Bytes) returns (r: string)
    ensures r == EscapedOf(p)
  {
    hide Split, Escape, Join, IsBytes, Clients.EscapeAll;
    var pieces := Pieces(p);
    var segs: seq<string> := pieces;
    for i := 0 to |segs|
      invariant |segs| == |pieces|
      invariant forall j :: 0 <= j < i ==> segs[j] == Escape(pieces[j], Segment)
    {
      segs := segs[i := Escape(pieces[i], Segment)];
    }
    assert segs == Clients.EscapeAll(pieces, Segment);
    r := Join(segs, '/');
  }

  /** The link to a clean path decodes, segment by segment, to a path that cleaning keeps. */
  lemma EscapedPathReadsBack(p: Bytes)
    requires IsClean(p)
    ensures var pieces := Split(EscapedOf(p), '/');
            |pieces| == |Pieces(p)|
            && (forall i :: 0 <= i < |pieces| ==> Unescape(pieces[i], Path) == Some(Pieces(p)[i]))
            && CleanOf(Join(Pieces(p), '/')) == p
  {
    hide Escape, Unescape, IsClean, CleanOf, Split, Join;
    Clients.EscapedFree(Pieces(p));
    SplitJoin(Clients.EscapeAll(Pieces(p), Segment), '/');
    JoinSplit(p, '/');
    CleanStays(p);
    forall i | 0 <= i < |Pieces(p)|
      ensures Unescape(Clients.EscapeAll(Pieces(p), Segment)[i], Path) == Some(Pieces(p)[i])
    {
      UnescapeEscape(Pieces(p)[i], Segment, Path);
    }
  }

  /** One step of the breadcrumb; the last carries no link. */
  datatype Crumb = Crumb(name: string, url: string)

  function RefSuffix(ref: Bytes): string {
    if ref == "" then "" else "?ref=" + Escape(ref, Query)
  }

  function TreeURL(repoURL: string, ref: Bytes, dir: Bytes): string {
    repoURL + "/tree/" + EscapedOf(dir) + RefSuffix(ref)
  }

  lemma {:induction false} PrefixBytes(segs: seq<Bytes>, n: nat)
    requires n <= |segs|
    ensures IsBytes(Prefix(segs, n))
    decreases n
  {
    if n == 0 {
    } else if n == 1 {
      OneName(segs);
    } else {
      PrefixBytes(segs, n - 1);
      PrefixStep(segs, n - 1);
      hide Prefix;
    }
  }

  /** The i-th step of a breadcrumb: the name, and the link to the prefix that ends there. */
  function CrumbAt(repoURL: string, ref: Bytes, segs: seq<Bytes>, i: nat): Crumb
    requires i < |segs|
  {
    PrefixBytes(segs, i + 1);
    Crumb(segs[i], if i < |segs| - 1 then TreeURL(repoURL, ref, Prefix(segs, i + 1)) else "")
  }

  method PathCrumbs(repoURL: string, ref: Bytes, path: Bytes) returns (out: seq<Crumb>)
    ensures path == "" ==> out == []
    ensures path != "" ==>
      |out| == |Pieces(path)| &&
      forall i :: 0 <= i < |out| ==> out[i] == CrumbAt(repoURL, ref, Pieces(path), i)
  {
    if path == "" {
      return [];
    }
    var q := RefSuffix(ref);
    var segs := Pieces(path);
    out := [];
    for i := 0 to |segs|
      invariant |out| == i
      invariant forall j :: 0 <= j < i ==> out[j] == CrumbAt(repoURL, ref, segs, j)
    {
      var c := CrumbStep(repoURL, ref, q, segs, i);
      hide *;
      out := out + [c];
    }
  }

  /** The body of the loop above. */
  method CrumbStep(repoURL: string, ref: Bytes, q: string, segs: seq<Bytes>, i: nat) returns (c: Crumb)
    requires i < |segs| && q == RefSuffix(ref)
    ensures c == CrumbAt(repoURL, ref, segs, i)
  {
    hide EscapedOf, Prefix, RefSuffix, IsBytes;
    c := Crumb(segs[i], "");
    if i < |segs| - 1 {
      PrefixBytes(segs, i + 1);
      var link := EscapePath(Prefix(segs, i + 1));
      c := c.(url := repoURL + "/tree/" + link + q);
    }
  }

  /** The links of a breadcrumb are the links to the directories above the path,
      root-most first, ending at its parent. */
  lemma CrumbsAreAncestors(path: Bytes)
    requires path != "" && path[0] != '/'
    ensures Ancestors(path) == Prefixes(Pieces(path), |Pieces(path)| - 1)
    ensures |Ancestors(path)| == |Pieces(path)| - 1
    ensures Ancestors(path) != [] ==> Ancestors(path)[|Ancestors(path)| - 1] == ParentPath(path)
  {
    var segs := Pieces(path);
    SplitPieces(path, '/');
    JoinSplit(path, '/');
    assert segs[0] != "";
    hide Split, Join, ParentPath;
    assert segs[..|segs|] == segs;
    PrefixesAreAncestors(segs, |segs| - 1);
    PrefixesLength(segs, |segs| - 1);
  }

  lemma {:induction false} PrefixesLength(segs: seq<string>, n: nat)
    requires n <= |segs|
    ensures |Prefixes(segs, n)| == n
    ensures forall i :: 0 <= i < n ==> Prefixes(segs, n)[i] == Prefix(segs, i + 1)
  {
    hide Prefix;
    if n > 0 { PrefixesLength(segs, n - 1); }
  }

  /** What an address ends in for a reference: nothing, or a query that decodes to it. */
  predicate NamesRef(suffix: string, ref: Bytes) {
    if ref == "" then suffix == ""
    else "?ref=" <= suffix && Unescape(suffix[5..], Query) == Some(ref)
  }

  lemma RefSuffixMeans(ref: Bytes)
    ensures NamesRef(RefSuffix(ref), ref)
  {
    UnescapeEscape(ref, Query, Query);
    hide Escape, Unescape;
    assert ref != "" ==> RefSuffix(ref)[5..] == Escape(ref, Query);
  }

  /** Each linked step of a breadcrumb points at the directory above the path it stands for. */
  lemma CrumbLinks(repoURL: string, ref: Bytes, path: Bytes, i: nat)
    requires path != "" && path[0] != '/' && i < |Ancestors(path)|
    ensures IsBytes(Ancestors(path)[i]) && i < |Pieces(path)| - 1
    ensures CrumbAt(repoURL, ref, Pieces(path), i).url == TreeURL(repoURL, ref, Ancestors(path)[i])
  {
    hide Split, Ancestors, Prefix, EscapedOf, RefSuffix, TreeURL, Prefixes, IsBytes;
    CrumbsAreAncestors(path);
    PrefixesLength(Pieces(path), |Pieces(path)| - 1);
    PrefixBytes(Pieces(path), i + 1);
  }

  predicate LinksTo(url: string, repoURL: string, ref: Bytes, dir: Bytes, suffix: string) {
    url == repoURL + "/tree/" + EscapedOf(dir) + suffix && NamesRef(suffix, ref)
  }

  /** And keeps the reference that was being read. */
  lemma CrumbsKeepRef(repoURL: string, ref: Bytes, path: Bytes, i: nat)
    requires path != "" && path[0] != '/' && i < |Ancestors(path)|
    ensures IsBytes(Ancestors(path)[i]) && i < |Pieces(path)| - 1
    ensures var url := CrumbAt(repoURL, ref, Pieces(path), i).url;
            exists suffix :: LinksTo(url, repoURL, ref, Ancestors(path)[i], suffix)
  {
    CrumbLinks(repoURL, ref, path, i);
    TreeLinks(repoURL, ref, Ancestors(path)[i]);
    hide *;
  }

  lemma TreeLinks(repoURL: string, ref: Bytes, dir: Bytes)
    ensures exists suffix :: LinksTo(TreeURL(repoURL, ref, dir), repoURL, ref, dir, suffix)
  {
    RefSuffixMeans(ref);
    hide NamesRef, RefSuffix, EscapedOf;
    assert LinksTo(TreeURL(repoURL, ref, dir), repoURL, ref, dir, RefSuffix(ref));
  }
}

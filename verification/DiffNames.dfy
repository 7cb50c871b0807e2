/** What the reader makes of the lines that name a file. */
module DiffNames {
  import opened Wrappers
  import opened Text
  import opened DiffPrint
  import D = Diff

  // ---- the a/ and b/ names ----

  lemma {:induction false} TrimRightMarked(mark: string, name: string)
    requires mark != "" && !IsSpace(mark[|mark| - 1])
    ensures TrimRight(mark + name) == mark + TrimRight(name)
    decreases |name|
  {
    hide IsSpace;
    var s := mark + name;
    if name == "" {
      assert s == mark;
      assert mark + TrimRight(name) == mark;
    } else if IsSpace(name[|name| - 1]) {
      assert s[..|s| - 1] == mark + name[..|name| - 1];
      TrimRightMarked(mark, name[..|name| - 1]);
    }
  }

  lemma TrimSpaceOfMarked(mark: string, name: string)
    requires mark == "a/" || mark == "b/"
    ensures TrimSpace(mark + name) == mark + TrimRight(name)
  {
    assert !IsSpace(mark[0]) && !IsSpace(mark[1]);
    hide IsSpace, TrimRight;
    TrimRightMarked(mark, name);
    assert TrimLeft(mark + name) == mark + name;
  }

  /** A marked name is read with its trailing white space removed. */
  lemma StripMarked(mark: string, name: string)
    requires mark == "a/" || mark == "b/"
    ensures D.StripPrefix(mark + name) == Some(TrimRight(name))
  {
    TrimSpaceOfMarked(mark, name);
    hide TrimSpace, TrimRight, Cut;
    var s := mark + TrimRight(name);
    assert s[0] == mark[0] && s[1] == mark[1];
    assert s[2..] == TrimRight(name);
  }

  lemma TrimRightTight(name: string)
    ensures TrimRight(name) == name <==> EndsTight(name)
    ensures EndsTight(TrimRight(name))
  {
    if !EndsTight(name) {
      assert TrimRight(name) == TrimRight(name[..|name| - 1]);
    }
  }

  lemma DevNull()
    ensures D.StripPrefix("/dev/null") == None
  {
    assert !IsSpace('/') && !IsSpace('l');
    hide IsSpace;
    TrimSpaceTight("/dev/null");
  }

  lemma OctalShape(bytes: seq<nat>)
    requires forall i :: 0 <= i < |bytes| ==> bytes[i] < 256
    ensures Free(Octal(bytes), '\t') && Free(Octal(bytes), '\n') && |Octal(bytes)| >= |bytes|
  {
    if bytes != [] {
      OctalShape(bytes[1..]);
    }
  }

  lemma QuoteCharShape(c: char)
    ensures Free(QuoteChar(c), '\t') && Free(QuoteChar(c), '\n') && |QuoteChar(c)| >= 1
  {
    OctalShape(Utf8(c));
    hide Octal, Utf8;
  }

  /** Quoting takes tabs and newlines away, and never shortens. */
  lemma {:induction false} QuoteShape(name: string)
    ensures Free(Quote(name), '\t') && Free(Quote(name), '\n') && |Quote(name)| >= |name|
    decreases |name|
  {
    if name != "" {
      QuoteCharShape(name[0]);
      QuoteShape(name[1..]);
      hide QuoteChar;
    }
  }

  /** What the reader makes of a label: a plain name without its trailing white space, and
      a quoted one with its quotes and its mark. */
  function ReadName(mark: string, name: string): string {
    if Plain(name) then TrimRight(name) else Label(mark, name)
  }

  lemma LabelIsLonger(mark: string, name: string)
    requires !Plain(name)
    ensures |Label(mark, name)| > |mark| + |name| + 1
    ensures Free(mark, '\t') ==> Free(Label(mark, name), '\t')
  {
    QuoteShape(name);
    hide Quote, Plain;
  }

  lemma ReadNameKept(mark: string, name: string)
    ensures ReadName(mark, name) == name <==> Plain(name) && EndsTight(name)
    ensures Label("", name) == name <==> Plain(name)
  {
    TrimRightTight(name);
    if !Plain(name) {
      LabelIsLonger(mark, name);
      LabelIsLonger("", name);
    }
    assert "" + name == name;
    hide TrimRight, Plain, EndsTight;
  }

  /** A text that starts and ends with a quote is not trimmed. */
  lemma QuotesHold(s: string, end: string)
    requires s != "" && s[0] == '"' == s[|s| - 1] && (end == "" || end == "\t")
    ensures TrimSpace(s + end) == s
  {
    assert !IsSpace('"') && IsSpace('\t');
    hide IsSpace;
    assert TrimLeft(s + end) == s + end;
    if end == "" {
      assert s + end == s;
    } else {
      assert (s + end)[..|s|] == s;
      assert TrimRight(s + end) == TrimRight(s);
    }
  }

  lemma LabelQuotes(mark: string, name: string)
    requires !Plain(name)
    ensures var l := Label(mark, name); l != "" && l[0] == '"' && l[|l| - 1] == '"'
  {
    hide Plain, Quote;
  }

  lemma StripQuoted(s: string, end: string)
    requires s != "" && s[0] == '"' == s[|s| - 1] && Free(s, '\t') && (end == "" || end == "\t")
    ensures D.StripPrefix(s + end) == Some(s)
  {
    QuotesHold(s, end);
    assert Cut(s, '\t').0 == s;
    hide TrimSpace, Cut;
  }

  lemma QuotedReads(mark: string, name: string)
    requires mark == "a/" || mark == "b/"
    requires !Plain(name)
    ensures var l := Label(mark, name); D.StripPrefix(l + NameEnd(l)) == Some(l)
  {
    var l := Label(mark, name);
    LabelIsLonger(mark, name);
    LabelQuotes(mark, name);
    hide Label, Plain, D.StripPrefix;
    StripQuoted(l, NameEnd(l));
  }

  /** A printed name line, with the tab git ends it with when it holds a space, is read as
      the name exactly when the name is plain and ends in no white space. */
  lemma NameLineRead(mark: string, name: string)
    requires mark == "a/" || mark == "b/"
    ensures var l := Label(mark, name);
            D.StripPrefix(l + NameEnd(l)) == Some(ReadName(mark, name)) &&
            (D.StripPrefix(l + NameEnd(l)) == Some(name) <==> Plain(name) && EndsTight(name))
  {
    var l := Label(mark, name);
    ReadNameKept(mark, name);
    if Plain(name) {
      var whole := name + NameEnd(l);
      assert l + NameEnd(l) == mark + whole;
      StripMarked(mark, whole);
      TrimmedEnd(name, NameEnd(l));
    } else {
      QuotedReads(mark, name);
    }
    hide TrimRight, D.StripPrefix, NameEnd, EndsTight, Plain, Label;
  }

  lemma TrimmedEnd(name: string, end: string)
    requires end == "" || end == "\t"
    ensures TrimRight(name + end) == TrimRight(name)
  {
    assert IsSpace('\t');
    hide IsSpace;
    var whole := name + end;
    if end != "" {
      assert whole[..|whole| - 1] == name;
    } else {
      assert whole == name;
    }
  }

  // ---- the header line ----

  /** An occurrence of " b/" is three characters. */
  lemma SideMark(s: string, j: nat)
    requires j <= |s|
    ensures " b/" <= s[j..] <==> j + 3 <= |s| && s[j] == ' ' && s[j + 1] == 'b' && s[j + 2] == '/'
  {
    if j + 3 <= |s| {
      var t := s[j..];
      assert t[0] == s[j] && t[1] == s[j + 1] && t[2] == s[j + 2];
      if s[j] == ' ' && s[j + 1] == 'b' && s[j + 2] == '/' {
        assert t[..3] == " b/";
      }
    }
  }

  function PlainSides(oldPath: string, path: string): string {
    "a/" + oldPath + " b/" + path
  }

  /** The header is cut at the first " b/", inside the old path when it holds one. */
  lemma HeaderCut(oldPath: string, path: string)
    ensures var i := Index(PlainSides(oldPath, path), " b/");
            if Contains(oldPath, " b/") then 2 <= i < |oldPath| + 2 else i == |oldPath| + 2
  {
    hide Index;
    var s := PlainSides(oldPath, path);
    var n := |oldPath| + 2;
    assert s[n] == ' ' && s[n + 1] == 'b' && s[n + 2] == '/';
    SideMark(s, n);
    forall j | 0 <= j < n
      ensures " b/" <= s[j..] <==> 2 <= j && " b/" <= oldPath[j - 2..]
    {
      SideMark(s, j);
      if j >= 2 {
        SideMark(oldPath, j - 2);
        CharsOfSides(oldPath, path, j);
      } else {
        assert s[0] == 'a' && s[1] == '/';
      }
    }
    FirstOfSides(s, oldPath, n);
  }

  /** Near the end of the old path the three characters cannot be " b/". */
  lemma CharsOfSides(oldPath: string, path: string, j: nat)
    requires 2 <= j < |oldPath| + 2
    ensures var s := PlainSides(oldPath, path);
            j + 3 <= |s| && s[j] == oldPath[j - 2]
            && (j + 1 < |oldPath| + 2 ==> s[j + 1] == oldPath[j - 1])
            && (j + 1 >= |oldPath| + 2 ==> s[j + 1] == ' ')
            && (j + 2 < |oldPath| + 2 ==> s[j + 2] == oldPath[j])
            && (j + 2 == |oldPath| + 2 ==> s[j + 2] == ' ')
  {
  }

  lemma FirstOfSides(s: string, oldPath: string, n: nat)
    requires n == |oldPath| + 2 <= |s|
    requires " b/" <= s[n..]
    requires forall j :: 0 <= j < n ==> (" b/" <= s[j..] <==> 2 <= j && " b/" <= oldPath[j - 2..])
    ensures var i := Index(s, " b/");
            if Contains(oldPath, " b/") then 2 <= i < n else i == n
  {
    var k := Index(oldPath, " b/");
    if k >= 0 {
      assert |oldPath[k..]| >= 3;
      assert " b/" <= s[k + 2..];
    } else {
      IndexAt(s, " b/", n);
    }
  }

  /** A header whose old path holds no " b/" gives both names back, without their
      trailing white space. */
  lemma HeaderNames(oldPath: string, path: string)
    requires !Contains(oldPath, " b/")
    ensures D.SplitGitHeader(PlainSides(oldPath, path)) == (TrimRight(oldPath), TrimRight(path))
  {
    hide Index, D.StripPrefix, TrimSpace, IsSpace;
    var s := PlainSides(oldPath, path);
    HeaderCut(oldPath, path);
    var i := |oldPath| + 2;
    assert s[..i] == "a/" + oldPath;
    assert s[i + 1..] == "b/" + path;
    StripMarked("a/", oldPath);
    StripMarked("b/", path);
  }

  /** One path that holds " b/" gives neither name back: the first is too short, and
      the second another, too long when the path ends in no white space. */
  lemma HeaderMisread(path: string)
    requires Contains(path, " b/")
    ensures var names := D.SplitGitHeader(PlainSides(path, path));
            |names.0| < |path| && names.1 != path && (EndsTight(path) ==> |path| < |names.1|)
  {
    var before, after := CutEarly(path);
    hide D.SplitGitHeader, PlainSides, Contains;
    TrimRightTight(after);
    assert path != "" ==> after[|after| - 1] == path[|path| - 1] by {
      assert path != "" ==> after[|after| - |path|..][|path| - 1] == path[|path| - 1];
    }
  }

  lemma CutEarly(path: string) returns (before: string, after: string)
    requires Contains(path, " b/")
    ensures D.SplitGitHeader(PlainSides(path, path)) == (TrimRight(before), TrimRight(after))
    ensures |before| < |path| < |after| && after[|after| - |path|..] == path && path != ""
  {
    HeaderCut(path, path);
    hide Index, D.StripPrefix, TrimRight;
    var s := PlainSides(path, path);
    var i := Index(s, " b/");
    SideMark(s, i);
    before, after := s[2..i], s[i + 3..];
    assert s[..i] == "a/" + before;
    assert s[i + 1..] == "b/" + after;
    StripMarked("a/", before);
    StripMarked("b/", after);
    assert s[|s| - |path|..] == path;
  }

  /** Each name of a file the header alone names is right exactly when its path holds
      no " b/" and ends in no white space. */
  lemma HeaderNamesOnePath(path: string)
    ensures var names := D.SplitGitHeader(PlainSides(path, path));
            var kept := !Contains(path, " b/") && EndsTight(path);
            (names.0 == path <==> kept) && (names.1 == path <==> kept)
  {
    TrimRightTight(path);
    if Contains(path, " b/") {
      HeaderMisread(path);
    } else {
      HeaderNames(path, path);
    }
  }

  /** A header whose names are quoted gives a new name that is too long. */
  lemma HeaderQuoted(name: string)
    requires !Plain(name)
    ensures |D.SplitGitHeader(Label("a/", name) + " " + Label("b/", name)).1| > |name|
  {
    var a, b := Label("a/", name), Label("b/", name);
    LabelIsLonger("a/", name);
    LabelIsLonger("b/", name);
    LabelChars(name);
    hide Label, Plain, Index, D.SplitGitHeader;
    FirstSide(a, b);
    QuotedSides(a, b);
  }

  /** What is read from it: no old name and the whole text for a new one where " b/"
      stands nowhere in it, and otherwise the text after the first, with a beginning
      of the text before it. */
  lemma HeaderQuotedNames(name: string)
    requires !Plain(name)
    ensures var s := Label("a/", name) + " " + Label("b/", name);
      var names := D.SplitGitHeader(s);
      var i := Index(s, " b/");
      if i < 0 then names == ("", s)
      else i + 3 <= |s| && names.1 == s[i + 3..] && names.0 <= s[..i]
  {
    var a, b := Label("a/", name), Label("b/", name);
    LabelChars(name);
    hide *;
    var s := a + " " + b;
    FirstSide(a, b);
    if Index(s, " b/") < 0 {
      NoSideMark(s);
    } else {
      MarkedSides(a, b);
    }
  }

  lemma NoSideMark(s: string)
    requires s != "" && s[0] == '"' == s[|s| - 1] && Index(s, " b/") < 0
    ensures D.SplitGitHeader(s) == ("", s)
  {
    hide TrimSpace;
    QuotesHold(s, "");
    assert s + "" == s;
  }

  lemma MarkedSides(a: string, b: string)
    requires a != "" && a[0] == '"' && |b| >= 4 && b[|b| - 1] == '"' && 0 <= Index(a + " " + b, " b/") < |a|
    ensures var s := a + " " + b;
      var i := Index(s, " b/");
      i + 3 <= |s| && D.SplitGitHeader(s).1 == s[i + 3..] && D.SplitGitHeader(s).0 <= s[..i]
  {
    hide Index, TrimSpace, D.StripPrefix;
    var s := a + " " + b;
    var i := Index(s, " b/");
    SideMark(s, i);
    var t := s[i + 1..];
    assert t[|t| - 1] == '"' && t[0] == 'b' && t[1] == '/';
    LongSide(t);
    assert t[2..] == s[i + 3..];
    QuotedBeginning(s[..i]);
  }

  lemma QuotedBeginning(s: string)
    requires s == "" || s[0] == '"'
    ensures D.StripPrefix(s).GetOr("") <= s
  {
    if s != "" {
      assert !IsSpace('"');
      hide IsSpace;
      assert TrimLeft(s) == s;
      var r := TrimSpace(s);
      assert r <= s;
      assert r != "" ==> r[0] == '"';
    }
  }

  lemma QuotedSides(a: string, b: string)
    requires a != "" && a[0] == '"' && |b| >= 4 && b[|b| - 1] == '"' && Index(a + " " + b, " b/") < |a|
    ensures |D.SplitGitHeader(a + " " + b).1| >= |b| - 1
  {
    hide Index, TrimSpace, D.StripPrefix;
    var s := a + " " + b;
    var i := Index(s, " b/");
    if i < 0 {
      QuotesHold(s, "");
      assert s + "" == s;
    } else {
      SideMark(s, i);
      var t := s[i + 1..];
      assert t[|t| - 1] == '"' && t[0] == 'b' && t[1] == '/';
      LongSide(t);
    }
  }

  lemma LabelChars(name: string)
    requires !Plain(name)
    ensures var a, b := Label("a/", name), Label("b/", name);
            |a| == |b| >= 4 && a[0] == b[0] == '"' && a[|a| - 1] == b[|b| - 1] == '"' && a[1] == 'a' && b[1] == 'b' &&
            a[2] == b[2] == '/' && forall k :: 3 <= k < |a| ==> a[k] == b[k]
  {
    hide Plain, Quote;
  }

  /** A " b/" of the second side stands in the first as well. */
  lemma SecondSide(a: string, b: string, j: nat)
    requires |a| == |b| >= 4 && b[0] == '"' && b[1] == 'b' && b[2] == '/' && forall k :: 3 <= k < |a| ==> a[k] == b[k]
    requires |a| < j <= |a| + 1 + |b|
    ensures var s := a + " " + b; " b/" <= s[j..] ==> " b/" <= s[j - |a| - 1..]
  {
    var s := a + " " + b;
    var m := j - |a| - 1;
    SideMark(s, j);
    SideMark(s, m);
    if j + 3 <= |s| {
      assert s[j] == b[m] && s[j + 1] == b[m + 1] && s[j + 2] == b[m + 2];
      if m >= 3 {
        assert s[m] == a[m] && s[m + 1] == a[m + 1] && s[m + 2] == a[m + 2];
      }
    }
  }

  /** So the first is found in the first side when it is found at all. */
  lemma FirstSide(a: string, b: string)
    requires |a| == |b| >= 4 && b[0] == '"' && b[1] == 'b' && b[2] == '/' && forall k :: 3 <= k < |a| ==> a[k] == b[k]
    ensures Index(a + " " + b, " b/") < |a|
  {
    var s := a + " " + b;
    SideMark(s, |a|);
    assert s[|a| + 1] == b[0];
    var i := Index(s, " b/");
    if i > |a| {
      SecondSide(a, b, i);
    }
  }

  lemma LongSide(t: string)
    requires |t| >= 3 && t[0] == 'b' && t[1] == '/' && t[|t| - 1] == '"'
    ensures D.StripPrefix(t) == Some(t[2..])
  {
    assert !IsSpace('"') && !IsSpace('b');
    hide IsSpace;
    TrimSpaceTight(t);
    assert t[..2] == "b/";
  }
}

/** What a browser makes of the cookie lines of a response (section 5 of RFC 6265),
    with a value's quotes taken off as Go takes them off when it reads one. */
module Cookies {
  import opened Text

  predicate Names(line: string, name: string) {
    HasPrefix(line, name + "=")
  }

  /** What follows the name, up to the first semicolon, and the attributes after it. */
  function Parts(line: string, name: string): (string, seq<string>)
    requires Names(line, name)
  {
    var cut := Cut(line[|name| + 1..], ';');
    (cut.0, Split(cut.1, ';'))
  }

  function Unquoted(value: string): string {
    if |value| >= 2 && value[0] == '"' && value[|value| - 1] == '"' then value[1..|value| - 1] else value
  }

  /** An age of zero takes the cookie away, and no cookie reads as an empty value. */
  function Read(line: string, name: string): string
    requires Names(line, name)
  {
    var parts := Parts(line, name);
    if " Max-Age=0" in parts.1 then "" else Unquoted(parts.0)
  }

  /** The value a browser holds after a response: the last line of that name decides,
      and without one it holds what it held before. */
  function Jar(name: string, before: string, lines: seq<string>): string {
    if lines == [] then before
    else
      var last := lines[|lines| - 1];
      if Names(last, name) then Read(last, name) else Jar(name, before, lines[..|lines| - 1])
  }

  lemma JarLast(name: string, before: string, lines: seq<string>, line: string)
    ensures Jar(name, before, lines + [line]) ==
            if Names(line, name) then Read(line, name) else Jar(name, before, lines)
  {
    assert (lines + [line])[..|lines|] == lines;
  }

  /** A line laid out as a name, a value and its attributes is read as those. */
  lemma LineParts(name: string, value: string, attributes: seq<string>)
    requires Free(value, ';') && attributes != [] && AllFree(attributes, ';')
    ensures var line := name + "=" + (value + ";" + Join(attributes, ';'));
      Names(line, name) && Parts(line, name) == (value, attributes)
  {
    var tail := value + ";" + Join(attributes, ';');
    var line := name + "=" + tail;
    hide Join, Split, Cut;
    assert line[..|name| + 1] == name + "=";
    assert line[|name| + 1..] == tail;
    assert tail == value + [';'] + Join(attributes, ';');
    CutConcat(value, ';', Join(attributes, ';'));
    SplitJoin(attributes, ';');
  }
}

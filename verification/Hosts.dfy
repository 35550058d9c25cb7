/** The hosts-file parser and printer (internal/providers/domainprovider/hosts/hosts.go). */
module Hosts {
  import opened Wrappers
  import opened Text

  const MANAGED_IP := "127.0.0.1"
  const MANAGED_MARKER := "volt-managed"

  datatype DataLine = DataLine(ip: string, hosts: seq<string>, comment: string, managed: bool)

  /** One physical line; data is None for anything that is not "<ip> <host...> [# comment]". */
  datatype Line = Line(raw: string, data: Option<DataLine>)

  /** The text before the first '#', and the text after it. */
  function Body(trimmed: string): string {
    var idx := Index(trimmed, '#');
    if idx >= 0 then Trim(trimmed[..idx]) else trimmed
  }

  function Comment(trimmed: string): string {
    var idx := Index(trimmed, '#');
    if idx >= 0 then Trim(trimmed[idx + 1..]) else ""
  }

  predicate IsManaged(comment: string) {
    comment == MANAGED_MARKER
  }

  function ParseDataLine(raw: string): Option<DataLine> {
    var trimmed := Trim(raw);
    if trimmed == [] || trimmed[0] == '#' then None
    else
      var fields := Fields(Body(trimmed));
      if |fields| < 2 then None
      else Some(DataLine(fields[0], fields[1..], Comment(trimmed), IsManaged(Comment(trimmed))))
  }

  function ParseLine(raw: string): Line {
    Line(raw, ParseDataLine(raw))
  }

  function RenderData(d: DataLine): string {
    var s := d.ip + "\t" + Join(d.hosts, ' ');
    if d.comment != "" then s + "\t# " + d.comment else s
  }

  function RenderLine(l: Line): string {
    match l.data
    case Some(d) => RenderData(d)
    case None => l.raw
  }

  function ParseLines(raws: seq<string>): (lines: seq<Line>)
    ensures |lines| == |raws| && forall i :: 0 <= i < |raws| ==> lines[i] == ParseLine(raws[i])
  {
    seq(|raws|, i requires 0 <= i < |raws| => ParseLine(raws[i]))
  }

  function RenderLines(lines: seq<Line>): (raws: seq<string>)
    ensures |raws| == |lines| && forall i :: 0 <= i < |lines| ==> raws[i] == RenderLine(lines[i])
  {
    seq(|lines|, i requires 0 <= i < |lines| => RenderLine(lines[i]))
  }

  function Parsed(content: string): seq<Line> {
    if content == "" then [] else ParseLines(Split(content, '\n'))
  }

  function Rendered(lines: seq<Line>): string {
    var s := Join(RenderLines(lines), '\n');
    if s != "" && s[|s| - 1] != '\n' then s + "\n" else s
  }

  method ParseAll(content: string) returns (lines: seq<Line>)
    ensures lines == Parsed(content)
  {
    if content == "" {
      return [];
    }
    var rawLines := Split(content, '\n');
    lines := [];
    for i := 0 to |rawLines|
      invariant |lines| == i && forall k :: 0 <= k < i ==> lines[k] == ParseLine(rawLines[k])
    {
      lines := lines + [Line(rawLines[i], ParseDataLine(rawLines[i]))];
    }
    assert lines == ParseLines(rawLines);
  }

  method Render(lines: seq<Line>) returns (s: string)
    ensures s == Rendered(lines)
  {
    var rendered: seq<string> := [];
    for i := 0 to |lines|
      invariant |rendered| == i && forall k :: 0 <= k < i ==> rendered[k] == RenderLine(lines[k])
    {
      rendered := rendered + [if lines[i].data.Some? then RenderData(lines[i].data.value) else lines[i].raw];
    }
    assert rendered == RenderLines(lines);
    s := Join(rendered, '\n');
    if s != "" && s[|s| - 1] != '\n' {
      s := s + "\n";
    }
  }

  // ------------------------------------------------------------- one line, both ways

  predicate IsWord(s: string) {
    s != [] && NoSpace(s) && Lacks(s, '#')
  }

  /** What the parser can produce. */
  ghost predicate WellFormed(d: DataLine) {
    && IsWord(d.ip)
    && d.hosts != [] && (forall i :: 0 <= i < |d.hosts| ==> IsWord(d.hosts[i]))
    && Trimmed(d.comment) && Lacks(d.comment, '\n')
    && (d.managed <==> d.comment == "volt-managed")
  }

  ghost predicate WellFormedLine(l: Line) {
    match l.data
    case Some(d) => WellFormed(d)
    case None => Lacks(l.raw, '\n') && ParseDataLine(l.raw) == None
  }

  lemma BodyLacksHash(t: string)
    ensures Lacks(Body(t), '#')
  {
    var idx := Index(t, '#');
    IndexFinds(t, '#');
    if idx >= 0 { TrimLacks(t[..idx], '#'); }
  }

  lemma CommentIsClean(t: string)
    ensures Trimmed(Comment(t))
    ensures Lacks(t, '\n') ==> Lacks(Comment(t), '\n')
  {
    var idx := Index(t, '#');
    if idx >= 0 {
      TrimIsTrimmed(t[idx + 1..]);
      if Lacks(t, '\n') {
        assert Lacks(t[idx + 1..], '\n');
        TrimLacks(t[idx + 1..], '\n');
      }
    }
  }

  lemma FieldsAreClean(body: string)
    requires Lacks(body, '#')
    ensures forall i :: 0 <= i < |Fields(body)| ==> IsWord(Fields(body)[i])
  {
  }

  lemma BuiltIsWellFormed(fields: seq<string>, comment: string)
    requires |fields| >= 2 && forall i :: 0 <= i < |fields| ==> IsWord(fields[i])
    requires Trimmed(comment) && Lacks(comment, '\n')
    ensures WellFormed(DataLine(fields[0], fields[1..], comment, IsManaged(comment)))
  {
  }

  lemma ParsedIsWellFormed(raw: string)
    requires Lacks(raw, '\n')
    ensures WellFormedLine(ParseLine(raw))
  {
    var trimmed := Trim(raw);
    TrimLacks(raw, '\n');
    if ParseDataLine(raw).Some? {
      CommentIsClean(trimmed);
      BodyLacksHash(trimmed);
      FieldsAreClean(Body(trimmed));
      BuiltIsWellFormed(Fields(Body(trimmed)), Comment(trimmed));
    }
  }

  /** A line of words separated by single spaces. */
  lemma {:induction false} FieldsOfJoin(words: seq<string>)
    requires words != [] && forall i :: 0 <= i < |words| ==> IsWord(words[i])
    ensures Fields(Join(words, ' ')) == words
  {
    if |words| == 1 {
      FieldsOfWord(words[0], []);
      assert words[0] + [] == words[0];
    } else {
      var rest := Join(words[1..], ' ');
      FieldsOfJoin(words[1..]);
      var tail := [' '] + rest;
      assert tail[1..] == rest && words[0] + [' '] + rest == words[0] + tail;
      FieldsOfWord(words[0], tail);
    }
  }

  predicate CleanText(s: string) {
    s != [] && Trimmed(s) && Lacks(s, '#') && Lacks(s, '\n')
  }

  lemma CleanAround(word: string, space: char, rest: string)
    requires IsWord(word) && space != '#' && space != '\n' && CleanText(rest)
    ensures CleanText(word + [space] + rest)
  {
  }

  lemma {:induction false} JoinIsClean(words: seq<string>)
    requires words != [] && forall i :: 0 <= i < |words| ==> IsWord(words[i])
    ensures CleanText(Join(words, ' '))
  {
    if |words| > 1 {
      JoinIsClean(words[1..]);
      CleanAround(words[0], ' ', Join(words[1..], ' '));
    }
  }

  /** The part before the comment. */
  function Core(d: DataLine): string {
    d.ip + "\t" + Join(d.hosts, ' ')
  }

  lemma CoreParses(d: DataLine)
    requires WellFormed(d)
    ensures CleanText(Core(d)) && Fields(Core(d)) == [d.ip] + d.hosts
  {
    var rest := Join(d.hosts, ' ');
    JoinIsClean(d.hosts);
    CleanAround(d.ip, '\t', rest);
    FieldsOfJoin(d.hosts);
    var tail := ['\t'] + rest;
    assert tail[1..] == rest && Core(d) == d.ip + tail;
    FieldsOfWord(d.ip, tail);
  }

  /** With a comment: the core, a tab, '#', a space, the comment. */
  lemma CommentedLine(core: string, comment: string)
    requires core != [] && Trimmed(core) && Lacks(core, '#') && comment != [] && Trimmed(comment)
    ensures var raw := core + "\t# " + comment;
      Trim(raw) == raw && raw[0] == core[0] && Body(raw) == core && Comment(raw) == comment
  {
    var raw := core + "\t# " + comment;
    assert raw[|raw| - 1] == comment[|comment| - 1] && raw[0] == core[0];
    TrimOfTrimmed(raw);
    var front, back := core + ['\t'], [' '] + comment;
    assert raw == front + ['#'] + back;
    IndexSkips(front, '#', back);
    assert raw[..|front|] == front && raw[|front| + 1..] == back;
    TrimSpaceAfter(core, '\t');
    TrimSpaceBefore(comment, ' ');
  }

  lemma PlainLine(core: string)
    requires core != [] && Trimmed(core) && Lacks(core, '#')
    ensures Trim(core) == core && Body(core) == core && Comment(core) == ""
  {
    TrimOfTrimmed(core);
    IndexAbsent(core, '#');
  }

  /** Printing a data line and parsing it again gives the same data. */
  lemma ParseRender(d: DataLine)
    requires WellFormed(d)
    ensures ParseDataLine(RenderData(d)) == Some(d)
    ensures RenderData(d) != [] && Lacks(RenderData(d), '\n')
  {
    CoreParses(d);
    assert Core(d)[0] != '#';
    if d.comment == "" {
      PlainLine(Core(d));
    } else {
      CommentedLine(Core(d), d.comment);
    }
  }

  // ------------------------------------------------------------ whole files, both ways

  ghost predicate WellFormedFile(lines: seq<Line>) {
    forall i :: 0 <= i < |lines| ==> WellFormedLine(lines[i])
  }

  lemma ParsedFileIsWellFormed(content: string)
    ensures WellFormedFile(Parsed(content))
    ensures content != "" ==> Parsed(content) != []
  {
    SplitLacks(content, '\n');
    forall i | 0 <= i < |Parsed(content)| ensures WellFormedLine(Parsed(content)[i]) {
      ParsedIsWellFormed(Split(content, '\n')[i]);
    }
  }

  const BLANK := Line("", None)

  /** A line as it stands in the file after it was printed. */
  function Reread(l: Line): Line {
    Line(RenderLine(l), l.data)
  }

  function RereadAll(lines: seq<Line>): (r: seq<Line>)
    ensures |r| == |lines| && forall i :: 0 <= i < |lines| ==> r[i] == Reread(lines[i])
  {
    seq(|lines|, i requires 0 <= i < |lines| => Reread(lines[i]))
  }

  lemma RereadLine(l: Line)
    requires WellFormedLine(l)
    ensures ParseLine(RenderLine(l)) == Reread(l) && Lacks(RenderLine(l), '\n')
    ensures RenderLine(l) == "" ==> l.data == None
    ensures WellFormedLine(Reread(l)) && RenderLine(Reread(l)) == RenderLine(l)
  {
    if l.data.Some? { ParseRender(l.data.value); }
  }

  lemma BlankParses()
    ensures ParseLine("") == BLANK
  {
  }

  /** Whether printing must add a newline at the end. */
  predicate NeedsNewline(lines: seq<Line>)
    requires lines != []
  {
    RenderLine(lines[|lines| - 1]) != ""
  }

  lemma {:induction false} JoinedEnd(parts: seq<string>)
    requires parts != [] && forall i :: 0 <= i < |parts| ==> Lacks(parts[i], '\n')
    ensures var s := Join(parts, '\n');
      && (s == "" <==> |parts| == 1 && parts[0] == "")
      && (s != "" ==> (s[|s| - 1] == '\n' <==> parts[|parts| - 1] == ""))
  {
    if |parts| > 1 {
      var init, last := parts[..|parts| - 1], parts[|parts| - 1];
      assert parts == init + [last];
      JoinAppend(init, '\n', last);
      assert last != "" ==> last[|last| - 1] in last;
    } else if parts[0] != "" {
      assert parts[0][|parts[0]| - 1] in parts[0];
    }
  }

  /** A file that prints as nothing at all: no line, or one empty line. */
  predicate PrintsNothing(lines: seq<Line>) {
    lines == [] || (|lines| == 1 && RenderLine(lines[0]) == "")
  }

  /** The printed lines, with the empty one after the last newline. */
  function Printed(lines: seq<Line>): seq<string>
    requires lines != []
  {
    if NeedsNewline(lines) then RenderLines(lines) + [""] else RenderLines(lines)
  }

  lemma RenderedIsJoin(lines: seq<Line>)
    requires forall i :: 0 <= i < |lines| ==> Lacks(RenderLine(lines[i]), '\n')
    ensures PrintsNothing(lines) ==> Rendered(lines) == ""
    ensures !PrintsNothing(lines) ==> Rendered(lines) == Join(Printed(lines), '\n') != ""
  {
    if lines != [] {
      var raws := RenderLines(lines);
      JoinedEnd(raws);
      JoinAppend(raws, '\n', "");
      assert Join(raws, '\n') + ['\n'] + "" == Join(raws, '\n') + "\n";
    }
  }

  lemma WellFormedPrints(lines: seq<Line>)
    requires WellFormedFile(lines)
    ensures forall i :: 0 <= i < |lines| ==>
      Lacks(RenderLine(lines[i]), '\n') && ParseLine(RenderLine(lines[i])) == Reread(lines[i])
  {
    forall i | 0 <= i < |lines|
      ensures Lacks(RenderLine(lines[i]), '\n') && ParseLine(RenderLine(lines[i])) == Reread(lines[i])
    {
      RereadLine(lines[i]);
    }
  }

  /** The file after it was printed and parsed again. */
  function Reparsed(lines: seq<Line>): seq<Line> {
    if PrintsNothing(lines) then []
    else RereadAll(lines) + if NeedsNewline(lines) then [BLANK] else []
  }

  lemma ParsedRendered(lines: seq<Line>)
    requires WellFormedFile(lines)
    ensures Parsed(Rendered(lines)) == Reparsed(lines)
  {
    WellFormedPrints(lines);
    RenderedIsJoin(lines);
    if !PrintsNothing(lines) {
      var all := Printed(lines);
      SplitJoin(all, '\n');
      BlankParses();
      ParsePrinted(lines, all);
    }
  }

  lemma ParsePrinted(lines: seq<Line>, all: seq<string>)
    requires lines != [] && all == Printed(lines) && ParseLine("") == BLANK
    requires forall i :: 0 <= i < |lines| ==> ParseLine(RenderLine(lines[i])) == Reread(lines[i])
    ensures ParseLines(all) == RereadAll(lines) + if NeedsNewline(lines) then [BLANK] else []
  {
  }

  /**
   Printing a parsed file and parsing it again gives the same data lines in the same places,
   the same text on every other line, and at most one more line, which is blank.
   */
  lemma RenderParseKeepsLines(content: string)
    ensures var a, b := Parsed(content), Parsed(Rendered(Parsed(content)));
      && |a| <= |b| <= |a| + 1
      && (forall i :: 0 <= i < |a| ==> b[i].data == a[i].data && (a[i].data == None ==> b[i].raw == a[i].raw))
      && (|b| > |a| ==> b[|a|] == BLANK)
  {
    ParsedFileIsWellFormed(content);
    NotOneBlank(content);
    ParsedRendered(Parsed(content));
  }

  /** A parsed file never consists of one empty line. */
  lemma NotOneBlank(content: string)
    ensures PrintsNothing(Parsed(content)) ==> Parsed(content) == []
  {
  }

  /** Printing settles after one round. */
  lemma RenderParseIsIdempotent(content: string)
    ensures var once := Rendered(Parsed(content)); Rendered(Parsed(once)) == once
  {
    var a := Parsed(content);
    ParsedFileIsWellFormed(content);
    NotOneBlank(content);
    ParsedRendered(a);
    if a != [] {
      RenderReparsed(a);
    }
  }

  lemma RenderReparsed(lines: seq<Line>)
    requires WellFormedFile(lines) && !PrintsNothing(lines)
    ensures Rendered(Reparsed(lines)) == Rendered(lines)
  {
    var b, p := Reparsed(lines), Printed(lines);
    WellFormedPrints(lines);
    RenderedIsJoin(lines);
    forall i | 0 <= i < |b| ensures RenderLine(b[i]) == p[i] && Lacks(p[i], '\n') {
      if i < |lines| { RereadLine(lines[i]); }
    }
    assert RenderLines(b) == p;
    RenderedIsJoin(b);
  }
}

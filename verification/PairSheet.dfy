/**
 * The restates pair sheet (scripts/dream-route-restates-pairs.ts): printed for
 * an operator to label, then read back. Every content line is quoted, so content
 * cannot pass for structure, with one gap: quoting splits on newline only, while
 * the reader's multiline `^` also starts a line after CR, U+2028 and U+2029.
 */
module PairSheet {
  import opened Wrappers
  import opened Text

  const HEADER := "## Pair "

  datatype RouteCandidate = RouteCandidate(id: string, operatorText: Option<string>, content: string)

  datatype CandidatePair = CandidatePair(item: RouteCandidate, member: RouteCandidate)

  /** An undecided pair has no label. */
  datatype SheetEntry = SheetEntry(itemId: string, memberId: string, decided: Option<bool>)

  // --- Printing ---

  function QuoteLine(line: string): string {
    if line == "" then ">" else "> " + line
  }

  function QuoteLines(lines: seq<string>): (r: seq<string>)
    ensures |r| == |lines|
  {
    if lines == [] then [] else [QuoteLine(lines[0])] + QuoteLines(lines[1..])
  }

  function QuoteContent(text: string): seq<string> {
    QuoteLines(SplitLines(text))
  }

  function Quote(text: Option<string>): seq<string> {
    if text.None? || Trim(text.value) == "" then ["> not recorded"] else QuoteContent(text.value)
  }

  /** The lines of one section after its header, with `mark` on the label line. */
  function Body(pair: CandidatePair, mark: string): seq<string> {
    ["", "- item: " + pair.item.id, "- member: " + pair.member.id] + Quoted(pair) + ["label: " + mark]
  }

  function Block(caption: string, lines: seq<string>): seq<string> {
    ["", caption] + lines
  }

  function Quoted(pair: CandidatePair): seq<string> {
    Captioned("Item, operator said:", "Item content:", "Member, operator said:", "Member content:", pair)
  }

  function Captioned(a: string, b: string, c: string, d: string, pair: CandidatePair): seq<string> {
    Block(a, Quote(pair.item.operatorText)) + Block(b, QuoteContent(pair.item.content))
    + Block(c, Quote(pair.member.operatorText)) + Block(d, QuoteContent(pair.member.content)) + [""]
  }

  function RenderPair(pair: CandidatePair, index: nat, mark: string): string {
    JoinLines([HEADER + Decimal(index + 1)] + Body(pair, mark))
  }

  /** The script's own guidance, in three lines. */
  function Guidance(): seq<string> { [GuidanceOne(), GuidanceTwo(), GuidanceThree()] }

  function GuidanceOne(): string {
    "Label each pair by " + "replacing `?` on its " + "`label:` line with " + "`yes` (the item says"
  }

  function GuidanceTwo(): string {
    "the same lasting " + "thing as the member," + " so keeping both " + "stores one memory " + "twice)"
  }

  function GuidanceThree(): string {
    "or `no`. Leave `?` " + "for undecided. Only " + "the `label:` lines " + "are read back."
  }

  /** The lines above the pairs; `guidance` is the fixed wording that says how to label. */
  function Head(guidance: seq<string>, source: string, count: nat): seq<string> {
    ["# Restates pair sheet (issue 1519)", "", "Source: " + source + ". Pairs: " + Decimal(count) + ".", ""] + guidance
  }

  function RenderPairs(pairs: seq<CandidatePair>, marks: seq<string>, index: nat): string
    requires |pairs| == |marks|
  {
    if pairs == [] then ""
    else "\n\n" + RenderPair(pairs[0], index, marks[0]) + RenderPairs(pairs[1..], marks[1..], index + 1)
  }

  /** A sheet whose label lines read `marks`, in order. */
  function SheetWith(source: string, pairs: seq<CandidatePair>, marks: seq<string>): string
    requires |pairs| == |marks|
  {
    Sheet(Head(Guidance(), source, |pairs|), pairs, marks, 0)
  }

  function Sheet(head: seq<string>, pairs: seq<CandidatePair>, marks: seq<string>, index: nat): string
    requires |pairs| == |marks|
  {
    JoinLines(head) + RenderPairs(pairs, marks, index) + "\n"
  }

  function RenderSheet(source: string, pairs: seq<CandidatePair>): string {
    SheetWith(source, pairs, seq(|pairs|, _ => "?"))
  }

  // --- Reading ---

  /** The text split at every header that starts a line, as the reader's expression splits it. */
  function Sections(atStart: bool, t: string): (r: seq<string>)
    ensures |r| >= 1
    decreases |t|
  {
    if t == "" then [""]
    else if atStart && HEADER <= t then [""] + Sections(false, t[|HEADER|..])
    else
      var rest := Sections(LineBreak(t[0]), t[1..]);
      [[t[0]] + rest[0]] + rest[1..]
  }

  function LineValue(lines: seq<string>, prefix: string): Option<string> {
    if lines == [] then None
    else if prefix <= lines[0] then Some(Trim(lines[0][|prefix|..]))
    else LineValue(lines[1..], prefix)
  }

  function ParseLabel(value: string): Option<Option<bool>> {
    if value == "yes" then Some(Some(true))
    else if value == "no" then Some(Some(false))
    else if value == "?" then Some(None)
    else None
  }

  /** An entry from the three values of a section, each of which may be missing. */
  function EntryFrom(pair: string, item: Option<string>, member: Option<string>, mark: Option<string>)
    : Result<SheetEntry, string>
  {
    if item.None? || member.None? || mark.None? then
      Err("pair " + pair + ": missing its item, member or label line")
    else
      match ParseLabel(mark.value)
      case None => Err("pair " + pair + ": label must be yes, no or ?, got \"" + mark.value + "\"")
      case Some(decided) => Ok(SheetEntry(item.value, member.value, decided))
  }

  function ParseSection(section: string): Result<SheetEntry, string> {
    var lines := SplitLines(section);
    EntryFrom(Trim(lines[0]), LineValue(lines, "- item: "), LineValue(lines, "- member: "), LineValue(lines, "label: "))
  }

  function ParseSections(sections: seq<string>): Result<seq<SheetEntry>, string> {
    if sections == [] then Ok([])
    else
      match ParseSection(sections[0])
      case Err(e) => Err(e)
      case Ok(entry) =>
        match ParseSections(sections[1..])
        case Err(e) => Err(e)
        case Ok(rest) => Ok([entry] + rest)
  }

  function ParseSheet(text: string): Result<seq<SheetEntry>, string> {
    ParseSections(Sections(true, text)[1..])
  }

  // --- Where headers are seen ---

  /** A line break with a header right behind it. */
  predicate HeaderAfter(t: string, i: nat) {
    i < |t| && LineBreak(t[i]) && HEADER <= t[i + 1..]
  }

  /** A header stands behind some line break of `t`. */
  ghost predicate BreaksOpen(t: string) { exists i: nat :: HeaderAfter(t, i) }

  /** Some header starts a line of `t`, given whether `t` begins one. */
  predicate Seen(atStart: bool, t: string)
    decreases |t|
  {
    t != "" && ((atStart && HEADER <= t) || Seen(LineBreak(t[0]), t[1..]))
  }

  lemma {:induction false} OneSection(atStart: bool, t: string)
    ensures |Sections(atStart, t)| == 1 <==> !Seen(atStart, t)
    ensures |Sections(atStart, t)| == 1 ==> Sections(atStart, t) == [t]
    decreases |t|
  {
    HeaderHasNoNewline();
    if t != "" && !(atStart && HEADER <= t) {
      OneSection(LineBreak(t[0]), t[1..]);
      assert [t[0]] + t[1..] == t;
    }
  }

  function Glue(a: seq<string>, b: seq<string>): seq<string>
    requires a != [] && b != []
  {
    a[..|a| - 1] + [a[|a| - 1] + b[0]] + b[1..]
  }

  lemma HeaderHasNoNewline()
    ensures forall i :: 0 <= i < |HEADER| ==> !LineBreak(HEADER[i])
    ensures '\n' !in HEADER && |HEADER| == 8
  {
  }

  /** Text that ends a line splits on its own. */
  lemma {:induction false} SectionsConcat(atStart: bool, x: string, y: string)
    requires x != "" && x[|x| - 1] == '\n'
    ensures Sections(atStart, x + y) == Glue(Sections(atStart, x), Sections(true, y))
    decreases |x|
  {
    HeaderHasNoNewline();
    var t := x + y;
    if HEADER <= t {
      assert forall k :: 0 <= k < |HEADER| ==> HEADER[k] == t[k] && t[k] in HEADER;
      assert t[|x| - 1] == '\n' && |x| > |HEADER|;
    }
    assert HEADER <= t <==> HEADER <= x by {
      if HEADER <= t { assert x[..|HEADER|] == t[..|HEADER|]; }
      if HEADER <= x { assert x[..|HEADER|] == t[..|HEADER|]; }
    }
    if atStart && HEADER <= x {
      assert t[|HEADER|..] == x[|HEADER|..] + y;
      SectionsConcat(false, x[|HEADER|..], y);
      GlueCons("", Sections(false, x[|HEADER|..]), Sections(true, y));
    } else if |x| == 1 {
      assert t[1..] == y && x[1..] == "" && t[0] == x[0] == '\n';
      var rest := Sections(LineBreak(x[0]), x[1..]);
      assert rest == [""] && ['\n'] + rest[0] == x;
      assert Sections(atStart, x) == [x];
      var r := Sections(true, y);
      GlueOne(x, r);
      assert Sections(atStart, t) == [[t[0]] + r[0]] + r[1..];
      assert [t[0]] == x;
    } else {
      assert t[1..] == x[1..] + y && t[0] == x[0];
      SectionsConcat(LineBreak(x[0]), x[1..], y);
      GlueHead(x[0], Sections(LineBreak(x[0]), x[1..]), Sections(true, y));
    }
  }

  lemma GlueOne(x: string, b: seq<string>)
    requires b != []
    ensures Glue([x], b) == [x + b[0]] + b[1..]
  {
    assert [x][..0] == [];
  }

  lemma GlueCons(s: string, a: seq<string>, b: seq<string>)
    requires a != [] && b != []
    ensures Glue([s] + a, b) == [s] + Glue(a, b)
  {
    assert ([s] + a)[..|a|] == [s] + a[..|a| - 1];
  }

  lemma GlueHead(c: char, a: seq<string>, b: seq<string>)
    requires a != [] && b != []
    ensures Glue([[c] + a[0]] + a[1..], b) == [[c] + Glue(a, b)[0]] + Glue(a, b)[1..]
  {
    var a' := [[c] + a[0]] + a[1..];
    if |a| == 1 {
      assert a' == [[c] + a[0]];
      assert [c] + (a[0] + b[0]) == ([c] + a[0]) + b[0];
    } else {
      assert a'[..|a| - 1] == [[c] + a[0]] + a[1..|a| - 1];
      assert Glue(a, b) == a[..|a| - 1] + [a[|a| - 1] + b[0]] + b[1..];
    }
  }

  /** A line that is no header itself and holds none behind a line break. */
  ghost predicate CleanLine(line: string) { !(HEADER <= line) && !BreaksOpen(line) }

  ghost predicate AllClean(lines: seq<string>) {
    lines == [] || (CleanLine(lines[0]) && AllClean(lines[1..]))
  }

  /** One line, and none the reader looks for. */
  predicate Passed(line: string) {
    '\n' !in line && (line == "" || line[0] == '>' || line[0] == 'I' || line[0] == 'M')
  }

  predicate AllPassed(lines: seq<string>) {
    lines == [] || (Passed(lines[0]) && AllPassed(lines[1..]))
  }

  lemma {:induction false} AllOfBoth(a: seq<string>, b: seq<string>)
    ensures AllClean(a + b) <==> AllClean(a) && AllClean(b)
    ensures AllPassed(a + b) <==> AllPassed(a) && AllPassed(b)
  {
    if a == [] {
      assert a + b == b;
    } else {
      AllOfBoth(a[1..], b);
      assert (a + b)[1..] == a[1..] + b;
    }
  }

  lemma AllCons(line: string, rest: seq<string>)
    ensures AllClean([line] + rest) <==> CleanLine(line) && AllClean(rest)
    ensures AllPassed([line] + rest) <==> Passed(line) && AllPassed(rest)
  {
    assert ([line] + rest)[1..] == rest;
  }

  lemma {:induction false} AllPassedAt(lines: seq<string>)
    requires AllPassed(lines)
    ensures forall l :: l in lines ==> Passed(l)
  {
    if lines != [] { AllPassedAt(lines[1..]); }
  }

  /** Text whose pieces start with `head` joined to the first piece of `rest`. */
  ghost predicate JoinsFirst(text: string, head: string, rest: string) {
    var r := Sections(true, rest);
    Sections(true, text) == [head + r[0]] + r[1..]
  }

  lemma {:induction false} CleanLinesJoin(lines: seq<string>, rest: string)
    requires AllClean(lines)
    ensures JoinsFirst(Unlines(lines) + rest, Unlines(lines), rest)
  {
    if lines == [] {
      assert Unlines(lines) + rest == rest && "" + Sections(true, rest)[0] == Sections(true, rest)[0];
    } else {
      CleanLinesJoin(lines[1..], rest);
      CleanLineFirst(lines[0], Unlines(lines[1..]) + rest);
      JoinsTwice(lines[0] + "\n", Unlines(lines[1..]), rest);
    }
  }

  lemma JoinsTwice(line: string, after: string, rest: string)
    requires JoinsFirst(after + rest, after, rest)
    requires JoinsFirst(line + (after + rest), line, after + rest)
    ensures JoinsFirst(line + after + rest, line + after, rest)
  {
    assert line + after + rest == line + (after + rest);
    var r := Sections(true, rest);
    assert line + (after + r[0]) == line + after + r[0];
  }

  lemma CleanLineFirst(line: string, rest: string)
    requires CleanLine(line)
    ensures JoinsFirst(line + "\n" + rest, line + "\n", rest)
  {
    CleanSplits(line);
    SectionsConcat(true, line + "\n", rest);
    GlueOne(line + "\n", Sections(true, rest));
  }

  /** How many headers are seen in a list of lines. */
  function Headers(lines: seq<string>): nat {
    if lines == [] then 0 else |Sections(true, lines[0] + "\n")| - 1 + Headers(lines[1..])
  }

  lemma {:induction false} HeadersCounted(lines: seq<string>)
    ensures |Sections(true, Unlines(lines))| == 1 + Headers(lines)
  {
    if lines != [] {
      HeadersCounted(lines[1..]);
      SectionsConcat(true, lines[0] + "\n", Unlines(lines[1..]));
    }
  }

  lemma {:induction false} HeadersAdd(a: seq<string>, b: seq<string>)
    ensures Headers(a + b) == Headers(a) + Headers(b)
  {
    if a == [] {
      assert a + b == b;
    } else {
      HeadersAdd(a[1..], b);
      assert (a + b)[1..] == a[1..] + b;
    }
  }

  // --- Which content lets a header through ---

  /** A header right after a line break other than newline. */
  ghost predicate Stray(text: string) {
    exists i: nat :: HeaderAfter(text, i) && text[i] != '\n'
  }

  lemma HeaderAfterShift(t: string, i: nat)
    requires t != ""
    ensures HeaderAfter(t, i + 1) == HeaderAfter(t[1..], i)
  {
    if i + 1 < |t| { assert t[i + 1 + 1..] == t[1..][i + 1..]; }
  }

  lemma StrayStep(t: string)
    requires t != ""
    ensures Stray(t) <==> (LineBreak(t[0]) && t[0] != '\n' && HEADER <= t[1..]) || Stray(t[1..])
  {
    if Stray(t[1..]) {
      var i: nat :| HeaderAfter(t[1..], i) && t[1..][i] != '\n';
      HeaderAfterShift(t, i);
      assert HeaderAfter(t, i + 1) && t[i + 1] != '\n';
    }
    if Stray(t) {
      var i: nat :| HeaderAfter(t, i) && t[i] != '\n';
      if i > 0 {
        HeaderAfterShift(t, i - 1);
        assert t[1..][i - 1] != '\n';
      }
    }
    if LineBreak(t[0]) && t[0] != '\n' && HEADER <= t[1..] { assert HeaderAfter(t, 0); }
  }

  /** A header is seen inside a text exactly when some line break has one behind it. */
  lemma {:induction false} SeenExactly(t: string)
    ensures Seen(false, t) <==> BreaksOpen(t)
  {
    if t != "" {
      SeenExactly(t[1..]);
      assert Seen(false, t) <==> (LineBreak(t[0]) && HEADER <= t[1..]) || Seen(false, t[1..]) by { AtStart(t[1..]); }
      if i: nat :| HeaderAfter(t[1..], i) {
        HeaderAfterShift(t, i);
        assert HeaderAfter(t, i + 1);
      }
      if i: nat :| HeaderAfter(t, i) {
        if i > 0 { HeaderAfterShift(t, i - 1); }
      }
      if LineBreak(t[0]) && HEADER <= t[1..] { assert HeaderAfter(t, 0); }
    }
  }

  lemma AtStart(t: string)
    ensures Seen(true, t) <==> HEADER <= t || Seen(false, t)
  {
    HeaderHasNoNewline();
  }

  /** A line is clean exactly when it splits into no further section. */
  lemma CleanSplits(line: string)
    ensures CleanLine(line) <==> !Seen(true, line + "\n")
    ensures CleanLine(line) <==> |Sections(true, line + "\n")| == 1
    ensures CleanLine(line) ==> Sections(true, line + "\n") == [line + "\n"]
  {
    HeaderHasNoNewline();
    assert line + "\n" == line + ['\n'] + [];
    SeenBefore(true, line, '\n', []);
    AtStart(line);
    SeenExactly(line);
    OneSection(true, line + "\n");
  }

  /** Nothing seen after a character no header holds leaves what was seen before it. */
  lemma {:induction false} SeenBefore(atStart: bool, s: string, c: char, rest: string)
    requires c !in HEADER && !Seen(LineBreak(c), rest)
    ensures Seen(atStart, s + [c] + rest) <==> Seen(atStart, s)
    decreases |s|
  {
    var t := s + [c] + rest;
    EndsNoHeader(s, c, rest);
    if s == "" {
      assert t[0] == c && t[1..] == rest;
      HeaderHasNoNewline();
    } else {
      assert t[0] == s[0] && t[1..] == s[1..] + [c] + rest;
      SeenBefore(LineBreak(s[0]), s[1..], c, rest);
    }
  }

  /** Text with no line break hides nothing of what follows it. */
  lemma BreaksPast(p: string, t: string)
    requires forall i :: 0 <= i < |p| ==> !LineBreak(p[i])
    ensures BreaksOpen(p + t) <==> BreaksOpen(t)
  {
    if i: nat :| HeaderAfter(t, i) {
      assert (p + t)[|p| + i + 1..] == t[i + 1..];
      assert HeaderAfter(p + t, |p| + i);
    }
    if i: nat :| HeaderAfter(p + t, i) {
      assert forall k :: 0 <= k < |p| ==> (p + t)[k] == p[k];
      assert i >= |p|;
      assert (p + t)[i + 1..] == t[i - |p| + 1..];
      assert HeaderAfter(t, i - |p|);
    }
  }

  /** A character no header holds ends every header before it. */
  lemma EndsNoHeader(s: string, c: char, rest: string)
    requires c !in HEADER
    ensures HEADER <= s + [c] + rest <==> HEADER <= s
  {
    var t := s + [c] + rest;
    if HEADER <= t {
      assert forall k :: 0 <= k < |HEADER| ==> HEADER[k] == t[k] && t[k] in HEADER;
      assert t[|s|] == c && |s| >= |HEADER|;
      assert s[..|HEADER|] == t[..|HEADER|];
    }
    if HEADER <= s { assert s[..|HEADER|] == t[..|HEADER|]; }
  }

  /** A text lets a header through exactly when one of its lines does. */
  lemma {:induction false} StrayByLine(text: string)
    ensures Stray(text) <==> exists line :: line in SplitLines(text) && Stray(line)
  {
    if text != "" {
      var lines := SplitLines(text[1..]);
      StrayByLine(text[1..]);
      StrayStep(text);
      if text[0] == '\n' {
        assert SplitLines(text) == [""] + lines;
      } else {
        HeaderHasNoNewline();
        PrefixOfFirstLine(HEADER, text[1..]);
        var first := [text[0]] + lines[0];
        StrayStep(first);
        assert first[1..] == lines[0];
        assert SplitLines(text) == [first] + lines[1..];
        assert lines == [lines[0]] + lines[1..];
      }
    }
  }

  /** A quoted line is clean exactly when it lets no header through. */
  lemma QuotedLineClean(line: string)
    requires '\n' !in line
    ensures CleanLine(QuoteLine(line)) <==> !Stray(line)
  {
    var t := QuoteLine(line);
    assert t[0] == '>' && !(HEADER <= t);
    if line == "" {
      assert t == ">" && |t| == 1;
    } else {
      BreaksPast("> ", line);
    }
  }

  lemma {:induction false} QuoteLinesClean(lines: seq<string>)
    requires forall k :: 0 <= k < |lines| ==> '\n' !in lines[k]
    ensures AllClean(QuoteLines(lines)) <==> forall line :: line in lines ==> !Stray(line)
    ensures AllPassed(QuoteLines(lines))
  {
    if lines != [] {
      QuotedLineClean(lines[0]);
      QuoteLinesClean(lines[1..]);
      assert lines == [lines[0]] + lines[1..];
      assert QuoteLines(lines)[1..] == QuoteLines(lines[1..]);
    }
  }

  lemma QuotedContentClean(text: string)
    ensures AllClean(QuoteContent(text)) <==> !Stray(text)
    ensures AllPassed(QuoteContent(text))
  {
    SplitLinesHaveNone(text);
    StrayByLine(text);
    QuoteLinesClean(SplitLines(text));
  }

  // --- The fixed lines ---

  /** A line with no break in it that is not itself a header. */
  lemma PlainLineClean(line: string)
    requires forall i :: 0 <= i < |line| ==> !LineBreak(line[i])
    requires line == "" || line[0] != '#' || (|line| > 1 && line[1] != '#')
    ensures CleanLine(line)
  {
    assert HEADER[0] == '#' && HEADER[1] == '#';
    assert line != "" && line[0] != '#' ==> !(HEADER <= line);
    assert |line| > 1 && line[1] != '#' ==> !(HEADER <= line);
  }

  /** What the cohort's ids are: one line with no white space at its ends. */
  predicate PlainId(id: string) {
    Trim(id) == id && forall i :: 0 <= i < |id| ==> !LineBreak(id[i])
  }

  predicate PlainIds(pair: CandidatePair) { PlainId(pair.item.id) && PlainId(pair.member.id) }

  /** Content or an operator's words with a header the quoting does not cover. */
  ghost predicate StrayPair(pair: CandidatePair) {
    Stray(pair.item.content) || Stray(pair.member.content)
    || (pair.item.operatorText.Some? && Stray(pair.item.operatorText.value))
    || (pair.member.operatorText.Some? && Stray(pair.member.operatorText.value))
  }

  predicate IsMark(mark: string) { mark == "yes" || mark == "no" || mark == "?" }

  lemma BlankHasNoStray(text: string)
    requires Trim(text) == ""
    ensures !Stray(text)
  {
    TrimsToNothing(text);
    if i: nat :| HeaderAfter(text, i) && text[i] != '\n' {
      assert text[i + 1..][0] == HEADER[0] == '#';
      assert Space(text[i + 1]);
    }
  }

  lemma QuoteClean(text: Option<string>)
    ensures AllClean(Quote(text)) <==> !(text.Some? && Stray(text.value))
    ensures AllPassed(Quote(text))
  {
    if text.None? || Trim(text.value) == "" {
      PlainLineClean("> not recorded");
      if text.Some? { BlankHasNoStray(text.value); }
    } else {
      QuotedContentClean(text.value);
    }
  }

  lemma {:induction false} CountsNone(lines: seq<string>)
    ensures Headers(lines) == 0 <==> AllClean(lines)
  {
    if lines != [] {
      CleanSplits(lines[0]);
      CountsNone(lines[1..]);
    }
  }

  predicate Caption(line: string) {
    line != "" && (line[0] == 'I' || line[0] == 'M') && forall i :: 0 <= i < |line| ==> !LineBreak(line[i])
  }

  lemma BlockClean(caption: string, lines: seq<string>)
    requires AllPassed(lines) && Caption(caption)
    ensures AllClean(Block(caption, lines)) <==> AllClean(lines)
    ensures AllPassed(Block(caption, lines))
  {
    PlainLineClean(caption);
    assert Block(caption, lines) == [""] + ([caption] + lines);
    AllCons("", [caption] + lines);
    AllCons(caption, lines);
  }

  lemma FourBlocks(a: string, b: string, c: string, d: string, p: seq<string>, q: seq<string>, r: seq<string>,
                   s: seq<string>)
    requires Caption(a) && Caption(b) && Caption(c) && Caption(d)
    requires AllPassed(p) && AllPassed(q) && AllPassed(r) && AllPassed(s)
    ensures var all := Block(a, p) + Block(b, q) + Block(c, r) + Block(d, s) + [""];
            AllPassed(all) && (AllClean(all) <==> AllClean(p) && AllClean(q) && AllClean(r) && AllClean(s))
  {
    BlockClean(a, p);
    BlockClean(b, q);
    BlockClean(c, r);
    BlockClean(d, s);
    assert [""][1..] == [];
    AllOfFive(Block(a, p), Block(b, q), Block(c, r), Block(d, s), [""]);
  }

  lemma AllOfFive(a: seq<string>, b: seq<string>, c: seq<string>, d: seq<string>, e: seq<string>)
    ensures AllClean(a + b + c + d + e) <==> AllClean(a) && AllClean(b) && AllClean(c) && AllClean(d) && AllClean(e)
    ensures AllPassed(a + b + c + d + e) <==>
              AllPassed(a) && AllPassed(b) && AllPassed(c) && AllPassed(d) && AllPassed(e)
  {
    AllOfBoth(a, b);
    AllOfBoth(a + b, c);
    AllOfBoth(a + b + c, d);
    AllOfBoth(a + b + c + d, e);
  }

  lemma CaptionedClean(a: string, b: string, c: string, d: string, pair: CandidatePair)
    requires Caption(a) && Caption(b) && Caption(c) && Caption(d)
    ensures AllClean(Captioned(a, b, c, d, pair)) <==> !StrayPair(pair)
    ensures AllPassed(Captioned(a, b, c, d, pair))
  {
    QuoteClean(pair.item.operatorText);
    QuotedContentClean(pair.item.content);
    QuoteClean(pair.member.operatorText);
    QuotedContentClean(pair.member.content);
    FourBlocks(a, b, c, d, Quote(pair.item.operatorText), QuoteContent(pair.item.content),
               Quote(pair.member.operatorText), QuoteContent(pair.member.content));
  }

  /** No quoted line opens a header exactly when the pair holds no stray one. */
  lemma QuotedClean(pair: CandidatePair)
    ensures AllClean(Quoted(pair)) <==> !StrayPair(pair)
    ensures AllPassed(Quoted(pair))
  {
    CaptionedClean("Item, operator said:", "Item content:", "Member, operator said:", "Member content:", pair);
  }

  predicate NoNewlines(lines: seq<string>) { forall i :: 0 <= i < |lines| ==> '\n' !in lines[i] }

  lemma FramedClean(item: string, member: string, quoted: seq<string>, marked: string)
    requires CleanLine(item) && CleanLine(member) && CleanLine(marked)
    ensures AllClean(["", item, member] + quoted + [marked]) <==> AllClean(quoted)
  {
    var rest := quoted + [marked];
    assert ["", item, member] + quoted + [marked] == [""] + ([item] + ([member] + rest));
    AllCons("", [item] + ([member] + rest));
    AllCons(item, [member] + rest);
    AllCons(member, rest);
    AllOfBoth(quoted, [marked]);
    assert [marked] + [] == [marked];
    AllCons(marked, []);
  }

  lemma FramedLines(item: string, member: string, quoted: seq<string>, marked: string)
    requires '\n' !in item && '\n' !in member && '\n' !in marked && AllPassed(quoted)
    ensures NoNewlines(["", item, member] + quoted + [marked])
  {
    AllPassedAt(quoted);
    var all := ["", item, member] + quoted + [marked];
    forall i | 0 <= i < |all| ensures '\n' !in all[i] {
      if 3 <= i < 3 + |quoted| { assert all[i] in quoted; }
    }
  }

  /** A labelled value is one clean line. */
  lemma LabelledClean(name: string, value: string)
    requires name != "" && name[0] != '#' && forall i :: 0 <= i < |name| ==> !LineBreak(name[i])
    requires forall i :: 0 <= i < |value| ==> !LineBreak(value[i])
    ensures CleanLine(name + value) && '\n' !in name + value
  {
    PlainLineClean(name + value);
  }

  lemma BodyClean(pair: CandidatePair, mark: string)
    requires PlainIds(pair) && IsMark(mark)
    ensures AllClean(Body(pair, mark)) <==> !StrayPair(pair)
    ensures NoNewlines(Body(pair, mark))
  {
    var item, member, marked := "- item: " + pair.item.id, "- member: " + pair.member.id, "label: " + mark;
    LabelledClean("- item: ", pair.item.id);
    LabelledClean("- member: ", pair.member.id);
    LabelledClean("label: ", mark);
    QuotedClean(pair);
    FramedClean(item, member, Quoted(pair), marked);
    FramedLines(item, member, Quoted(pair), marked);
  }

  // --- Reading one section back ---

  lemma {:induction false} LineValueSkips(a: seq<string>, b: seq<string>, prefix: string)
    requires forall l :: l in a ==> !(prefix <= l)
    ensures LineValue(a + b, prefix) == LineValue(b, prefix)
    decreases |a|
  {
    if a == [] {
      assert a + b == b;
    } else {
      assert (a + b)[1..] == a[1..] + b && a[0] in a;
      assert forall l :: l in a[1..] ==> l in a;
      LineValueSkips(a[1..], b, prefix);
    }
  }

  function EntryOf(pair: CandidatePair, mark: string): SheetEntry
    requires IsMark(mark)
  {
    SheetEntry(pair.item.id, pair.member.id, if mark == "?" then None else Some(mark == "yes"))
  }

  predicate Digits(number: string) { number != "" && forall i :: 0 <= i < |number| ==> Digit(number[i]) }

  function SectionText(number: string, body: seq<string>, after: string): string {
    number + "\n" + Unlines(body) + after
  }

  /** A section with this body reads back as `entry`, whatever its number and whatever follows. */
  ghost predicate ReadsBack(body: seq<string>, entry: SheetEntry) {
    forall number, after :: Digits(number) ==> ParseSection(SectionText(number, body, after)) == Ok(entry)
  }

  lemma BodyReadsBack(pair: CandidatePair, mark: string)
    requires PlainIds(pair) && IsMark(mark)
    ensures ReadsBack(Body(pair, mark), EntryOf(pair, mark))
  {
    BodyClean(pair, mark);
    forall number, after | Digits(number)
      ensures ParseSection(SectionText(number, Body(pair, mark), after)) == Ok(EntryOf(pair, mark))
    {
      assert SectionText(number, Body(pair, mark), after) == Unlines([number] + Body(pair, mark)) + after;
      assert '\n' !in number;
      SplitUnlines([number] + Body(pair, mark), after);
      BodyValues(pair, mark, number, SplitLines(after));
    }
  }

  /** The reader finds each value on the line that was printed for it. */
  lemma BodyValues(pair: CandidatePair, mark: string, number: string, after: seq<string>)
    requires PlainIds(pair) && IsMark(mark) && number != "" && Digit(number[0])
    ensures var all := [number] + Body(pair, mark) + after;
            LineValue(all, "- item: ") == Some(pair.item.id)
            && LineValue(all, "- member: ") == Some(pair.member.id)
            && LineValue(all, "label: ") == Some(mark)
  {
    QuotedClean(pair);
    assert Trim("yes") == "yes" && Trim("no") == "no" && Trim("?") == "?";
    ThreeValues(number, pair.item.id, pair.member.id, Quoted(pair), mark, after);
    Regroup(number, "- item: " + pair.item.id, "- member: " + pair.member.id, Quoted(pair), "label: " + mark, after);
  }

  lemma Regroup(number: string, item: string, member: string, quoted: seq<string>, marked: string, after: seq<string>)
    ensures [number] + (["", item, member] + quoted + [marked]) + after
         == [number, ""] + ([item] + ([member] + (quoted + ([marked] + after))))
  {
  }

  lemma ThreeValues(number: string, itemId: string, memberId: string, quoted: seq<string>, mark: string,
                    after: seq<string>)
    requires Trim(itemId) == itemId && Trim(memberId) == memberId && Trim(mark) == mark
    requires number != "" && Digit(number[0]) && AllPassed(quoted)
    ensures var fromMember := ["- member: " + memberId] + (quoted + (["label: " + mark] + after));
            var all := [number, ""] + (["- item: " + itemId] + fromMember);
            LineValue(all, "- item: ") == Some(itemId)
            && LineValue(all, "- member: ") == Some(memberId)
            && LineValue(all, "label: ") == Some(mark)
  {
    var item, member, marked := "- item: " + itemId, "- member: " + memberId, ["label: " + mark] + after;
    var fromMember := [member] + (quoted + marked);
    assert item[2] == 'i' && member[2] == 'm';

    LineValueSkips([number, ""], [item] + fromMember, "- item: ");

    LineValueSkips([number, ""], [item] + fromMember, "- member: ");
    LineValueSkips([item], fromMember, "- member: ");

    LineValueSkips([number, ""], [item] + fromMember, "label: ");
    LineValueSkips([item], fromMember, "label: ");
    LineValueSkips([member], quoted + marked, "label: ");
    AllPassedAt(quoted);
    LineValueSkips(quoted, marked, "label: ");
  }

  // --- The whole sheet ---

  function Bodies(pairs: seq<CandidatePair>, marks: seq<string>): (r: seq<seq<string>>)
    requires |pairs| == |marks|
    ensures |r| == |pairs|
    ensures forall k :: 0 <= k < |pairs| ==> r[k] == Body(pairs[k], marks[k])
  {
    if pairs == [] then [] else [Body(pairs[0], marks[0])] + Bodies(pairs[1..], marks[1..])
  }

  /** Every line below the head: each section numbered from `index` on. */
  function SheetLines(bodies: seq<seq<string>>, index: nat): seq<string> {
    if bodies == [] then [] else [""] + ([HEADER + Decimal(index)] + bodies[0]) + SheetLines(bodies[1..], index + 1)
  }

  lemma {:induction false} RenderedLines(pairs: seq<CandidatePair>, marks: seq<string>, index: nat)
    requires |pairs| == |marks|
    ensures RenderPairs(pairs, marks, index) + "\n" == "\n" + Unlines(SheetLines(Bodies(pairs, marks), index + 1))
  {
    if pairs != [] {
      RenderedLines(pairs[1..], marks[1..], index + 1);
      var bodies := Bodies(pairs[1..], marks[1..]);
      assert Bodies(pairs, marks)[1..] == bodies;
      RenderedSection([HEADER + Decimal(index + 1)] + Body(pairs[0], marks[0]),
                      RenderPairs(pairs[1..], marks[1..], index + 1), SheetLines(bodies, index + 2));
    }
  }

  lemma RenderedSection(section: seq<string>, rendered: string, rest: seq<string>)
    requires section != [] && rendered + "\n" == "\n" + Unlines(rest)
    ensures "\n\n" + JoinLines(section) + rendered + "\n" == "\n" + Unlines([""] + section + rest)
  {
    JoinedThenEnded(section);
    UnlinesConcat([""] + section, rest);
    assert ([""] + section)[1..] == section;
    var j := JoinLines(section);
    calc {
      "\n\n" + j + rendered + "\n";
      "\n\n" + j + (rendered + "\n");
      "\n\n" + j + ("\n" + Unlines(rest));
      "\n" + ("\n" + (j + "\n")) + Unlines(rest);
      "\n" + ("" + "\n" + Unlines(section)) + Unlines(rest);
      "\n" + (Unlines([""] + section) + Unlines(rest));
    }
  }

  lemma SheetIsLines(head: seq<string>, pairs: seq<CandidatePair>, marks: seq<string>, index: nat)
    requires |pairs| == |marks| && head != []
    ensures Sheet(head, pairs, marks, index)
         == Unlines(head) + Unlines(SheetLines(Bodies(pairs, marks), index + 1))
  {
    RenderedLines(pairs, marks, index);
    HeadThenPairs(head, RenderPairs(pairs, marks, index), SheetLines(Bodies(pairs, marks), index + 1));
  }

  lemma HeadThenPairs(head: seq<string>, rendered: string, rest: seq<string>)
    requires head != [] && rendered + "\n" == "\n" + Unlines(rest)
    ensures JoinLines(head) + rendered + "\n" == Unlines(head) + Unlines(rest)
  {
    JoinedThenEnded(head);
    assert JoinLines(head) + rendered + "\n" == JoinLines(head) + (rendered + "\n");
    assert JoinLines(head) + ("\n" + Unlines(rest)) == JoinLines(head) + "\n" + Unlines(rest);
  }

  lemma AfterHeader(x: string)
    ensures Sections(true, HEADER + x) == [""] + Sections(false, x)
  {
    assert (HEADER + x)[|HEADER|..] == x;
  }

  /** A header's number opens no other section. */
  lemma NumberSection(number: string, rest: string)
    requires forall i :: 0 <= i < |number| ==> Digit(number[i])
    ensures var r := Sections(true, rest); Sections(false, number + "\n" + rest) == [number + "\n" + r[0]] + r[1..]
    ensures Sections(false, number + "\n") == [number + "\n"]
  {
    HeaderHasNoNewline();
    assert number + "\n" == number + ['\n'] + [];
    SeenBefore(false, number, '\n', []);
    SeenExactly(number);
    OneSection(false, number + "\n");
    SectionsConcat(false, number + "\n", rest);
    GlueOne(number + "\n", Sections(true, rest));
  }

  /** The header line opens one section. */
  lemma HeaderCountsOne(number: string)
    requires forall i :: 0 <= i < |number| ==> Digit(number[i])
    ensures Headers([HEADER + number]) == 1
  {
    NumberSection(number, "");
    AfterHeader(number + "\n");
    assert HEADER + number + "\n" == HEADER + (number + "\n");
    assert [HEADER + number][1..] == [];
  }

  /** What follows each header, when nothing else opens one. */
  function SectionTexts(bodies: seq<seq<string>>, index: nat): seq<string> {
    if bodies == [] then []
    else [SectionText(Decimal(index), bodies[0], LineBetween(bodies[1..]))] + SectionTexts(bodies[1..], index + 1)
  }

  lemma {:induction false} SheetSections(bodies: seq<seq<string>>, index: nat)
    requires forall k :: 0 <= k < |bodies| ==> AllClean(bodies[k])
    ensures Sections(true, Unlines(SheetLines(bodies, index))) == [LineBetween(bodies)] + SectionTexts(bodies, index)
  {
    if bodies != [] {
      SheetSections(bodies[1..], index + 1);
      OneMoreSection(Decimal(index), bodies[0], SheetLines(bodies[1..], index + 1));
    }
  }

  /** The blank line before the next section, if there is one. */
  function LineBetween(bodies: seq<seq<string>>): string {
    if bodies == [] then "" else "\n"
  }

  lemma OneMoreSection(number: string, body: seq<string>, rest: seq<string>)
    requires AllClean(body) && forall i :: 0 <= i < |number| ==> Digit(number[i])
    ensures Sections(true, Unlines([""] + ([HEADER + number] + body) + rest))
         == ["\n", number + "\n" + Unlines(body) + Sections(true, Unlines(rest))[0]]
            + Sections(true, Unlines(rest))[1..]
  {
    HeaderThenNumber(number, Unlines(body) + Unlines(rest));
    SectionBehind(HEADER + number, number + "\n", body, rest);
  }

  /** A header line opens the section that its number starts. */
  lemma HeaderThenNumber(number: string, rest: string)
    requires forall i :: 0 <= i < |number| ==> Digit(number[i])
    ensures var r := Sections(true, rest);
            Sections(true, HEADER + number + "\n" + rest) == [""] + ([number + "\n" + r[0]] + r[1..])
  {
    NumberSection(number, rest);
    AfterHeader(number + "\n" + rest);
    EndedRegroups(HEADER, number, rest);
  }

  lemma EndedRegroups(a: string, b: string, c: string)
    ensures a + b + "\n" + c == a + (b + "\n" + c)
  {
  }

  lemma SectionBehind(line: string, number: string, body: seq<string>, rest: seq<string>)
    requires AllClean(body)
    requires var r := Sections(true, Unlines(body) + Unlines(rest));
             Sections(true, line + "\n" + (Unlines(body) + Unlines(rest))) == [""] + ([number + r[0]] + r[1..])
    ensures Sections(true, Unlines([""] + ([line] + body) + rest))
         == ["\n", number + Unlines(body) + Sections(true, Unlines(rest))[0]] + Sections(true, Unlines(rest))[1..]
  {
    var text := line + "\n" + (Unlines(body) + Unlines(rest));
    SectionUnlines(line, body, rest);
    CleanLinesJoin(body, Unlines(rest));
    BlankLineFirst(text);
    SectionPieces("\n", number, Unlines(body), Sections(true, Unlines(rest)),
                  Sections(true, Unlines(body) + Unlines(rest)), Sections(true, text), Sections(true, "\n" + text));
  }

  lemma BlankLineFirst(text: string)
    ensures var r := Sections(true, text); Sections(true, "\n" + text) == ["\n" + r[0]] + r[1..]
  {
    CleanLineFirst("", text);
    assert "" + "\n" == "\n";
  }

  lemma SectionPieces(ended: string, number: string, body: string, last: seq<string>, r: seq<string>, t: seq<string>,
                      u: seq<string>)
    requires last != [] && r == [body + last[0]] + last[1..]
    requires t == [""] + ([number + r[0]] + r[1..])
    requires u == [ended + t[0]] + t[1..]
    ensures u == [ended, number + body + last[0]] + last[1..]
  {
    assert r[0] == body + last[0] && r[1..] == last[1..];
    assert t[0] == "" && t[1..] == [number + r[0]] + r[1..];
    assert ended + t[0] == ended && number + (body + last[0]) == number + body + last[0];
  }

  lemma SectionUnlines(line: string, body: seq<string>, rest: seq<string>)
    ensures Unlines([""] + ([line] + body) + rest) == "\n" + (line + "\n" + (Unlines(body) + Unlines(rest)))
  {
    var lines := [line] + (body + rest);
    assert [""] + ([line] + body) + rest == [""] + lines;
    assert ([""] + lines)[1..] == lines && lines[1..] == body + rest;
    UnlinesConcat(body, rest);
  }

  lemma {:induction false} SectionsReadBack(bodies: seq<seq<string>>, entries: seq<SheetEntry>, index: nat)
    requires |bodies| == |entries| && forall k :: 0 <= k < |bodies| ==> ReadsBack(bodies[k], entries[k])
    ensures ParseSections(SectionTexts(bodies, index)) == Ok(entries)
  {
    if bodies != [] {
      assert ReadsBack(bodies[0], entries[0]);
      SectionsReadBack(bodies[1..], entries[1..], index + 1);
      assert entries == [entries[0]] + entries[1..];
    }
  }

  /** The pairs in order, each with what its label line says. */
  function EntriesOf(pairs: seq<CandidatePair>, marks: seq<string>): (r: seq<SheetEntry>)
    requires |pairs| == |marks|
    requires forall k :: 0 <= k < |pairs| ==> IsMark(marks[k])
    ensures |r| == |pairs|
    ensures forall k :: 0 <= k < |pairs| ==> r[k] == EntryOf(pairs[k], marks[k])
  {
    seq(|pairs|, k requires 0 <= k < |pairs| => EntryOf(pairs[k], marks[k]))
  }

  lemma {:induction false} SheetHeaders(bodies: seq<seq<string>>, index: nat)
    ensures Headers(SheetLines(bodies, index)) >= |bodies|
    ensures Headers(SheetLines(bodies, index)) == |bodies| ==> forall k :: 0 <= k < |bodies| ==> AllClean(bodies[k])
  {
    if bodies != [] {
      SheetHeaders(bodies[1..], index + 1);
      CountsNone(bodies[0]);
      HeaderCountsOne(Decimal(index));
      SectionHeaders([HEADER + Decimal(index)], bodies[0], SheetLines(bodies[1..], index + 1));
      assert forall k :: 1 <= k < |bodies| ==> bodies[k] == bodies[1..][k - 1];
    }
  }

  lemma SectionHeaders(line: seq<string>, body: seq<string>, rest: seq<string>)
    ensures Headers([""] + (line + body) + rest) == Headers(line) + Headers(body) + Headers(rest)
  {
    HeadersAdd([""] + (line + body), rest);
    HeadersAdd([""], line + body);
    HeadersAdd(line, body);
    assert [""][1..] == [];
    CountsNone([""]);
  }

  lemma {:induction false} ParsedLength(sections: seq<string>)
    ensures ParseSections(sections).Ok? ==> |ParseSections(sections).value| == |sections|
  {
    if sections != [] { ParsedLength(sections[1..]); }
  }

  /** The lines above the pairs open a header exactly when the guidance or the source label does. */
  lemma HeadClean(guidance: seq<string>, source: string, count: nat)
    ensures AllClean(Head(guidance, source, count)) <==> AllClean(guidance) && !BreaksOpen(source)
  {
    var title, line := "# Restates pair sheet (issue 1519)", "Source: " + source + ". Pairs: " + Decimal(count) + ".";
    PlainLineClean(title);
    SourceLine(source, Decimal(count));
    FourFirst(title, "", line, "", guidance);
  }

  lemma FourFirst(a: string, b: string, c: string, d: string, rest: seq<string>)
    ensures AllClean([a, b, c, d] + rest) <==>
              CleanLine(a) && CleanLine(b) && CleanLine(c) && CleanLine(d) && AllClean(rest)
  {
    assert [a, b, c, d] + rest == [a] + ([b] + ([c] + ([d] + rest)));
    AllCons(a, [b] + ([c] + ([d] + rest)));
    AllCons(b, [c] + ([d] + rest));
    AllCons(c, [d] + rest);
    AllCons(d, rest);
  }

  lemma SourceLine(source: string, count: string)
    requires forall i :: 0 <= i < |count| ==> Digit(count[i])
    ensures CleanLine("Source: " + source + ". Pairs: " + count + ".") <==> !BreaksOpen(source)
  {
    var line, rest := "Source: " + source + ". Pairs: " + count + ".", " Pairs: " + count + ".";
    assert line[0] == 'S' && !(HEADER <= line);
    assert line == "Source: " + (source + ['.'] + rest);
    BreaksPast("Source: ", source + ['.'] + rest);
    SeenExactly(rest);
    SeenBefore(false, source, '.', rest);
    SeenExactly(source + ['.'] + rest);
    SeenExactly(source);
  }

  // --- The guidance opens no header ---

  predicate Plain(s: string) { forall i :: 0 <= i < |s| ==> !LineBreak(s[i]) }

  lemma PlainJoin(a: string, b: string)
    requires Plain(a) && Plain(b)
    ensures Plain(a + b)
  {
  }

  lemma GuidanceOneClean()
    ensures CleanLine(GuidanceOne())
  {
    var a, b, c, d := "Label each pair by ", "replacing `?` on its ", "`label:` line with ", "`yes` (the item says";
    PlainJoin(a, b);
    PlainJoin(a + b, c);
    PlainJoin(a + b + c, d);
    PlainLineClean(a + b + c + d);
  }

  lemma GuidanceTwoClean()
    ensures CleanLine(GuidanceTwo())
  {
    var a, b, c, d, e :=
      "the same lasting ", "thing as the member,", " so keeping both ", "stores one memory ", "twice)";
    PlainJoin(a, b);
    PlainJoin(a + b, c);
    PlainJoin(a + b + c, d);
    PlainJoin(a + b + c + d, e);
    PlainLineClean(a + b + c + d + e);
  }

  lemma GuidanceThreeClean()
    ensures CleanLine(GuidanceThree())
  {
    var a, b, c, d := "or `no`. Leave `?` ", "for undecided. Only ", "the `label:` lines ", "are read back.";
    PlainJoin(a, b);
    PlainJoin(a + b, c);
    PlainJoin(a + b + c, d);
    PlainLineClean(a + b + c + d);
  }

  lemma GuidanceClean()
    ensures AllClean(Guidance())
  {
    GuidanceOneClean();
    GuidanceTwoClean();
    GuidanceThreeClean();
  }

  /** Nothing put into the sheet shows the reader a header of its own. */
  ghost predicate Printable(source: string, pairs: seq<CandidatePair>) {
    !BreaksOpen(source) && forall k :: 0 <= k < |pairs| ==> !StrayPair(pairs[k])
  }

  /**
   * However the label lines are filled in, reading gives back every pair with its label, exactly for
   * printable sheets.
   */
  lemma RoundTripExactly(source: string, pairs: seq<CandidatePair>, marks: seq<string>)
    requires |pairs| == |marks|
    requires forall k :: 0 <= k < |pairs| ==> PlainIds(pairs[k]) && IsMark(marks[k])
    ensures ParseSheet(SheetWith(source, pairs, marks)) == Ok(EntriesOf(pairs, marks)) <==> Printable(source, pairs)
  {
    GuidanceClean();
    HeadClean(Guidance(), source, |pairs|);
    RoundTripBelow(Head(Guidance(), source, |pairs|), pairs, marks, 0);
  }

  lemma RoundTripBelow(head: seq<string>, pairs: seq<CandidatePair>, marks: seq<string>, index: nat)
    requires |pairs| == |marks| && head != []
    requires forall k :: 0 <= k < |pairs| ==> PlainIds(pairs[k]) && IsMark(marks[k])
    ensures ParseSheet(Sheet(head, pairs, marks, index)) == Ok(EntriesOf(pairs, marks))
       <==> AllClean(head) && forall k :: 0 <= k < |pairs| ==> !StrayPair(pairs[k])
  {
    var bodies, entries := Bodies(pairs, marks), EntriesOf(pairs, marks);
    SheetIsLines(head, pairs, marks, index);
    forall k | 0 <= k < |pairs|
      ensures ReadsBack(bodies[k], entries[k]) && (AllClean(bodies[k]) <==> !StrayPair(pairs[k])) {
      BodyClean(pairs[k], marks[k]);
      BodyReadsBack(pairs[k], marks[k]);
    }
    LinesReadBack(head, bodies, entries, index + 1);
  }

  /** Sections that read back on their own are all there is exactly when no line opens another. */
  lemma LinesReadBack(head: seq<string>, bodies: seq<seq<string>>, entries: seq<SheetEntry>, index: nat)
    requires |bodies| == |entries| && forall k :: 0 <= k < |bodies| ==> ReadsBack(bodies[k], entries[k])
    ensures ParseSheet(Unlines(head) + Unlines(SheetLines(bodies, index))) == Ok(entries)
       <==> AllClean(head) && forall k :: 0 <= k < |bodies| ==> AllClean(bodies[k])
  {
    if AllClean(head) && forall k :: 0 <= k < |bodies| ==> AllClean(bodies[k]) {
      SectionsReadBack(bodies, entries, index);
      CleanSections(head, bodies, index);
    } else {
      MoreSections(head, bodies, index);
      ParsedLength(Sections(true, Unlines(head) + Unlines(SheetLines(bodies, index)))[1..]);
    }
  }

  lemma CleanSections(head: seq<string>, bodies: seq<seq<string>>, index: nat)
    requires AllClean(head) && forall k :: 0 <= k < |bodies| ==> AllClean(bodies[k])
    ensures Sections(true, Unlines(head) + Unlines(SheetLines(bodies, index)))[1..] == SectionTexts(bodies, index)
  {
    CleanLinesJoin(head, Unlines(SheetLines(bodies, index)));
    SheetSections(bodies, index);
  }

  lemma MoreSections(head: seq<string>, bodies: seq<seq<string>>, index: nat)
    requires !AllClean(head) || exists k :: 0 <= k < |bodies| && !AllClean(bodies[k])
    ensures |Sections(true, Unlines(head) + Unlines(SheetLines(bodies, index)))| > 1 + |bodies|
  {
    var lines := SheetLines(bodies, index);
    UnlinesConcat(head, lines);
    HeadersCounted(head + lines);
    HeadersAdd(head, lines);
    CountsNone(head);
    SheetHeaders(bodies, index);
  }

  /** A fresh sheet reads back with every pair undecided. */
  lemma FreshSheetExactly(source: string, pairs: seq<CandidatePair>)
    requires forall k :: 0 <= k < |pairs| ==> PlainIds(pairs[k])
    ensures ParseSheet(RenderSheet(source, pairs)) == Ok(Undecided(pairs)) <==> Printable(source, pairs)
  {
    var marks := seq(|pairs|, _ => "?");
    RoundTripExactly(source, pairs, marks);
    assert EntriesOf(pairs, marks) == Undecided(pairs);
  }

  function Undecided(pairs: seq<CandidatePair>): seq<SheetEntry> {
    seq(|pairs|, k requires 0 <= k < |pairs| => SheetEntry(pairs[k].item.id, pairs[k].member.id, None))
  }

  /** Text broken by newlines alone is always printable. */
  lemma NewlinesNeverStray(text: string)
    requires forall i :: 0 <= i < |text| ==> text[i] != '\r' && text[i] as int != 0x2028 && text[i] as int != 0x2029
    ensures !Stray(text)
  {
  }

  /** One carriage return before a header is enough to lose a sheet. */
  lemma CarriageReturnBreaksTheSheet(source: string, pair: CandidatePair, before: string, after: string)
    requires PlainIds(pair) && pair.item.content == before + "\r" + HEADER + after
    ensures ParseSheet(RenderSheet(source, [pair])) != Ok([SheetEntry(pair.item.id, pair.member.id, None)])
  {
    var text := pair.item.content;
    assert text[|before| + 1..] == HEADER + after;
    assert HeaderAfter(text, |before|) && text[|before|] == '\r';
    assert StrayPair([pair][0]);
    FreshSheetExactly(source, [pair]);
    assert Undecided([pair]) == [SheetEntry(pair.item.id, pair.member.id, None)];
  }
}

/** Characters as the scripts' regular expressions and string methods see them. */
module Text {

  /** A line terminator: what a multiline `^` starts a line after. */
  predicate LineBreak(c: char) {
    c == '\n' || c == '\r' || c as int == 0x2028 || c as int == 0x2029
  }

  /** White space, as `\s` matches it and `trim` removes it. */
  predicate Space(c: char) {
    var n := c as int;
    (9 <= n <= 13) || n == 32 || n == 0xA0 || n == 0x1680 || (0x2000 <= n <= 0x200A)
    || n == 0x2028 || n == 0x2029 || n == 0x202F || n == 0x205F || n == 0x3000 || n == 0xFEFF
  }

  predicate Digit(c: char) { '0' <= c <= '9' }

  function TrimStart(s: string): string {
    if s != "" && Space(s[0]) then TrimStart(s[1..]) else s
  }

  function TrimEnd(s: string): string {
    if s != "" && Space(s[|s| - 1]) then TrimEnd(s[..|s| - 1]) else s
  }

  function Trim(s: string): string { TrimEnd(TrimStart(s)) }

  /** Only blank text trims to nothing. */
  lemma TrimsToNothing(s: string)
    requires Trim(s) == ""
    ensures forall i :: 0 <= i < |s| ==> Space(s[i])
  {
    TrimEndKeeps(TrimStart(s));
    TrimStartKeeps(s);
  }

  lemma {:induction false} TrimEndKeeps(s: string)
    ensures TrimEnd(s) == "" ==> forall i :: 0 <= i < |s| ==> Space(s[i])
  {
    if s != "" { TrimEndKeeps(s[..|s| - 1]); }
  }

  lemma {:induction false} TrimStartKeeps(s: string)
    ensures if TrimStart(s) == "" then forall i :: 0 <= i < |s| ==> Space(s[i]) else !Space(TrimStart(s)[0])
  {
    if s != "" && Space(s[0]) {
      TrimStartKeeps(s[1..]);
      assert forall i :: 0 < i < |s| ==> s[i] == s[1..][i - 1];
    }
  }

  /** `kept` is what `s` holds between white space at its ends. */
  ghost predicate Between(s: string, a: string, kept: string, b: string) {
    && s == a + kept + b && Blank(a) && Blank(b)
    && (kept != "" ==> !Space(kept[0]) && !Space(kept[|kept| - 1]))
  }

  predicate Blank(s: string) { forall c :: c in s ==> Space(c) }

  lemma {:induction false} TrimStartDrops(s: string) returns (a: string)
    ensures s == a + TrimStart(s) && Blank(a)
  {
    if s != "" && Space(s[0]) {
      a := TrimStartDrops(s[1..]);
      a := [s[0]] + a;
    } else {
      a := "";
    }
  }

  lemma {:induction false} TrimEndDrops(s: string) returns (b: string)
    ensures s == TrimEnd(s) + b && Blank(b)
    ensures TrimEnd(s) != "" ==> !Space(TrimEnd(s)[|TrimEnd(s)| - 1])
  {
    if s != "" && Space(s[|s| - 1]) {
      b := TrimEndDrops(s[..|s| - 1]);
      b := b + [s[|s| - 1]];
    } else {
      b := "";
    }
  }

  /** Trimming removes white space at both ends and nothing else. */
  lemma TrimExactly(s: string)
    ensures exists a, b :: Between(s, a, Trim(s), b)
    ensures Trim(s) == "" <==> Blank(s)
  {
    var start := TrimStart(s);
    TrimStartKeeps(s);
    var a := TrimStartDrops(s);
    var b := TrimEndDrops(start);
    var kept := Trim(s);
    assert start == kept + b;
    if kept != "" { assert start[0] == kept[0] && s[|a|] == start[0]; }
    assert Between(s, a, kept, b);
  }

  /** The pieces between newlines. */
  function SplitLines(s: string): (r: seq<string>)
    ensures |r| >= 1
  {
    if s == "" then [""]
    else
      var rest := SplitLines(s[1..]);
      if s[0] == '\n' then [""] + rest else [[s[0]] + rest[0]] + rest[1..]
  }

  function JoinLines(lines: seq<string>): string {
    if lines == [] then "" else if |lines| == 1 then lines[0] else lines[0] + "\n" + JoinLines(lines[1..])
  }

  /** Every line with its newline. */
  function Unlines(lines: seq<string>): string {
    if lines == [] then "" else lines[0] + "\n" + Unlines(lines[1..])
  }

  lemma {:induction false} JoinedThenEnded(lines: seq<string>)
    requires lines != []
    ensures JoinLines(lines) + "\n" == Unlines(lines)
  {
    if |lines| == 1 {
      assert lines[1..] == [];
    } else {
      JoinedThenEnded(lines[1..]);
    }
  }

  lemma {:induction false} UnlinesConcat(a: seq<string>, b: seq<string>)
    ensures Unlines(a + b) == Unlines(a) + Unlines(b)
  {
    if a == [] {
      assert a + b == b;
    } else {
      UnlinesConcat(a[1..], b);
      assert (a + b)[1..] == a[1..] + b;
    }
  }

  lemma {:induction false} SplitLinesHaveNone(s: string)
    ensures forall i :: 0 <= i < |SplitLines(s)| ==> '\n' !in SplitLines(s)[i]
  {
    if s != "" { SplitLinesHaveNone(s[1..]); }
  }

  lemma {:induction false} SplitFirst(line: string, rest: string)
    requires '\n' !in line
    ensures SplitLines(line + "\n" + rest) == [line] + SplitLines(rest)
  {
    var s := line + "\n" + rest;
    if line == "" {
      assert s[1..] == rest && s[0] == '\n';
    } else {
      assert s[1..] == line[1..] + "\n" + rest && s[0] == line[0];
      assert line[0] in line && '\n' !in line[1..];
      SplitFirst(line[1..], rest);
      assert [line[0]] + line[1..] == line;
    }
  }

  /** Splitting undoes ending every line, and leaves what followed the last newline. */
  lemma {:induction false} SplitUnlines(lines: seq<string>, rest: string)
    requires forall i :: 0 <= i < |lines| ==> '\n' !in lines[i]
    ensures SplitLines(Unlines(lines) + rest) == lines + SplitLines(rest)
  {
    if lines == [] {
      assert Unlines(lines) + rest == rest;
    } else {
      SplitUnlines(lines[1..], rest);
      SplitFirst(lines[0], Unlines(lines[1..]) + rest);
      assert Unlines(lines) + rest == lines[0] + "\n" + (Unlines(lines[1..]) + rest);
    }
  }

  /** A prefix without a newline is a prefix of the first line. */
  lemma {:induction false} PrefixOfFirstLine(p: string, s: string)
    requires '\n' !in p
    ensures p <= s <==> p <= SplitLines(s)[0]
  {
    if p != "" && s != "" && s[0] != '\n' {
      PrefixOfFirstLine(p[1..], s[1..]);
      var first := SplitLines(s[1..])[0];
      assert p == [p[0]] + p[1..] && s == [s[0]] + s[1..];
      if p <= s { assert p[1..] == s[1..][..|p| - 1]; }
      if p[0] == s[0] && p[1..] <= first { assert p == ([s[0]] + first)[..|p|]; }
      if p <= [s[0]] + first { assert p[1..] == first[..|p| - 1]; }
    }
  }

  /** Decimal digits. */
  function Decimal(n: nat): (s: string)
    ensures s != "" && forall i :: 0 <= i < |s| ==> Digit(s[i])
  {
    var last := ('0' as int + n % 10) as char;
    if n < 10 then [last] else Decimal(n / 10) + [last]
  }
}

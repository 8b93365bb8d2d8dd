/**
 * What a pair sheet shows and which sheets are read: every text under its own
 * caption, line for line, and every label that is not one of three refused.
 */
module SheetRules {
  import opened Wrappers
  import opened Text
  import opened PairSheet

  // --- What a printed pair shows ---

  lemma {:induction false} JoinSplit(s: string)
    ensures JoinLines(SplitLines(s)) == s
  {
    if s != "" {
      JoinSplit(s[1..]);
      var rest := SplitLines(s[1..]);
      assert s == [s[0]] + s[1..];
      if s[0] == '\n' {
        assert SplitLines(s)[1..] == rest;
      } else if |rest| == 1 {
        assert SplitLines(s) == [[s[0]] + rest[0]];
      } else {
        assert SplitLines(s)[1..] == rest[1..];
        assert [s[0]] + (rest[0] + "\n" + JoinLines(rest[1..])) == ([s[0]] + rest[0]) + "\n" + JoinLines(rest[1..]);
      }
    }
  }

  predicate Marked(line: string, piece: string) {
    (piece == "" && line == ">") || (piece != "" && line == "> " + piece)
  }

  /** `quoted` marks the lines `pieces`, which make up `text`. */
  ghost predicate QuotesAs(quoted: seq<string>, text: string, pieces: seq<string>) {
    && |pieces| == |quoted| && JoinLines(pieces) == text
    && forall j :: 0 <= j < |pieces| ==> '\n' !in pieces[j] && Marked(quoted[j], pieces[j])
  }

  /** `quoted` holds the lines of `text`, each marked as quoted. */
  ghost predicate Quotes(quoted: seq<string>, text: string) { exists pieces :: QuotesAs(quoted, text, pieces) }

  lemma {:induction false} QuoteLinesAt(lines: seq<string>)
    ensures forall j :: 0 <= j < |lines| ==> QuoteLines(lines)[j] == QuoteLine(lines[j])
  {
    if lines != [] { QuoteLinesAt(lines[1..]); }
  }

  lemma ContentIsQuoted(text: string)
    ensures Quotes(QuoteContent(text), text)
  {
    JoinSplit(text);
    SplitLinesHaveNone(text);
    QuoteLinesAt(SplitLines(text));
    assert QuotesAs(QuoteContent(text), text, SplitLines(text));
  }

  ghost predicate ShowsAt(lines: seq<string>, caption: string, quoted: seq<string>, k: int) {
    && 0 <= k && k + 1 + |quoted| < |lines| && lines[k] == caption && lines[k + 1 + |quoted|] == ""
    && forall j :: 0 <= j < |quoted| ==> lines[k + 1 + j] == quoted[j]
  }

  /** `quoted` stands under `caption`, up to a blank line. */
  ghost predicate Shows(lines: seq<string>, caption: string, quoted: seq<string>) {
    exists k :: ShowsAt(lines, caption, quoted, k)
  }

  /** A content is shown as it is. */
  ghost predicate ShowsText(lines: seq<string>, caption: string, text: string) {
    exists quoted :: Shows(lines, caption, quoted) && Quotes(quoted, text)
  }

  /** What the operator said, or that nothing was recorded. */
  ghost predicate ShowsSaid(lines: seq<string>, caption: string, said: Option<string>) {
    if said.None? || Blank(said.value) then Shows(lines, caption, ["> not recorded"])
    else ShowsText(lines, caption, said.value)
  }

  lemma BlockShows(lines: seq<string>, pre: seq<string>, caption: string, quoted: seq<string>, post: seq<string>)
    requires lines == pre + Block(caption, quoted) + post && post != [] && post[0] == ""
    ensures Shows(lines, caption, quoted)
  {
    var k := |pre| + 1;
    assert lines[k] == caption && lines[k + 1 + |quoted|] == "";
    assert ShowsAt(lines, caption, quoted, k);
  }

  /** Four blocks under four captions, between `pre` and the label. */
  lemma BlocksShow(lines: seq<string>, pre: seq<string>, a: string, b: string, c: string, d: string,
                   pair: CandidatePair, last: string)
    requires lines == pre + Captioned(a, b, c, d, pair) + [last]
    ensures Shows(lines, a, Quote(pair.item.operatorText)) && Shows(lines, b, QuoteContent(pair.item.content))
    ensures Shows(lines, c, Quote(pair.member.operatorText)) && Shows(lines, d, QuoteContent(pair.member.content))
  {
    var qa, qb := Block(a, Quote(pair.item.operatorText)), Block(b, QuoteContent(pair.item.content));
    var qc, qd := Block(c, Quote(pair.member.operatorText)), Block(d, QuoteContent(pair.member.content));
    FourGroups(lines, pre, qa, qb, qc, qd, last);
    BlockShows(lines, pre, a, Quote(pair.item.operatorText), qb + qc + qd + ["", last]);
    BlockShows(lines, pre + qa, b, QuoteContent(pair.item.content), qc + qd + ["", last]);
    BlockShows(lines, pre + qa + qb, c, Quote(pair.member.operatorText), qd + ["", last]);
    BlockShows(lines, pre + qa + qb + qc, d, QuoteContent(pair.member.content), ["", last]);
  }

  lemma FourGroups(lines: seq<string>, pre: seq<string>, a: seq<string>, b: seq<string>, c: seq<string>,
                   d: seq<string>, last: string)
    requires lines == pre + (a + b + c + d + [""]) + [last]
    ensures lines == pre + a + (b + c + d + ["", last])
    ensures lines == pre + a + b + (c + d + ["", last])
    ensures lines == pre + a + b + c + (d + ["", last])
    ensures lines == pre + a + b + c + d + ["", last]
  {
  }

  lemma OperatorIsShown(lines: seq<string>, caption: string, said: Option<string>)
    requires Shows(lines, caption, Quote(said))
    ensures ShowsSaid(lines, caption, said)
  {
    if said.Some? {
      TrimExactly(said.value);
      ContentIsQuoted(said.value);
    }
  }

  /** A printed section, line by line. */
  lemma PrintedLines(pair: CandidatePair, index: nat, mark: string)
    requires '\n' !in pair.item.id && '\n' !in pair.member.id && '\n' !in mark
    ensures SplitLines(RenderPair(pair, index, mark)) == [HEADER + Decimal(index + 1)] + Body(pair, mark)
  {
    var lines := [HEADER + Decimal(index + 1)] + Body(pair, mark);
    forall i | 0 <= i < |lines| ensures '\n' !in lines[i] { LineHasNoBreak(pair, index, mark, i); }
    SplitJoined(lines);
  }

  lemma LineHasNoBreak(pair: CandidatePair, index: nat, mark: string, i: nat)
    requires '\n' !in pair.item.id && '\n' !in pair.member.id && '\n' !in mark
    requires i < |[HEADER + Decimal(index + 1)] + Body(pair, mark)|
    ensures '\n' !in ([HEADER + Decimal(index + 1)] + Body(pair, mark))[i]
  {
    var quoted := Quoted(pair);
    if i < 4 {
      HeaderHasNoNewline();
      NoBreakInBoth(HEADER, Decimal(index + 1));
      NoBreakInBoth("- item: ", pair.item.id);
      NoBreakInBoth("- member: ", pair.member.id);
    } else if i < 4 + |quoted| {
      QuotedClean(pair);
      AllPassedAt(quoted);
      assert quoted[i - 4] in quoted;
    } else {
      NoBreakInBoth("label: ", mark);
    }
  }

  lemma NoBreakInBoth(a: string, b: string)
    requires '\n' !in a && '\n' !in b
    ensures '\n' !in a + b
  {
  }

  lemma SplitJoined(lines: seq<string>)
    requires lines != [] && forall i :: 0 <= i < |lines| ==> '\n' !in lines[i]
    ensures SplitLines(JoinLines(lines)) == lines
  {
    var init, last := lines[..|lines| - 1], lines[|lines| - 1];
    assert lines == init + [last];
    assert SplitLines(Unlines(init) + last) == init + [last] by { SplitEnded(init, last); }
    assert JoinLines(lines) == Unlines(init) + last by { JoinIsUnlines(lines); }
  }

  lemma SplitEnded(ended: seq<string>, last: string)
    requires '\n' !in last && forall i :: 0 <= i < |ended| ==> '\n' !in ended[i]
    ensures SplitLines(Unlines(ended) + last) == ended + [last]
  {
    SplitUnlines(ended, last);
    NoBreakIsOneLine(last);
  }

  lemma {:induction false} JoinIsUnlines(lines: seq<string>)
    requires lines != []
    ensures JoinLines(lines) == Unlines(lines[..|lines| - 1]) + lines[|lines| - 1]
  {
    var init, last := lines[..|lines| - 1], lines[|lines| - 1];
    if |lines| == 1 {
      assert init == [];
    } else {
      var rest := lines[1..];
      JoinIsUnlines(rest);
      assert init[1..] == rest[..|rest| - 1] && rest[|rest| - 1] == last;
      LineFirst(lines[0], Unlines(init[1..]), last);
    }
  }

  lemma LineFirst(line: string, ended: string, last: string)
    ensures line + "\n" + (ended + last) == (line + "\n" + ended) + last
  {
  }

  lemma {:induction false} NoBreakIsOneLine(line: string)
    requires '\n' !in line
    ensures SplitLines(line) == [line]
  {
    if line != "" {
      assert line[0] in line && '\n' !in line[1..];
      NoBreakIsOneLine(line[1..]);
      assert [line[0]] + line[1..] == line;
    }
  }

  /** A printed pair shows its two ids, its two contents as they are and its two operator texts, each in its place. */
  lemma PairIsShown(pair: CandidatePair, index: nat, mark: string)
    requires '\n' !in pair.item.id && '\n' !in pair.member.id && '\n' !in mark
    ensures var lines := SplitLines(RenderPair(pair, index, mark));
            && |lines| > 4
            && lines[..4] == ["## Pair " + Decimal(index + 1), "", "- item: " + pair.item.id,
                              "- member: " + pair.member.id]
            && lines[|lines| - 1] == "label: " + mark
            && ShowsSaid(lines, "Item, operator said:", pair.item.operatorText)
            && ShowsText(lines, "Item content:", pair.item.content)
            && ShowsSaid(lines, "Member, operator said:", pair.member.operatorText)
            && ShowsText(lines, "Member content:", pair.member.content)
  {
    PrintedLines(pair, index, mark);
    var pre := [HEADER + Decimal(index + 1), "", "- item: " + pair.item.id, "- member: " + pair.member.id];
    var lines := SplitLines(RenderPair(pair, index, mark));
    FirstAndLast(lines, pre, Quoted(pair), "label: " + mark);
    ShownUnder(lines, pre, "Item, operator said:", "Item content:", "Member, operator said:", "Member content:", pair,
               "label: " + mark);
  }

  lemma FirstAndLast(lines: seq<string>, pre: seq<string>, quoted: seq<string>, last: string)
    requires |pre| == 4 && lines == [pre[0]] + ([pre[1], pre[2], pre[3]] + quoted + [last])
    ensures lines == pre + quoted + [last]
    ensures |lines| > 4 && lines[..4] == pre && lines[|lines| - 1] == last
  {
  }

  lemma ShownUnder(lines: seq<string>, pre: seq<string>, a: string, b: string, c: string, d: string,
                   pair: CandidatePair, last: string)
    requires lines == pre + Captioned(a, b, c, d, pair) + [last]
    ensures ShowsSaid(lines, a, pair.item.operatorText) && ShowsText(lines, b, pair.item.content)
    ensures ShowsSaid(lines, c, pair.member.operatorText) && ShowsText(lines, d, pair.member.content)
  {
    BlocksShow(lines, pre, a, b, c, d, pair, last);
    OperatorIsShown(lines, a, pair.item.operatorText);
    OperatorIsShown(lines, c, pair.member.operatorText);
    ContentIsQuoted(pair.item.content);
    ContentIsQuoted(pair.member.content);
  }

  ghost predicate PartOf(part: string, text: string) { exists pre, post :: text == pre + part + post }

  lemma PartGrows(part: string, text: string, a: string, b: string)
    requires PartOf(part, text)
    ensures PartOf(part, a + text + b)
  {
    var pre, post :| text == pre + part + post;
    assert a + text + b == (a + pre) + part + (post + b);
  }

  lemma PartStarts(part: string, rest: string)
    ensures PartOf(part, part + rest)
  {
    assert part + rest == "" + part + rest;
  }

  lemma {:induction false} PairIsPrinted(pairs: seq<CandidatePair>, marks: seq<string>, index: nat, k: nat)
    requires |pairs| == |marks| && k < |pairs|
    ensures PartOf("\n\n" + RenderPair(pairs[k], index + k, marks[k]), RenderPairs(pairs, marks, index))
  {
    var first := "\n\n" + RenderPair(pairs[0], index, marks[0]);
    var rest := RenderPairs(pairs[1..], marks[1..], index + 1);
    if k == 0 {
      PartStarts(first, rest);
    } else {
      PairIsPrinted(pairs[1..], marks[1..], index + 1, k - 1);
      PartGrows("\n\n" + RenderPair(pairs[k], index + k, marks[k]), rest, first, "");
      assert first + rest + "" == first + rest;
    }
  }

  /** Each pair is in the sheet, unlabelled, under its number. */
  lemma PairIsInSheet(source: string, pairs: seq<CandidatePair>, k: nat)
    requires k < |pairs|
    ensures PartOf("\n\n" + RenderPair(pairs[k], k, "?"), RenderSheet(source, pairs))
  {
    var marks := seq(|pairs|, _ => "?");
    PairIsPrinted(pairs, marks, 0, k);
    PartGrows("\n\n" + RenderPair(pairs[k], k, "?"), RenderPairs(pairs, marks, 0),
              JoinLines(Head(Guidance(), source, |pairs|)), "\n");
  }

  /** A sheet names its source and the number of its pairs at its head. */
  lemma SheetStarts(source: string, pairs: seq<CandidatePair>)
    ensures PartOf("\n" + "\n" + ("Source: " + source + ". Pairs: " + Decimal(|pairs|) + ".") + "\n",
                   RenderSheet(source, pairs))
  {
    var marks := seq(|pairs|, _ => "?");
    var head := Head(Guidance(), source, |pairs|);
    var line := "Source: " + source + ". Pairs: " + Decimal(|pairs|) + ".";
    HeadHolds(head[0], line, Guidance());
    SheetHolds(head, "\n" + "\n" + line + "\n", pairs, marks);
  }

  lemma SheetHolds(head: seq<string>, part: string, pairs: seq<CandidatePair>, marks: seq<string>)
    requires |pairs| == |marks| && PartOf(part, JoinLines(head))
    ensures PartOf(part, Sheet(head, pairs, marks, 0))
  {
    var text, body := JoinLines(head), RenderPairs(pairs, marks, 0);
    PartGrows(part, text, "", body + "\n");
    Regroup(text, body, "\n");
  }

  lemma Regroup(a: string, b: string, c: string)
    ensures "" + a + (b + c) == a + b + c
  {
  }

  lemma HeadHolds(title: string, line: string, more: seq<string>)
    ensures PartOf("\n" + "\n" + line + "\n", JoinLines([title, "", line, ""] + more))
  {
    JoinMore(title, ["", line, ""] + more);
    JoinMore("", [line, ""] + more);
    JoinMore(line, [""] + more);
    assert [title, "", line, ""] + more == [title] + (["", line, ""] + more);
    assert ["", line, ""] + more == [""] + ([line, ""] + more);
    assert [line, ""] + more == [line] + ([""] + more);
    var rest := JoinLines([""] + more);
    assert title + "\n" + ("" + "\n" + (line + "\n" + rest)) == title + ("\n" + "\n" + line + "\n") + rest;
  }

  lemma JoinMore(line: string, rest: seq<string>)
    requires rest != []
    ensures JoinLines([line] + rest) == line + "\n" + JoinLines(rest)
  {
    assert ([line] + rest)[1..] == rest;
  }

  // --- Which sheets are read ---

  /** The first line that starts with the prefix. */
  ghost predicate FirstWith(lines: seq<string>, prefix: string, k: int) {
    0 <= k < |lines| && prefix <= lines[k] && forall j :: 0 <= j < k ==> !(prefix <= lines[j])
  }

  lemma {:induction false} LineValueExactly(lines: seq<string>, prefix: string, value: string)
    ensures LineValue(lines, prefix) == Some(value) <==>
            exists k :: FirstWith(lines, prefix, k) && value == Trim(lines[k][|prefix|..])
  {
    if lines != [] {
      var rest := lines[1..];
      LineValueExactly(rest, prefix, value);
      if prefix <= lines[0] {
        assert FirstWith(lines, prefix, 0);
        assert forall k :: FirstWith(lines, prefix, k) ==> k == 0;
      } else {
        forall k ensures FirstWith(lines, prefix, k) <==> FirstWith(rest, prefix, k - 1) {
          if FirstWith(rest, prefix, k - 1) {
            forall j | 0 <= j < k ensures !(prefix <= lines[j]) { assert j > 0 ==> lines[j] == rest[j - 1]; }
          }
          if FirstWith(lines, prefix, k) {
            forall j | 0 <= j < k - 1 ensures !(prefix <= rest[j]) { assert rest[j] == lines[j + 1]; }
          }
        }
        if k :| FirstWith(rest, prefix, k) && value == Trim(rest[k][|prefix|..]) {
          assert FirstWith(lines, prefix, k + 1);
        }
      }
    }
  }

  ghost predicate HasValue(section: string, prefix: string, value: string) {
    exists k :: FirstWith(SplitLines(section), prefix, k) && value == Trim(SplitLines(section)[k][|prefix|..])
  }

  /** The three labels and what each decides; there is no other. */
  ghost predicate Decides(mark: string, decided: Option<bool>) {
    || (mark == "yes" && decided == Some(true))
    || (mark == "no" && decided == Some(false))
    || (mark == "?" && decided == None)
  }

  /** A section says an entry: its first item, member and label lines, the label one of the three. */
  ghost predicate Says(section: string, entry: SheetEntry) {
    && HasValue(section, "- item: ", entry.itemId) && HasValue(section, "- member: ", entry.memberId)
    && exists mark :: HasValue(section, "label: ", mark) && Decides(mark, entry.decided)
  }

  lemma EntryFromExactly(pair: string, item: Option<string>, member: Option<string>, mark: Option<string>,
                         entry: SheetEntry)
    ensures EntryFrom(pair, item, member, mark) == Ok(entry) <==>
            item == Some(entry.itemId) && member == Some(entry.memberId)
            && exists m :: mark == Some(m) && Decides(m, entry.decided)
  {
    if item.Some? && member.Some? && mark.Some? {
      assert ParseLabel(mark.value) == Some(entry.decided) <==> Decides(mark.value, entry.decided);
    }
  }

  lemma SectionReadExactly(section: string, entry: SheetEntry)
    ensures ParseSection(section) == Ok(entry) <==> Says(section, entry)
  {
    var lines := SplitLines(section);
    var item, member, mark := LineValue(lines, "- item: "), LineValue(lines, "- member: "), LineValue(lines, "label: ");
    EntryFromExactly(Trim(lines[0]), item, member, mark, entry);
    ValueExactly(section, "- item: ", entry.itemId);
    ValueExactly(section, "- member: ", entry.memberId);
    forall m ensures mark == Some(m) <==> HasValue(section, "label: ", m) { ValueExactly(section, "label: ", m); }
  }

  lemma ValueExactly(section: string, prefix: string, value: string)
    ensures LineValue(SplitLines(section), prefix) == Some(value) <==> HasValue(section, prefix, value)
  {
    LineValueExactly(SplitLines(section), prefix, value);
  }

  lemma {:induction false} SectionsReadExactly(sections: seq<string>, entries: seq<SheetEntry>)
    ensures ParseSections(sections) == Ok(entries) <==>
            |entries| == |sections| && forall i :: 0 <= i < |entries| ==> ParseSection(sections[i]) == Ok(entries[i])
  {
    if sections != [] && entries != [] {
      var rest := sections[1..];
      SectionsReadExactly(rest, entries[1..]);
      assert entries == [entries[0]] + entries[1..];
      assert forall i :: 0 < i < |sections| ==> sections[i] == rest[i - 1];
    }
  }

  /** A sheet is read as these entries exactly when its sections say them in order; any other label refuses it. */
  lemma SheetReadExactly(text: string, entries: seq<SheetEntry>)
    ensures var sections := Sections(true, text)[1..];
            ParseSheet(text) == Ok(entries) <==>
              |entries| == |sections| && forall i :: 0 <= i < |entries| ==> Says(sections[i], entries[i])
  {
    var sections := Sections(true, text)[1..];
    SectionsReadExactly(sections, entries);
    forall i | 0 <= i < |entries| && i < |sections|
      ensures ParseSection(sections[i]) == Ok(entries[i]) <==> Says(sections[i], entries[i])
    {
      SectionReadExactly(sections[i], entries[i]);
    }
  }
}

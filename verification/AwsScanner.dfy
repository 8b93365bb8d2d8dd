/**
 * The scanner for wrapped AWS-style secrets (scripts/ob-backfill-sanitize.ts,
 * `containsWrappedAwsSecret`): one pass with a growing run, against the plain
 * meaning over maximal stretches of text.
 */
module AwsScanner {
  import opened Text

  const AWS_SECRET_WIDTH: nat := 40

  predicate Upper(c: char) { 'A' <= c <= 'Z' }

  predicate Lower(c: char) { 'a' <= c <= 'z' }

  predicate Symbol(c: char) { c == '/' || c == '+' || c == '=' }

  predicate Token(c: char) { Upper(c) || Lower(c) || Digit(c) || Symbol(c) }

  predicate Punctuation(c: char) {
    ('!' <= c <= '*') || c == ',' || c == ';' || c == '<' || c == '>' || c == '?'
    || ('[' <= c <= '^') || c == '`' || ('{' <= c <= '}')
  }

  predicate Separator(c: char) { Space(c) || Punctuation(c) }

  /** What the scan distinguishes; the two classes never share a character. */
  datatype Classes = Classes(token: char -> bool, separator: char -> bool)

  const AWS := Classes(Token, Separator)

  ghost predicate Distinct(cls: Classes) { forall c :: !(cls.token(c) && cls.separator(c)) }

  predicate InRun(cls: Classes, c: char) { cls.token(c) || cls.separator(c) }

  // --- The meaning ---

  /** The stretch without its separators. */
  function Compact(cls: Classes, s: string): string {
    if s == "" then "" else Compact(cls, s[..|s| - 1]) + if cls.separator(s[|s| - 1]) then "" else [s[|s| - 1]]
  }

  /** A separator stands somewhere after a token character. */
  ghost predicate Wrapped(cls: Classes, s: string) {
    exists a, b :: 0 <= a < b < |s| && cls.token(s[a]) && cls.separator(s[b])
  }

  ghost predicate SecretWindow(w: string) {
    (exists c :: c in w && Upper(c)) && (exists c :: c in w && Lower(c))
    && (exists c :: c in w && Digit(c)) && (exists c :: c in w && Symbol(c))
  }

  ghost predicate WindowAt(compacted: string, start: int) {
    0 <= start <= |compacted| - AWS_SECRET_WIDTH && SecretWindow(compacted[start..start + AWS_SECRET_WIDTH])
  }

  ghost predicate HasWindow(compacted: string) {
    exists start :: WindowAt(compacted, start)
  }

  ghost predicate HidesSecret(cls: Classes, s: string) {
    Wrapped(cls, s) && HasWindow(Compact(cls, s))
  }

  /** `text[i..j]` holds only token and separator characters and cannot be made longer. */
  ghost predicate MaximalStretch(cls: Classes, text: string, i: int, j: int) {
    && 0 <= i < j <= |text|
    && (forall k :: i <= k < j ==> InRun(cls, text[k]))
    && (i == 0 || !InRun(cls, text[i - 1]))
    && (j == |text| || !InRun(cls, text[j]))
  }

  ghost predicate ContainsWrappedSecret(cls: Classes, text: string) {
    exists i, j :: MaximalStretch(cls, text, i, j) && HidesSecret(cls, text[i..j])
  }

  /** Compacting goes part by part. */
  lemma {:induction false} CompactParts(cls: Classes, s: string, t: string)
    ensures Compact(cls, s + t) == Compact(cls, s) + Compact(cls, t)
  {
    if t == "" {
      assert s + t == s;
    } else {
      CompactParts(cls, s, t[..|t| - 1]);
      assert (s + t)[..|s + t| - 1] == s + t[..|t| - 1];
    }
  }

  /** It drops the separators and keeps every other character. */
  lemma {:induction false} CompactKeeps(cls: Classes, s: string)
    ensures (forall c :: c in s ==> cls.separator(c)) ==> Compact(cls, s) == ""
    ensures (forall c :: c in s ==> !cls.separator(c)) ==> Compact(cls, s) == s
  {
    if s != "" {
      CompactKeeps(cls, s[..|s| - 1]);
      assert s == s[..|s| - 1] + [s[|s| - 1]];
    }
  }

  /** The punctuation of the separator class, character by character. */
  lemma PunctuationExactly(c: char)
    ensures Punctuation(c) <==> c in ",;\"'()[]<>?" + "!&%#|`*{}^$\\"
  {
    assert c in ",;\"'()[]<>?" + "!&%#|`*{}^$\\" <==> c in ",;\"'()[]<>?" || c in "!&%#|`*{}^$\\";
  }

  // --- The scan ---

  method HasAwsSecretWindow(compacted: string) returns (found: bool)
    ensures found <==> HasWindow(compacted)
  {
    var start := 0;
    while start + AWS_SECRET_WIDTH <= |compacted|
      invariant forall s :: s < start ==> !WindowAt(compacted, s)
    {
      var window := compacted[start..start + AWS_SECRET_WIDTH];
      assert WindowAt(compacted, start) <==> SecretWindow(window);
      if (exists c :: c in window && Upper(c)) && (exists c :: c in window && Lower(c))
         && (exists c :: c in window && Digit(c)) && (exists c :: c in window && Symbol(c)) {
        return true;
      }
      start := start + 1;
    }
    return false;
  }

  /** A run starts at its first token character. */
  function DropLeading(cls: Classes, s: string): string {
    if s == "" then ""
    else
      var init := DropLeading(cls, s[..|s| - 1]);
      if init == "" && cls.separator(s[|s| - 1]) then "" else init + [s[|s| - 1]]
  }

  lemma OneMore(cls: Classes, s: string, c: char)
    requires Distinct(cls)
    requires forall k :: 0 <= k < |s| ==> InRun(cls, s[k])
    requires InRun(cls, c)
    ensures DropLeading(cls, s + [c])
         == if DropLeading(cls, s) == "" && cls.separator(c) then "" else DropLeading(cls, s) + [c]
    ensures Wrapped(cls, s + [c]) <==> Wrapped(cls, s) || (cls.separator(c) && DropLeading(cls, s) != "")
  {
    var t := s + [c];
    assert t[..|s|] == s;
    DropLeadingEmpty(cls, s);
    if Wrapped(cls, s) {
      var a, b :| 0 <= a < b < |s| && cls.token(s[a]) && cls.separator(s[b]);
      assert cls.token(t[a]) && cls.separator(t[b]);
    }
    if cls.separator(c) && DropLeading(cls, s) != "" {
      var a :| 0 <= a < |s| && cls.token(s[a]);
      assert cls.token(t[a]) && cls.separator(t[|s|]);
    }
    if Wrapped(cls, t) {
      var a, b :| 0 <= a < b < |t| && cls.token(t[a]) && cls.separator(t[b]);
      if b < |s| { assert cls.token(s[a]) && cls.separator(s[b]); }
    }
  }

  /** Nothing is left of a stretch exactly when it holds no token character. */
  lemma {:induction false} DropLeadingEmpty(cls: Classes, s: string)
    requires Distinct(cls)
    requires forall k :: 0 <= k < |s| ==> InRun(cls, s[k])
    ensures DropLeading(cls, s) == "" <==> forall k :: 0 <= k < |s| ==> !cls.token(s[k])
  {
    if s != "" {
      DropLeadingEmpty(cls, s[..|s| - 1]);
    }
  }

  lemma {:induction false} DropLeadingCompacts(cls: Classes, s: string)
    ensures Compact(cls, DropLeading(cls, s)) == Compact(cls, s)
  {
    if s != "" {
      var init, c := s[..|s| - 1], s[|s| - 1];
      DropLeadingCompacts(cls, init);
      if DropLeading(cls, init) != "" || !cls.separator(c) {
        assert (DropLeading(cls, init) + [c])[..|DropLeading(cls, init)|] == DropLeading(cls, init);
      }
    }
  }

  /** Whether the run so far is a wrapped secret. */
  method Flush(cls: Classes, run: string, sawSeparator: bool, ghost stretch: string) returns (matched: bool)
    requires run == DropLeading(cls, stretch) && (sawSeparator <==> Wrapped(cls, stretch))
    ensures matched <==> HidesSecret(cls, stretch)
  {
    var compacted := Compact(cls, run);
    DropLeadingCompacts(cls, stretch);
    var windowed := HasAwsSecretWindow(compacted);
    return sawSeparator && |compacted| >= AWS_SECRET_WIDTH && windowed;
  }

  /** No maximal stretch that ends before `k` hides a secret. */
  ghost predicate CleanBefore(cls: Classes, text: string, k: int) {
    forall i, j :: MaximalStretch(cls, text, i, j) && j < k ==> !HidesSecret(cls, text[i..j])
  }

  /** `text[start..k]` is a stretch that could not have begun earlier. */
  ghost predicate OpenStretch(cls: Classes, text: string, start: int, k: int) {
    && 0 <= start <= k <= |text| && (start == 0 || !InRun(cls, text[start - 1]))
    && forall p :: start <= p < k ==> InRun(cls, text[p])
  }

  /** What the scan holds at position `k`, having begun the current stretch at `start`. */
  ghost predicate Scanning(cls: Classes, text: string, start: int, k: int, run: string, sawSeparator: bool) {
    && OpenStretch(cls, text, start, k)
    && run == DropLeading(cls, text[start..k]) && (sawSeparator <==> Wrapped(cls, text[start..k]))
    && CleanBefore(cls, text, start)
  }

  lemma ScanContinues(cls: Classes, text: string, start: int, k: int, run: string, sawSeparator: bool)
    requires Distinct(cls) && Scanning(cls, text, start, k, run, sawSeparator) && k < |text| && InRun(cls, text[k])
    ensures Scanning(cls, text, start, k + 1, if run == "" && cls.separator(text[k]) then "" else run + [text[k]],
                     sawSeparator || (cls.separator(text[k]) && run != ""))
  {
    assert text[start..k + 1] == text[start..k] + [text[k]];
    OneMore(cls, text[start..k], text[k]);
  }

  lemma ScanRestarts(cls: Classes, text: string, start: int, k: int)
    requires Distinct(cls) && OpenStretch(cls, text, start, k) && CleanBefore(cls, text, start)
    requires k < |text| && !InRun(cls, text[k]) && !HidesSecret(cls, text[start..k])
    ensures Scanning(cls, text, k + 1, k + 1, "", false)
  {
    assert text[k + 1..k + 1] == "";
    forall i, j | MaximalStretch(cls, text, i, j) && j < k + 1 ensures !HidesSecret(cls, text[i..j]) {
      if start <= j { assert i == start && j == k; }
    }
  }

  /** A run of nothing hides nothing. */
  lemma EmptyRunHidesNothing(cls: Classes, s: string)
    requires Distinct(cls) && (forall k :: 0 <= k < |s| ==> InRun(cls, s[k])) && DropLeading(cls, s) == ""
    ensures !Wrapped(cls, s)
  {
    DropLeadingEmpty(cls, s);
  }

  lemma ScanFinishes(cls: Classes, text: string, start: int)
    requires Distinct(cls) && OpenStretch(cls, text, start, |text|) && CleanBefore(cls, text, start)
    ensures ContainsWrappedSecret(cls, text) <==> HidesSecret(cls, text[start..|text|])
  {
    if HidesSecret(cls, text[start..|text|]) { assert MaximalStretch(cls, text, start, |text|); }
    if i, j :| MaximalStretch(cls, text, i, j) && HidesSecret(cls, text[i..j]) {
      assert start <= j;
    }
  }

  lemma StretchFound(cls: Classes, text: string, start: int, k: int)
    requires OpenStretch(cls, text, start, k) && k < |text| && !InRun(cls, text[k])
    requires HidesSecret(cls, text[start..k])
    ensures ContainsWrappedSecret(cls, text)
  {
    assert start < k;
    assert MaximalStretch(cls, text, start, k);
  }

  /** Whether the stretch that ends at `k` hides a secret. */
  method Judge(cls: Classes, ghost text: string, ghost start: int, ghost k: int, run: string, sawSeparator: bool)
    returns (matched: bool)
    requires Distinct(cls) && Scanning(cls, text, start, k, run, sawSeparator)
    ensures matched <==> HidesSecret(cls, text[start..k])
  {
    if run == "" {
      EmptyRunHidesNothing(cls, text[start..k]);
      return false;
    }
    matched := Flush(cls, run, sawSeparator, text[start..k]);
  }

  /** The pass itself: the run grows over a stretch and is judged when the stretch ends. */
  method Scan(cls: Classes, text: string) returns (found: bool)
    requires Distinct(cls)
    ensures found <==> ContainsWrappedSecret(cls, text)
  {
    var run := "";
    var sawSeparator := false;
    ghost var start := 0;
    for k := 0 to |text|
      invariant Scanning(cls, text, start, k, run, sawSeparator)
    {
      var c := text[k];
      if InRun(cls, c) { ScanContinues(cls, text, start, k, run, sawSeparator); }
      if cls.token(c) {
        run := run + [c];
        continue;
      }
      if cls.separator(c) && run != "" {
        run := run + [c];
        sawSeparator := true;
        continue;
      }
      if cls.separator(c) { continue; }
      var matched := Judge(cls, text, start, k, run, sawSeparator);
      if matched {
        StretchFound(cls, text, start, k);
        return true;
      }
      ScanRestarts(cls, text, start, k);
      start := k + 1;
      run, sawSeparator := "", false;
    }
    found := Judge(cls, text, start, |text|, run, sawSeparator);
    ScanFinishes(cls, text, start);
  }

  method ContainsWrappedAwsSecret(text: string) returns (found: bool)
    ensures found <==> ContainsWrappedSecret(AWS, text)
  {
    found := Scan(AWS, text);
  }

  // --- Wrapping does not matter ---

  /** `s` is a stretch of its own between `pre` and `post`. */
  ghost predicate Apart(cls: Classes, pre: string, s: string, post: string) {
    && s != "" && (forall k :: 0 <= k < |s| ==> InRun(cls, s[k]))
    && (pre == "" || !InRun(cls, pre[|pre| - 1])) && (post == "" || !InRun(cls, post[0]))
  }

  /** A stretch lies in `pre`, or is `s`, or lies in `post`. */
  ghost predicate InSomePart(cls: Classes, pre: string, s: string, post: string, i: int, j: int) {
    var n, m := |pre|, |pre| + |s|;
    || (j <= n && MaximalStretch(cls, pre, i, j))
    || (i == n && j == m)
    || (i > m && MaximalStretch(cls, post, i - m, j - m))
  }

  lemma Indexes(pre: string, s: string, post: string)
    ensures var text, n, m := pre + s + post, |pre|, |pre| + |s|;
            && (forall p :: 0 <= p < n ==> text[p] == pre[p])
            && (forall p :: n <= p < m ==> text[p] == s[p - n])
            && (forall p :: m <= p < |text| ==> text[p] == post[p - m])
  {
  }

  lemma StretchIsInSomePart(cls: Classes, pre: string, s: string, post: string, i: int, j: int)
    requires Apart(cls, pre, s, post) && MaximalStretch(cls, pre + s + post, i, j)
    ensures InSomePart(cls, pre, s, post, i, j)
  {
    var text, n, m := pre + s + post, |pre|, |pre| + |s|;
    Indexes(pre, s, post);
    assert n > 0 ==> !InRun(cls, text[n - 1]);
    assert m < |text| ==> !InRun(cls, text[m]);
    assert forall p :: n <= p < m ==> InRun(cls, text[p]);
    if i < n {
      assert forall p :: i <= p < j ==> InRun(cls, pre[p]);
    } else if i >= m {
      assert InRun(cls, text[i]);
      forall p | i - m <= p < j - m ensures InRun(cls, post[p]) { assert text[p + m] == post[p]; }
    }
  }

  lemma PartIsStretch(cls: Classes, pre: string, s: string, post: string, i: int, j: int)
    requires Apart(cls, pre, s, post) && InSomePart(cls, pre, s, post, i, j)
    ensures MaximalStretch(cls, pre + s + post, i, j)
  {
    var text, n, m := pre + s + post, |pre|, |pre| + |s|;
    Indexes(pre, s, post);
    if j <= n && MaximalStretch(cls, pre, i, j) {
      assert InRun(cls, pre[j - 1]) && j < n;
    } else if i == n && j == m {
      forall p | n <= p < m ensures InRun(cls, text[p]) { assert text[p] == s[p - n]; }
    } else {
      assert text[i - 1] == post[i - 1 - m];
    }
  }

  /** The characters of a part of a text. */
  lemma Slices(pre: string, s: string, post: string)
    ensures var text, n, m := pre + s + post, |pre|, |pre| + |s|;
            && (forall i, j :: 0 <= i <= j <= n ==> text[i..j] == pre[i..j])
            && text[n..m] == s
            && (forall i, j :: m <= i <= j <= |text| ==> text[i..j] == post[i - m..j - m])
  {
    Indexes(pre, s, post);
  }

  lemma HiddenInSomePart(cls: Classes, pre: string, s: string, post: string, i: int, j: int)
    requires Apart(cls, pre, s, post)
    requires MaximalStretch(cls, pre + s + post, i, j) && HidesSecret(cls, (pre + s + post)[i..j])
    ensures ContainsWrappedSecret(cls, pre) || HidesSecret(cls, s) || ContainsWrappedSecret(cls, post)
  {
    StretchIsInSomePart(cls, pre, s, post, i, j);
    Slices(pre, s, post);
  }

  lemma PartIsHidden(cls: Classes, pre: string, s: string, post: string, i: int, j: int, part: string)
    requires Apart(cls, pre, s, post) && InSomePart(cls, pre, s, post, i, j)
    requires 0 <= i <= j <= |pre + s + post| && (pre + s + post)[i..j] == part && HidesSecret(cls, part)
    ensures ContainsWrappedSecret(cls, pre + s + post)
  {
    PartIsStretch(cls, pre, s, post, i, j);
  }

  lemma HiddenBefore(cls: Classes, pre: string, s: string, post: string)
    requires Apart(cls, pre, s, post) && ContainsWrappedSecret(cls, pre)
    ensures ContainsWrappedSecret(cls, pre + s + post)
  {
    var i, j :| MaximalStretch(cls, pre, i, j) && HidesSecret(cls, pre[i..j]);
    Slices(pre, s, post);
    PartIsHidden(cls, pre, s, post, i, j, pre[i..j]);
  }

  lemma PostStretch(cls: Classes, pre: string, s: string, post: string, i: int, j: int)
    requires Apart(cls, pre, s, post) && MaximalStretch(cls, post, i, j)
    ensures InSomePart(cls, pre, s, post, i + |pre| + |s|, j + |pre| + |s|)
  {
    assert InRun(cls, post[i]);
  }

  lemma StretchAfterIsHidden(cls: Classes, pre: string, s: string, post: string, i: int, j: int)
    requires Apart(cls, pre, s, post) && MaximalStretch(cls, post, i, j) && HidesSecret(cls, post[i..j])
    ensures ContainsWrappedSecret(cls, pre + s + post)
  {
    var m := |pre| + |s|;
    PostStretch(cls, pre, s, post, i, j);
    Slices(pre, s, post);
    assert (pre + s + post)[i + m..j + m] == post[i..j];
    PartIsHidden(cls, pre, s, post, i + m, j + m, post[i..j]);
  }

  lemma HiddenAfter(cls: Classes, pre: string, s: string, post: string)
    requires Apart(cls, pre, s, post) && ContainsWrappedSecret(cls, post)
    ensures ContainsWrappedSecret(cls, pre + s + post)
  {
    var i, j :| MaximalStretch(cls, post, i, j) && HidesSecret(cls, post[i..j]);
    StretchAfterIsHidden(cls, pre, s, post, i, j);
  }

  lemma HiddenWithin(cls: Classes, pre: string, s: string, post: string)
    requires Apart(cls, pre, s, post) && HidesSecret(cls, s)
    ensures ContainsWrappedSecret(cls, pre + s + post)
  {
    Slices(pre, s, post);
    PartIsHidden(cls, pre, s, post, |pre|, |pre| + |s|, s);
  }

  lemma HiddenSomewhere(cls: Classes, pre: string, s: string, post: string)
    requires Apart(cls, pre, s, post) && ContainsWrappedSecret(cls, pre + s + post)
    ensures ContainsWrappedSecret(cls, pre) || HidesSecret(cls, s) || ContainsWrappedSecret(cls, post)
  {
    var text := pre + s + post;
    var i, j :| MaximalStretch(cls, text, i, j) && HidesSecret(cls, text[i..j]);
    HiddenInSomePart(cls, pre, s, post, i, j);
  }

  /** A text with a stretch of its own hides a secret exactly when one of the three parts does. */
  lemma PartsDecide(cls: Classes, pre: string, s: string, post: string)
    requires Apart(cls, pre, s, post)
    ensures ContainsWrappedSecret(cls, pre + s + post) <==>
            ContainsWrappedSecret(cls, pre) || HidesSecret(cls, s) || ContainsWrappedSecret(cls, post)
  {
    if ContainsWrappedSecret(cls, pre + s + post) { HiddenSomewhere(cls, pre, s, post); }
    if ContainsWrappedSecret(cls, pre) { HiddenBefore(cls, pre, s, post); }
    if HidesSecret(cls, s) { HiddenWithin(cls, pre, s, post); }
    if ContainsWrappedSecret(cls, post) { HiddenAfter(cls, pre, s, post); }
  }

  /** Where and how often separators wrap a token never changes the answer, as long as one does. */
  lemma WrappingIgnored(cls: Classes, pre: string, s: string, t: string, post: string)
    requires Apart(cls, pre, s, post) && Apart(cls, pre, t, post)
    requires Compact(cls, s) == Compact(cls, t) && Wrapped(cls, s) && Wrapped(cls, t)
    ensures ContainsWrappedSecret(cls, pre + s + post) <==> ContainsWrappedSecret(cls, pre + t + post)
  {
    PartsDecide(cls, pre, s, post);
    PartsDecide(cls, pre, t, post);
  }

  /** An unwrapped token is not this scanner's business, whatever it contains. */
  lemma UnwrappedNeverFound(cls: Classes, pre: string, s: string, post: string)
    requires Apart(cls, pre, s, post) && !Wrapped(cls, s)
    requires !ContainsWrappedSecret(cls, pre) && !ContainsWrappedSecret(cls, post)
    ensures !ContainsWrappedSecret(cls, pre + s + post)
  {
    PartsDecide(cls, pre, s, post);
  }
}

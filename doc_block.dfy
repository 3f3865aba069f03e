/**
 * `VCRTestListener::parseDocBlock`: every `@vcr` directive of a doc comment.
 *
 * The PHP code runs `preg_match_all('/@vcr (.*)(\r\n|\r|\n)/U', ...)` and
 * trims each first capture group. The `U` modifier makes `.*` lazy, so a
 * match attempted at a position succeeds exactly when the text there starts
 * with "@vcr " and a carriage return or line feed follows somewhere later;
 * the capture is everything up to the first such character, and the match
 * also consumes the line end, `\r\n` being tried before `\r`. When the
 * attempt fails, the search resumes one character further on; after a
 * match, it resumes just past the consumed line end. `Scan` is that search,
 * written as a scanner over the text rather than as a regex engine.
 */
module DocBlock {
  import opened Wrappers

  /** The tag followed by the single space the pattern requires. */
  const TagPrefix: string := "@vcr "

  /** The line feed and carriage return that end a directive. */
  predicate IsLineTerminator(c: char) {
    c == '\r' || c == '\n'
  }

  const VerticalTab: char := 11 as char

  /** The characters PHP's trim() strips when it is given no character list. */
  predicate IsTrimmable(c: char) {
    c == ' ' || c == '\t' || c == '\n' || c == '\r' || c == '\0' || c == VerticalTab
  }

  predicate NoTerminator(s: string) {
    forall i :: 0 <= i < |s| ==> !IsLineTerminator(s[i])
  }

  /** Neither end of `s` is a character trim() would strip. */
  predicate IsTrimmed(s: string) {
    s == [] || (!IsTrimmable(s[0]) && !IsTrimmable(s[|s| - 1]))
  }

  /** PHP's empty() on a string or on null / false: "", "0" and the absent value. */
  predicate IsPhpEmpty(v: Option<string>) {
    v == None || v == Some("") || v == Some("0")
  }

  /** "@vcr " occurs at position `p` of `s`, spelled out one character at a time. */
  predicate TagAt(s: string, p: int) {
    && 0 <= p && p + |TagPrefix| <= |s|
    && s[p] == '@' && s[p + 1] == 'v' && s[p + 2] == 'c' && s[p + 3] == 'r' && s[p + 4] == ' '
  }

  lemma TagAtPrefix(s: string, p: int)
    requires 0 <= p && p + |TagPrefix| <= |s|
    ensures TagAt(s, p) <==> s[p..p + |TagPrefix|] == TagPrefix
  {
  }

  /**
   * The pattern matches at position `p` of `s` with first capture group `c`:
   * the tag, then `c`, which holds no line end, then a line end.
   */
  predicate MatchAt(s: string, p: int, c: string) {
    TagAt(s, p) && p + |TagPrefix| + |c| < |s|
    && s[p + |TagPrefix|..p + |TagPrefix| + |c|] == c
    && NoTerminator(c) && IsLineTerminator(s[p + |TagPrefix| + |c|])
  }

  /** One match of the pattern: where it starts and its first capture group. */
  datatype Match = Match(start: nat, capture: string)

  /** The index of the line end that closes a match. */
  function MatchEnd(m: Match): nat {
    m.start + |TagPrefix| + |m.capture|
  }

  /** Index of the first line end at or after `j` in `s`, or |s| when there is none. */
  function LineEndFrom(s: string, j: nat): (k: nat)
    requires j <= |s|
    ensures j <= k <= |s|
    ensures forall x :: j <= x < k ==> !IsLineTerminator(s[x])
    ensures k < |s| ==> IsLineTerminator(s[k])
    decreases |s| - j
  {
    if j == |s| || IsLineTerminator(s[j]) then j else LineEndFrom(s, j + 1)
  }

  /** The first line end at or after `j` is the one at `k` when none comes between. */
  lemma LineEndIs(s: string, j: nat, k: nat)
    requires j <= k < |s| && IsLineTerminator(s[k])
    requires forall x :: j <= x < k ==> !IsLineTerminator(s[x])
    ensures LineEndFrom(s, j) == k
  {
  }

  /** Length of the line end `(\r\n|\r|\n)` consumed at `s[j]`. */
  function TerminatorLength(s: string, j: nat): (n: nat)
    requires j < |s| && IsLineTerminator(s[j])
    ensures 1 <= n && j + n <= |s|
  {
    if s[j] == '\r' && j + 1 < |s| && s[j + 1] == '\n' then 2 else 1
  }

  /** The first capture groups of the matches, in order. */
  function Captures(ms: seq<Match>): (r: seq<string>)
    ensures |r| == |ms|
    ensures forall k :: 0 <= k < |r| ==> r[k] == ms[k].capture
  {
    if ms == [] then [] else [ms[0].capture] + Captures(ms[1..])
  }

  /** The pattern matches at `i`: the tag is there and a line end follows it somewhere. */
  predicate MatchesAt(s: string, i: nat)
    requires i <= |s|
  {
    TagAt(s, i) && LineEndFrom(s, i + |TagPrefix|) < |s|
  }

  /** Where the line end that closes a match at `i` is: the first one after the tag. */
  function LineEndAt(s: string, i: nat): (j: nat)
    requires i <= |s| && MatchesAt(s, i)
    ensures i + |TagPrefix| <= j < |s| && IsLineTerminator(s[j])
  {
    LineEndFrom(s, i + |TagPrefix|)
  }

  /**
   * The matches `preg_match_all` finds once its search has reached position
   * `i` of `s`: a match at `i` if there is one, then the matches from just
   * past its line end; otherwise the matches from `i + 1`.
   */
  function ScanFrom(s: string, i: nat): seq<Match>
    requires i <= |s|
    decreases |s| - i
  {
    if i == |s| then []
    else if MatchesAt(s, i) then
      var j := LineEndAt(s, i);
      [Match(i, s[i + |TagPrefix|..j])] + ScanFrom(s, j + TerminatorLength(s, j))
    else ScanFrom(s, i + 1)
  }

  /** All matches of the pattern in `s`, in the order `preg_match_all` finds them. */
  function Scan(s: string): seq<Match> {
    ScanFrom(s, 0)
  }

  /** What the search reports at a position where the pattern matches is a real match. */
  lemma MatchHere(s: string, i: nat)
    requires i <= |s| && MatchesAt(s, i)
    ensures MatchAt(s, i, s[i + |TagPrefix|..LineEndAt(s, i)])
  {
  }

  /** All matches in `ms` are real matches at or after `i`, in text order. */
  predicate SoundFrom(s: string, i: nat, ms: seq<Match>) {
    && (forall k :: 0 <= k < |ms| ==> i <= ms[k].start && MatchAt(s, ms[k].start, ms[k].capture))
    && (forall k, l :: 0 <= k < l < |ms| ==> MatchEnd(ms[k]) < ms[l].start)
  }

  lemma SoundCons(s: string, i: nat, m: Match, n: nat, rest: seq<Match>)
    requires i <= m.start && MatchAt(s, m.start, m.capture) && MatchEnd(m) < n
    requires SoundFrom(s, n, rest)
    ensures SoundFrom(s, i, [m] + rest)
  {
  }

  /**
   * Every match the search reports from position `i` on is a real match of
   * the pattern at or after `i`, and each one starts after the line end that
   * closes the one before it.
   */
  lemma {:induction false} ScanFromSound(s: string, i: nat)
    requires i <= |s|
    ensures SoundFrom(s, i, ScanFrom(s, i))
    decreases |s| - i
  {
    if i < |s| {
      if MatchesAt(s, i) {
        var j := LineEndAt(s, i);
        var n := j + TerminatorLength(s, j);
        ScanFromSound(s, n);
        MatchHere(s, i);
        SoundCons(s, i, Match(i, s[i + |TagPrefix|..j]), n, ScanFrom(s, n));
      } else {
        ScanFromSound(s, i + 1);
      }
    }
  }

  /** Every match the scanner reports is a real match of the pattern, and they come in text order. */
  lemma ScanSound(s: string)
    ensures forall k :: 0 <= k < |Scan(s)| ==> MatchAt(s, Scan(s)[k].start, Scan(s)[k].capture)
    ensures forall k, l :: 0 <= k < l < |Scan(s)| ==> MatchEnd(Scan(s)[k]) < Scan(s)[l].start
  {
    ScanFromSound(s, 0);
  }

  /** trim()'s left half: drops the leading run of trimmable characters. */
  function TrimStart(s: string): (r: string)
    ensures |r| <= |s| && r == s[|s| - |r|..]
    ensures forall i :: 0 <= i < |s| - |r| ==> IsTrimmable(s[i])
    ensures r != [] ==> !IsTrimmable(r[0])
  {
    if s != [] && IsTrimmable(s[0]) then TrimStart(s[1..]) else s
  }

  /** trim()'s right half: drops the trailing run of trimmable characters. */
  function TrimEnd(s: string): (r: string)
    ensures |r| <= |s| && r == s[..|r|]
    ensures forall i :: |r| <= i < |s| ==> IsTrimmable(s[i])
    ensures r != [] ==> !IsTrimmable(r[|r| - 1])
  {
    if s != [] && IsTrimmable(s[|s| - 1]) then TrimEnd(s[..|s| - 1]) else s
  }

  /** PHP's trim() with its default character list. */
  function Trim(s: string): (r: string)
    ensures IsTrimmed(r)
    ensures IsTrimmed(s) ==> r == s
    ensures NoTerminator(s) ==> NoTerminator(r)
  {
    TrimEnd(TrimStart(s))
  }

  lemma {:induction false} TrimStartPadding(pad: string, t: string)
    requires forall i :: 0 <= i < |pad| ==> IsTrimmable(pad[i])
    requires t == [] || !IsTrimmable(t[0])
    ensures TrimStart(pad + t) == t
    decreases |pad|
  {
    if pad == [] {
      assert pad + t == t;
    } else {
      assert (pad + t)[1..] == pad[1..] + t;
      TrimStartPadding(pad[1..], t);
    }
  }

  lemma {:induction false} TrimEndPadding(t: string, pad: string)
    requires forall i :: 0 <= i < |pad| ==> IsTrimmable(pad[i])
    requires t == [] || !IsTrimmable(t[|t| - 1])
    ensures TrimEnd(t + pad) == t
    decreases |pad|
  {
    if pad == [] {
      assert t + pad == t;
    } else {
      assert (t + pad)[..|t + pad| - 1] == t + pad[..|pad| - 1];
      TrimEndPadding(t, pad[..|pad| - 1]);
    }
  }

  /**
   * trim() removes exactly the padding: whatever trimmable characters
   * surround a trimmed core, the core is what is left.
   */
  lemma TrimPadding(before: string, core: string, after: string)
    requires forall i :: 0 <= i < |before| ==> IsTrimmable(before[i])
    requires forall i :: 0 <= i < |after| ==> IsTrimmable(after[i])
    requires IsTrimmed(core)
    ensures Trim(before + core + after) == core
  {
    if core == [] {
      var all := before + core + after;
      assert forall i :: 0 <= i < |all| ==> IsTrimmable(all[i]) by {
        forall i | 0 <= i < |all| ensures IsTrimmable(all[i]) {
          if i >= |before| { assert all[i] == after[i - |before|]; }
        }
      }
      assert all + [] == all;
      TrimStartPadding(all, []);
    } else {
      assert before + core + after == before + (core + after);
      TrimStartPadding(before, core + after);
      TrimEndPadding(core, after);
    }
  }

  /** `trim` applied to each string of a list. */
  function TrimAll(ss: seq<string>): (r: seq<string>)
    ensures |r| == |ss|
    ensures forall k :: 0 <= k < |r| ==> r[k] == Trim(ss[k])
  {
    if ss == [] then [] else [Trim(ss[0])] + TrimAll(ss[1..])
  }

  /**
   * `parseDocBlock($docBlock, '@vcr')`: an empty doc comment gives no
   * directive; otherwise one directive per match, in order, each trimmed and
   * free of line ends.
   */
  function ParseDocBlock(docBlock: Option<string>): (r: seq<string>)
    ensures IsPhpEmpty(docBlock) ==> r == []
    ensures !IsPhpEmpty(docBlock) ==> |r| == |Scan(docBlock.value)|
    ensures forall k :: 0 <= k < |r| ==> IsTrimmed(r[k]) && NoTerminator(r[k])
  {
    if IsPhpEmpty(docBlock) then []
    else
      ScanSound(docBlock.value);
      TrimAll(Captures(Scan(docBlock.value)))
  }

  /** Each directive is the trimmed capture of the match in the same place. */
  lemma ParseDocBlockMatches(docBlock: Option<string>, k: nat)
    requires !IsPhpEmpty(docBlock) && k < |ParseDocBlock(docBlock)|
    ensures var m := Scan(docBlock.value)[k];
            MatchAt(docBlock.value, m.start, m.capture) && ParseDocBlock(docBlock)[k] == Trim(m.capture)
  {
    ScanSound(docBlock.value);
  }

  /** A real match of the pattern is a position where the search stops, closing at the same line end. */
  lemma MatchAtMatches(s: string, p: nat, c: string)
    requires MatchAt(s, p, c)
    ensures p <= |s| && MatchesAt(s, p) && LineEndAt(s, p) == p + |TagPrefix| + |c|
  {
  }

  /**
   * The search misses no match: wherever the pattern matches at or after
   * `i`, the search from `i` reports a match that starts there or whose tag
   * and capture run over that position (the capture swallows a second tag on
   * the same line).
   */
  lemma {:induction false} ScanFromComplete(s: string, i: nat, p: nat)
    requires i <= p <= |s| && MatchesAt(s, p)
    ensures exists k :: 0 <= k < |ScanFrom(s, i)| && ScanFrom(s, i)[k].start <= p < MatchEnd(ScanFrom(s, i)[k])
    decreases |s| - i
  {
    if MatchesAt(s, i) {
      var j := LineEndAt(s, i);
      var n := j + TerminatorLength(s, j);
      MatchedAt(s, i);
      var m := Match(i, s[i + |TagPrefix|..j]);
      assert ScanFrom(s, i)[0] == m && MatchEnd(m) == j;
      if j <= p {
        assert s[p] == '@';
        ScanFromComplete(s, n, p);
        var k :| 0 <= k < |ScanFrom(s, n)| && ScanFrom(s, n)[k].start <= p < MatchEnd(ScanFrom(s, n)[k]);
        assert ScanFrom(s, i)[k + 1] == ScanFrom(s, n)[k];
      }
    } else {
      ScanFromComplete(s, i + 1, p);
    }
  }

  /** The search finds nothing exactly when the pattern matches at no position. */
  lemma ScanEmpty(s: string)
    ensures Scan(s) == [] <==> forall p :: 0 <= p <= |s| ==> !MatchesAt(s, p)
  {
    if Scan(s) != [] {
      ScanSound(s);
      MatchAtMatches(s, Scan(s)[0].start, Scan(s)[0].capture);
    }
    if exists p :: 0 <= p <= |s| && MatchesAt(s, p) {
      var p :| 0 <= p <= |s| && MatchesAt(s, p);
      ScanFromComplete(s, 0, p);
    }
  }

  /**
   * A doc comment yields no directive exactly when it is empty in PHP's
   * sense or the pattern matches nowhere in it.
   */
  lemma ParseNoDirective(docBlock: Option<string>)
    ensures ParseDocBlock(docBlock) == []
            <==> IsPhpEmpty(docBlock) || forall p :: 0 <= p <= |docBlock.value| ==> !MatchesAt(docBlock.value, p)
  {
    if !IsPhpEmpty(docBlock) {
      ScanEmpty(docBlock.value);
    }
  }

  /**
   * Every place where the pattern matches in a non-empty doc comment is
   * covered by one of the directives: the match starting there, or the
   * earlier match on the same line whose capture holds it.
   */
  lemma ParseComplete(docBlock: Option<string>, p: nat)
    requires !IsPhpEmpty(docBlock) && p <= |docBlock.value| && MatchesAt(docBlock.value, p)
    ensures exists k :: && 0 <= k < |ParseDocBlock(docBlock)|
                        && Scan(docBlock.value)[k].start <= p < MatchEnd(Scan(docBlock.value)[k])
                        && ParseDocBlock(docBlock)[k] == Trim(Scan(docBlock.value)[k].capture)
  {
    var s := docBlock.value;
    ScanFromComplete(s, 0, p);
    var k :| 0 <= k < |Scan(s)| && Scan(s)[k].start <= p < MatchEnd(Scan(s)[k]);
    assert ParseDocBlock(docBlock)[k] == Trim(Captures(Scan(s))[k]);
  }

  /**
   * The last match leaves nothing behind: wherever the pattern matches, it
   * does so before the line end that closes the last match.
   */
  lemma LastMatchCovers(s: string, p: nat)
    requires Scan(s) != [] && p <= |s|
    ensures MatchesAt(s, p) ==> p < MatchEnd(Scan(s)[|Scan(s)| - 1])
  {
    if MatchesAt(s, p) {
      ScanFromComplete(s, 0, p);
      ScanSound(s);
      var k :| 0 <= k < |Scan(s)| && Scan(s)[k].start <= p < MatchEnd(Scan(s)[k]);
    }
  }

  /** Text in which "@vcr " never occurs yields no directive. */
  lemma ParseWithoutTag(docBlock: Option<string>)
    requires docBlock.Some? ==> forall p :: !TagAt(docBlock.value, p)
    ensures ParseDocBlock(docBlock) == []
  {
    ParseNoDirective(docBlock);
  }

  /**
   * Text with no carriage return or line feed yields no directive, even when
   * it holds a `@vcr` tag: the pattern needs a line end after the argument.
   */
  lemma ParseWithoutLineEnd(docBlock: Option<string>)
    requires docBlock.Some? ==> NoTerminator(docBlock.value)
    ensures ParseDocBlock(docBlock) == []
  {
    ParseNoDirective(docBlock);
  }

  /** A tag whose argument is not followed by a line end gives no directive. */
  lemma UnterminatedTag()
    ensures ParseDocBlock(Some("@vcr fixtures/login")) == []
  {
    var doc := "@vcr fixtures/login";
    assert NoTerminator(doc);
    ParseWithoutLineEnd(Some(doc));
  }

  /** "@vcr " occurs nowhere in `t`. */
  predicate NoTag(t: string) {
    forall q :: 0 <= q < |t| ==> !TagAt(t, q)
  }

  /** A tag lying wholly inside a stretch of `s` is a tag of that stretch. */
  lemma TagInside(s: string, i: nat, gap: string, q: nat)
    requires i + |gap| <= |s| && s[i..i + |gap|] == gap
    requires i <= q && q + |TagPrefix| <= i + |gap|
    ensures TagAt(s, q) == TagAt(gap, q - i)
  {
    assert s[q] == gap[q - i] && s[q + 1] == gap[q - i + 1] && s[q + 2] == gap[q - i + 2];
    assert s[q + 3] == gap[q - i + 3] && s[q + 4] == gap[q - i + 4];
  }

  /**
   * A stretch without the tag, followed by an '@' or by the end of the text,
   * has no tag of `s` starting in it: one that began inside would run into
   * the '@', which is none of the tag's later characters.
   */
  lemma GapNoTag(s: string, i: nat, gap: string)
    requires i + |gap| <= |s| && s[i..i + |gap|] == gap && NoTag(gap)
    requires i + |gap| == |s| || s[i + |gap|] == '@'
    ensures forall q :: i <= q < i + |gap| ==> !TagAt(s, q)
  {
    forall q | i <= q < i + |gap| ensures !TagAt(s, q) {
      if q + |TagPrefix| <= i + |gap| {
        TagInside(s, i, gap, q);
      }
    }
  }

  /** The search passes over positions where no tag starts. */
  lemma {:induction false} SkipNoTag(s: string, i: nat, e: nat)
    requires i <= e <= |s|
    requires forall q :: i <= q < e ==> !TagAt(s, q)
    ensures ScanFrom(s, i) == ScanFrom(s, e)
    decreases e - i
  {
    if i < e {
      assert !TagAt(s, i);
      SkipNoTag(s, i + 1, e);
    }
  }

  /** The search passes over a stretch without the tag that ends at an '@' or at the end of the text. */
  lemma SkipGap(s: string, i: nat, gap: string)
    requires i + |gap| <= |s| && s[i..i + |gap|] == gap && NoTag(gap)
    requires i + |gap| == |s| || s[i + |gap|] == '@'
    ensures ScanFrom(s, i) == ScanFrom(s, i + |gap|)
  {
    GapNoTag(s, i, gap);
    SkipNoTag(s, i, i + |gap|);
  }

  /** The three line ends the pattern accepts. */
  datatype LineEnd = LF | CR | CRLF

  function Terminator(e: LineEnd): string {
    match e
    case LF => "\n"
    case CR => "\r"
    case CRLF => "\r\n"
  }

  /**
   * One tagged line of a doc comment: the text before the tag (such as the
   * " * " that opens a line of a doc comment), the tag's argument, and the
   * line end that closes it.
   */
  datatype TagLine = TagLine(gutter: string, argument: string, end: LineEnd)

  predicate WellFormed(lines: seq<TagLine>) {
    forall k :: 0 <= k < |lines| ==> NoTag(lines[k].gutter) && NoTerminator(lines[k].argument)
  }

  /** The doc comment made of the given tagged lines followed by a closing text. */
  function Render(lines: seq<TagLine>, closing: string): string {
    if lines == [] then closing
    else lines[0].gutter + TagPrefix + lines[0].argument + Terminator(lines[0].end) + Render(lines[1..], closing)
  }

  lemma SlicePointwise(s: string, i: nat, t: string)
    requires i + |t| <= |s| && s[i..i + |t|] == t
    ensures forall x :: 0 <= x < |t| ==> s[i + x] == t[x]
  {
  }

  /** At a tag line the pattern matches, closing at the line's own line end and capturing its argument. */
  lemma TagLineHead(s: string, i: nat, argument: string, e: LineEnd)
    requires NoTerminator(argument)
    requires i + |TagPrefix| + |argument| + |Terminator(e)| <= |s|
    requires s[i..i + |TagPrefix| + |argument| + |Terminator(e)|] == TagPrefix + argument + Terminator(e)
    ensures MatchesAt(s, i) && LineEndAt(s, i) == i + |TagPrefix| + |argument|
    ensures s[i + |TagPrefix|..LineEndAt(s, i)] == argument
    ensures s[LineEndAt(s, i)] == Terminator(e)[0]
    ensures e == CRLF ==> s[LineEndAt(s, i) + 1] == '\n'
  {
    var line := TagPrefix + argument + Terminator(e);
    SlicePointwise(s, i, line);
    assert s[i + 4] == line[4];
    var j := i + |TagPrefix| + |argument|;
    assert s[j] == line[|TagPrefix| + |argument|] == Terminator(e)[0];
    forall x | i + |TagPrefix| <= x < j ensures !IsLineTerminator(s[x]) {
      assert s[x] == line[x - i] == argument[x - i - |TagPrefix|];
    }
    LineEndIs(s, i + |TagPrefix|, j);
    forall x | 0 <= x < |argument| ensures s[i + |TagPrefix|..j][x] == argument[x] {
      assert s[i + |TagPrefix| + x] == line[|TagPrefix| + x];
    }
    assert s[i + |TagPrefix|..j] == argument;
    if e == CRLF {
      assert s[j + 1] == line[|TagPrefix| + |argument| + 1];
    }
  }

  /** At a tag line, the search reports its argument and goes on after the line end. */
  lemma TagLineMatched(s: string, i: nat, argument: string, e: LineEnd)
    requires NoTerminator(argument)
    requires i + |TagPrefix| + |argument| + |Terminator(e)| <= |s|
    requires s[i..i + |TagPrefix| + |argument| + |Terminator(e)|] == TagPrefix + argument + Terminator(e)
    ensures ScanFrom(s, i) == [Match(i, argument)] + ScanFrom(s, i + |TagPrefix| + |argument| + |Terminator(e)|)
  {
    TagLineHead(s, i, argument, e);
    var j := i + |TagPrefix| + |argument|;
    var after := j + |Terminator(e)|;
    MatchedAt(s, i);
    ConsumedLineEnd(s, j, e);
    if j + TerminatorLength(s, j) != after {
      assert s[after] == '\n';
      SkipNoTag(s, after, after + 1);
    }
  }

  /** Where the pattern matches, the search reports that match and resumes past its line end. */
  lemma MatchedAt(s: string, i: nat)
    requires i <= |s| && MatchesAt(s, i)
    ensures ScanFrom(s, i) == [Match(i, s[i + |TagPrefix|..LineEndAt(s, i)])] + ScanFrom(s, LineEndAt(s, i) + TerminatorLength(s, LineEndAt(s, i)))
  {
  }

  /**
   * The line end the search consumes where a line ending `e` starts: all of
   * it, except that a carriage return followed by a line feed is consumed
   * together with that line feed.
   */
  lemma ConsumedLineEnd(s: string, j: nat, e: LineEnd)
    requires j + |Terminator(e)| <= |s|
    requires s[j] == Terminator(e)[0] && (e == CRLF ==> s[j + 1] == '\n')
    ensures IsLineTerminator(s[j])
    ensures || TerminatorLength(s, j) == |Terminator(e)|
            || (e == CR && j + 1 < |s| && s[j + 1] == '\n' && TerminatorLength(s, j) == 2)
  {
  }

  function Arguments(lines: seq<TagLine>): (r: seq<string>)
    ensures |r| == |lines|
    ensures forall k :: 0 <= k < |r| ==> r[k] == lines[k].argument
  {
    if lines == [] then [] else [lines[0].argument] + Arguments(lines[1..])
  }

  /** One rendered tagged line: the search passes its gutter, reports its argument and goes on after it. */
  lemma RenderedLineStep(s: string, i: nat, l: TagLine, rest: string)
    requires NoTag(l.gutter) && NoTerminator(l.argument)
    requires i <= |s| && s[i..] == l.gutter + (TagPrefix + l.argument + Terminator(l.end)) + rest
    ensures i + |l.gutter| + |TagPrefix| + |l.argument| + |Terminator(l.end)| <= |s|
    ensures ScanFrom(s, i) == [Match(i + |l.gutter|, l.argument)] + ScanFrom(s, i + |l.gutter| + |TagPrefix| + |l.argument| + |Terminator(l.end)|)
  {
    var line := TagPrefix + l.argument + Terminator(l.end);
    SliceParts(s, i, l.gutter, line, rest);
    GutterThenTag(s, i, l.gutter, l.argument, l.end);
  }

  lemma GutterThenTag(s: string, i: nat, gutter: string, argument: string, e: LineEnd)
    requires NoTag(gutter) && NoTerminator(argument)
    requires i + |gutter| + |TagPrefix| + |argument| + |Terminator(e)| <= |s|
    requires s[i..i + |gutter|] == gutter
    requires s[i + |gutter|..i + |gutter| + |TagPrefix| + |argument| + |Terminator(e)|] == TagPrefix + argument + Terminator(e)
    ensures ScanFrom(s, i) == [Match(i + |gutter|, argument)] + ScanFrom(s, i + |gutter| + |TagPrefix| + |argument| + |Terminator(e)|)
  {
    assert s[i + |gutter|] == (TagPrefix + argument + Terminator(e))[0];
    SkipGap(s, i, gutter);
    TagLineMatched(s, i + |gutter|, argument, e);
  }

  lemma SliceParts(s: string, i: nat, a: string, b: string, c: string)
    requires i <= |s| && s[i..] == a + b + c
    ensures i + |a| + |b| <= |s|
    ensures s[i..i + |a|] == a && s[i + |a|..i + |a| + |b|] == b && s[i + |a| + |b|..] == c
  {
  }

  /** From the start of a rendered run of tagged lines, the search captures their arguments, in order. */
  lemma {:induction false} ScanRenderedFrom(s: string, i: nat, lines: seq<TagLine>, closing: string)
    requires WellFormed(lines) && NoTag(closing)
    requires i <= |s| && s[i..] == Render(lines, closing)
    ensures Captures(ScanFrom(s, i)) == Arguments(lines)
    decreases |lines|
  {
    if lines == [] {
      assert s[i..i + |closing|] == closing;
      SkipGap(s, i, closing);
    } else {
      var l := lines[0];
      var line := TagPrefix + l.argument + Terminator(l.end);
      var rest := Render(lines[1..], closing);
      var next := i + |l.gutter| + |TagPrefix| + |l.argument| + |Terminator(l.end)|;
      RenderedLineStep(s, i, l, rest);
      SliceParts(s, i, l.gutter, line, rest);
      ScanRenderedFrom(s, next, lines[1..], closing);
      var ms := ScanFrom(s, next);
      assert ([Match(i + |l.gutter|, l.argument)] + ms)[1..] == ms;
    }
  }

  /**
   * Parsing a doc comment built from tagged lines gives back every line's
   * argument, trimmed, in the order the lines appear.
   */
  lemma ParseRendered(lines: seq<TagLine>, closing: string)
    requires WellFormed(lines) && NoTag(closing)
    ensures ParseDocBlock(Some(Render(lines, closing))) == TrimAll(Arguments(lines))
  {
    var doc := Render(lines, closing);
    assert doc[0..] == doc;
    ScanRenderedFrom(doc, 0, lines, closing);
    if lines != [] {
      assert |doc| >= |TagPrefix|;
    }
  }
}

/** Inline markdown: the tokenizer that turns a line into marked segments, and the printer that undoes it. */
module InlineMarks {
  import opened Text

  datatype Marks = Marks(code: bool, bold: bool, italic: bool, strike: bool)

  const PLAIN := Marks(false, false, false, false)

  /** One `insert` into a text node: a run of text and the marks it carries. */
  datatype Segment = Segment(text: string, marks: Marks)

  /** The alternatives of the token pattern, in the order in which the pattern tries them. */
  datatype Token = Code | BoldItalic | Bold | Italic | Strike

  datatype Found = NoToken | SomeToken(token: Token)

  function Delimiter(t: Token): string {
    match t
    case Code => "`"
    case BoldItalic => "***"
    case Bold => "**"
    case Italic => "*"
    case Strike => "~~"
  }

  /** The character that the inside of a token must not contain. */
  function Stop(t: Token): char {
    match t
    case Code => '`'
    case Strike => '~'
    case _ => '*'
  }

  function TokenMarks(t: Token): Marks {
    match t
    case Code => PLAIN.(code := true)
    case BoldItalic => PLAIN.(bold := true, italic := true)
    case Bold => PLAIN.(bold := true)
    case Italic => PLAIN.(italic := true)
    case Strike => PLAIN.(strike := true)
  }

  // ---------------------------------------------------------------------------
  // The token pattern
  // ---------------------------------------------------------------------------

  /** Between `i` and `e`, `s` reads: delimiter, one or more characters other than `c`, delimiter. */
  ghost predicate Enclosed(d: string, c: char, s: string, i: int, e: int) {
    && 0 <= i && i + |d| < e - |d| && e <= |s|
    && s[i..i + |d|] == d
    && s[e - |d|..e] == d
    && forall n :: i + |d| <= n < e - |d| ==> s[n] != c
  }

  /** The language of one alternative of the pattern. */
  ghost predicate InLanguage(t: Token, raw: string) {
    Enclosed(Delimiter(t), Stop(t), raw, 0, |raw|)
  }

  /** Index of the first `c` at or after `i`, or the length of `s`. */
  function RunEnd(s: string, i: nat, c: char): (j: nat)
    requires i <= |s|
    ensures i <= j <= |s|
    ensures forall n :: i <= n < j ==> s[n] != c
    ensures j < |s| ==> s[j] == c
    decreases |s| - i
  {
    if i == |s| || s[i] == c then i else RunEnd(s, i + 1, c)
  }

  /** Where an enclosed run that starts at `i` ends, or 0 when there is none. */
  function EnclosureEnd(d: string, c: char, s: string, i: nat): (end: nat)
    requires i <= |s|
    ensures end <= |s|
  {
    var k := |d|;
    if i + k <= |s| && s[i..i + k] == d then
      var j := RunEnd(s, i + k, c);
      if j > i + k && j + k <= |s| && s[j..j + k] == d then j + k else 0
    else 0
  }

  /** Where the match of alternative `t` at `i` ends, or 0 when there is none. */
  function MatchEnd(t: Token, s: string, i: nat): (end: nat)
    requires i <= |s|
    ensures end <= |s|
  {
    EnclosureEnd(Delimiter(t), Stop(t), s, i)
  }

  /** The alternation at one position: the first alternative that matches. */
  function TokenAt(s: string, i: nat): Found
    requires i <= |s|
  {
    if MatchEnd(Code, s, i) > 0 then SomeToken(Code)
    else if MatchEnd(BoldItalic, s, i) > 0 then SomeToken(BoldItalic)
    else if MatchEnd(Bold, s, i) > 0 then SomeToken(Bold)
    else if MatchEnd(Italic, s, i) > 0 then SomeToken(Italic)
    else if MatchEnd(Strike, s, i) > 0 then SomeToken(Strike)
    else NoToken
  }

  /** The search of a global pattern: the first position at or after `i` where some alternative matches. */
  function NextMatch(s: string, i: nat): (m: nat)
    requires i <= |s|
    ensures i <= m <= |s|
    decreases |s| - i
  {
    if i == |s| || TokenAt(s, i).SomeToken? then i else NextMatch(s, i + 1)
  }

  lemma EnclosureEndIsEnclosed(d: string, c: char, s: string, i: nat, e: nat)
    requires i <= e <= |s| && d != "" && d[0] == c
    ensures Enclosed(d, c, s, i, e) <==> EnclosureEnd(d, c, s, i) == e && e > 0
  {
    if Enclosed(d, c, s, i, e) {
      assert s[e - |d|] == s[e - |d|..e][0] == c;
      assert RunEnd(s, i + |d|, c) == e - |d|;
    }
  }

  lemma EnclosedSlice(d: string, c: char, s: string, i: nat, e: nat)
    requires i <= e <= |s| && d != ""
    ensures Enclosed(d, c, s, i, e) <==> Enclosed(d, c, s[i..e], 0, e - i)
  {
    if i + |d| < e - |d| {
      var raw := s[i..e];
      assert raw[0..0 + |d|] == s[i..i + |d|];
      assert raw[e - i - |d|..e - i] == s[e - |d|..e];
      assert forall n :: 0 <= n < e - i ==> raw[n] == s[i + n];
      assert forall n :: i <= n < e ==> s[n] == raw[n - i];
    }
  }

  /** The greedy matcher finds a match exactly when the language has one, and the match is unique. */
  lemma MatchEndIsTheLanguage(t: Token, s: string, i: nat, e: nat)
    requires i <= e <= |s|
    ensures InLanguage(t, s[i..e]) <==> MatchEnd(t, s, i) == e && e > 0
  {
    EnclosureEndIsEnclosed(Delimiter(t), Stop(t), s, i, e);
    EnclosedSlice(Delimiter(t), Stop(t), s, i, e);
  }

  // ---------------------------------------------------------------------------
  // Tokenizing
  // ---------------------------------------------------------------------------

  function Marked(t: Token, raw: string): Segment
    requires |raw| >= 2 * |Delimiter(t)|
  {
    Segment(raw[|Delimiter(t)|..|raw| - |Delimiter(t)|], TokenMarks(t))
  }

  /** A match found at `i` starts and ends with its delimiter. */
  lemma TokenAtFacts(s: string, i: nat)
    requires i <= |s| && TokenAt(s, i).SomeToken?
    ensures var t := TokenAt(s, i).token; var e := MatchEnd(t, s, i);
            i < e && InLanguage(t, s[i..e])
  {
    var t := TokenAt(s, i).token;
    MatchEndIsTheLanguage(t, s, i, MatchEnd(t, s, i));
  }

  lemma NextMatchFacts(s: string, i: nat)
    requires i <= |s|
    ensures forall p :: i <= p < NextMatch(s, i) ==> TokenAt(s, p) == NoToken
    ensures NextMatch(s, i) < |s| ==> TokenAt(s, NextMatch(s, i)).SomeToken?
    decreases |s| - i
  {
    if i < |s| && TokenAt(s, i) == NoToken {
      NextMatchFacts(s, i + 1);
    }
  }

  /** The segments of `s` from `last` on: the plain text up to the next match, then what follows. */
  function Segments(s: string, last: nat): seq<Segment>
    requires last <= |s|
    decreases |s| - last, 1
  {
    NextMatchFacts(s, last);
    var m := NextMatch(s, last);
    if m > last then [Segment(s[last..m], PLAIN)] + TokensFrom(s, m) else TokensFrom(s, m)
  }

  /** The segments from a match at `m` on. */
  function TokensFrom(s: string, m: nat): seq<Segment>
    requires m <= |s| && (m < |s| ==> TokenAt(s, m).SomeToken?)
    decreases |s| - m, 0
  {
    if m == |s| then []
    else
      TokenAtFacts(s, m);
      var t := TokenAt(s, m).token;
      var e := MatchEnd(t, s, m);
      [Marked(t, s[m..e])] + Segments(s, e)
  }

  function ParseInline(text: string): seq<Segment> {
    if Segments(text, 0) != [] then Segments(text, 0) else [Segment(text, PLAIN)]
  }

  /** The `startsWith` chain that reads the alternative back from the matched text. */
  function ChainToken(raw: string): Found {
    if StartsWith(raw, "`") then SomeToken(Code)
    else if StartsWith(raw, "***") then SomeToken(BoldItalic)
    else if StartsWith(raw, "**") then SomeToken(Bold)
    else if StartsWith(raw, "*") then SomeToken(Italic)
    else if StartsWith(raw, "~~") then SomeToken(Strike)
    else NoToken
  }

  /** The chain always recovers the alternative that matched. */
  lemma ChainRecoversToken(t: Token, raw: string)
    requires InLanguage(t, raw)
    ensures ChainToken(raw) == SomeToken(t)
  {
    var k := |Delimiter(t)|;
    assert raw[k] == raw[k..|raw| - k][0] != Stop(t);
    assert forall n :: 0 <= n < k ==> raw[n] == raw[..k][n] == Stop(t);
    if StartsWith(raw, "***") {
      assert raw[..3][0] == '*' && raw[..3][1] == '*' && raw[..3][2] == '*';
    }
    if StartsWith(raw, "**") {
      assert raw[..2][1] == '*';
    }
    if StartsWith(raw, "*") {
      assert raw[..1][0] == '*';
    }
    match t
    case Code =>
    case BoldItalic => assert raw[..3] == "***";
    case Bold => assert raw[..2] == "**";
    case Italic =>
    case Strike => assert raw[..2] == "~~";
  }

  /** The chain applied to a matched text yields the segment of the alternative that matched. */
  method SegmentOfMatch(raw: string, ghost t: Token) returns (seg: Segment)
    requires InLanguage(t, raw)
    ensures seg == Marked(t, raw)
  {
    ChainRecoversToken(t, raw);
    seg := Segment(raw, PLAIN);
    if StartsWith(raw, "`") {
      seg := Segment(raw[1..|raw| - 1], TokenMarks(Code));
    } else if StartsWith(raw, "***") {
      seg := Segment(raw[3..|raw| - 3], TokenMarks(BoldItalic));
    } else if StartsWith(raw, "**") {
      seg := Segment(raw[2..|raw| - 2], TokenMarks(Bold));
    } else if StartsWith(raw, "*") {
      seg := Segment(raw[1..|raw| - 1], TokenMarks(Italic));
    } else if StartsWith(raw, "~~") {
      seg := Segment(raw[2..|raw| - 2], TokenMarks(Strike));
    }
  }

  /** One turn of the tokenizer's loop, on the segments still to come. */
  lemma SegmentsStep(s: string, last: nat, index: nat)
    requires last <= index < |s| && index == NextMatch(s, last)
    ensures TokenAt(s, index).SomeToken?
    ensures var t := TokenAt(s, index).token; var e := MatchEnd(t, s, index);
            && index < e && InLanguage(t, s[index..e])
            && Segments(s, last) ==
               (if index > last then [Segment(s[last..index], PLAIN)] else []) + [Marked(t, s[index..e])] + Segments(s, e)
  {
    hide TokenAt, MatchEnd;
    NextMatchFacts(s, last);
    TokenAtFacts(s, index);
  }

  /** After the last match, only plain text is left. */
  lemma SegmentsEnd(s: string, last: nat)
    requires last <= |s| && NextMatch(s, last) == |s|
    ensures Segments(s, last) == if last < |s| then [Segment(s[last..], PLAIN)] else []
  {
    assert s[last..] == s[last..|s|];
    assert TokensFrom(s, |s|) == [];
  }

  /** The tokenizer as written: a search loop that slices around each match. */
  method ParseInlineMarks(text: string) returns (segments: seq<Segment>)
    ensures segments == ParseInline(text)
  {
    hide Segments, TokenAt, MatchEnd, NextMatch;
    segments := [];
    var lastIndex := 0;
    var index := NextMatch(text, 0);
    while index < |text|
      invariant lastIndex <= index <= |text|
      invariant index == NextMatch(text, lastIndex)
      invariant segments + Segments(text, lastIndex) == Segments(text, 0)
      decreases |text| - lastIndex
    {
      SegmentsStep(text, lastIndex, index);
      var end := MatchEnd(TokenAt(text, index).token, text, index);
      ghost var plain := if index > lastIndex then [Segment(text[lastIndex..index], PLAIN)] else [];
      ghost var before := segments;
      if index > lastIndex {
        segments := segments + [Segment(text[lastIndex..index], PLAIN)];
      }
      assert segments == before + plain;
      var seg := SegmentOfMatch(text[index..end], TokenAt(text, index).token);
      ConcatAssociates(before, plain + [seg], Segments(text, end));
      ConcatAssociates(before, plain, [seg]);
      segments := segments + [seg];
      lastIndex := end;
      index := NextMatch(text, lastIndex);
    }
    SegmentsEnd(text, lastIndex);
    if lastIndex < |text| {
      segments := segments + [Segment(text[lastIndex..], PLAIN)];
    }
    if segments == [] {
      segments := [Segment(text, PLAIN)];
    }
  }

  // ---------------------------------------------------------------------------
  // Printing
  // ---------------------------------------------------------------------------

  function PrintSegment(seg: Segment): string {
    if seg.text == "" then ""
    else
      var coded := if seg.marks.code then "`" + seg.text + "`" else seg.text;
      var styled :=
        if seg.marks.bold && seg.marks.italic then "***" + coded + "***"
        else if seg.marks.bold then "**" + coded + "**"
        else if seg.marks.italic then "*" + coded + "*"
        else coded;
      if seg.marks.strike then "~~" + styled + "~~" else styled
  }

  function PrintSegments(segs: seq<Segment>): string {
    if segs == [] then "" else PrintSegment(segs[0]) + PrintSegments(segs[1..])
  }

  lemma PrintMarked(t: Token, raw: string)
    requires InLanguage(t, raw)
    ensures PrintSegment(Marked(t, raw)) == raw
  {
    hide *;
    Unwrap(t, raw);
    PrintToken(t, Marked(t, raw).text);
  }

  /** A text in the language of a token is its delimiter, the inside, and its delimiter again. */
  lemma Unwrap(t: Token, raw: string)
    requires InLanguage(t, raw)
    ensures |raw| >= 2 * |Delimiter(t)|
    ensures var seg := Marked(t, raw);
            seg.marks == TokenMarks(t) && seg.text != "" && Delimiter(t) + seg.text + Delimiter(t) == raw
  {
    hide Delimiter, Stop, TokenMarks;
    ThreeParts(raw, |Delimiter(t)|);
  }

  lemma ThreeParts(raw: string, k: nat)
    requires 2 * k <= |raw|
    ensures raw[0..k] + raw[k..|raw| - k] + raw[|raw| - k..|raw|] == raw
  {
  }

  lemma PrintToken(t: Token, text: string)
    requires text != ""
    ensures PrintSegment(Segment(text, TokenMarks(t))) == Delimiter(t) + text + Delimiter(t)
  {
  }

  lemma {:induction false} PrintSegmentsFrom(s: string, last: nat)
    requires last <= |s|
    ensures PrintSegments(Segments(s, last)) == s[last..]
    decreases |s| - last, 1
  {
    hide TokenAt, MatchEnd, PrintSegment;
    NextMatchFacts(s, last);
    var m := NextMatch(s, last);
    PrintTokensFrom(s, m);
    if m > last {
      PrintPlain(s[last..m]);
      PrintFirst(Segment(s[last..m], PLAIN), TokensFrom(s, m));
      assert s[last..] == s[last..m] + s[m..];
    }
  }

  lemma {:induction false} PrintTokensFrom(s: string, m: nat)
    requires m <= |s| && (m < |s| ==> TokenAt(s, m).SomeToken?)
    ensures PrintSegments(TokensFrom(s, m)) == s[m..]
    decreases |s| - m, 0
  {
    hide TokenAt, MatchEnd, PrintSegment;
    if m < |s| {
      TokenAtFacts(s, m);
      var t := TokenAt(s, m).token;
      var e := MatchEnd(t, s, m);
      PrintSegmentsFrom(s, e);
      PrintMarked(t, s[m..e]);
      PrintFirst(Marked(t, s[m..e]), Segments(s, e));
      assert s[m..] == s[m..e] + s[e..];
    }
  }

  lemma PrintPlain(text: string)
    ensures PrintSegment(Segment(text, PLAIN)) == text
  {
  }

  lemma PrintFirst(seg: Segment, rest: seq<Segment>)
    ensures PrintSegments([seg] + rest) == PrintSegment(seg) + PrintSegments(rest)
  {
    assert ([seg] + rest)[1..] == rest;
  }

  /** Inline round trip: printing what the tokenizer produced gives back the text, for every text. */
  lemma InlineRoundTrip(text: string)
    ensures PrintSegments(ParseInline(text)) == text
  {
    PrintSegmentsFrom(text, 0);
  }

  // ---------------------------------------------------------------------------
  // The segmentation is pinned down
  // ---------------------------------------------------------------------------

  /**
   * The five token forms, as they are written: the text of the segment between its delimiters, non-empty and without the
   * delimiting character, and the marks it carries.
   */
  predicate Written(t: Token, raw: string, seg: Segment) {
    && seg.text != ""
    && match t
       case Code => raw == "`" + seg.text + "`" && '`' !in seg.text && seg.marks == Marks(true, false, false, false)
       case BoldItalic => raw == "***" + seg.text + "***" && '*' !in seg.text && seg.marks == Marks(false, true, true, false)
       case Bold => raw == "**" + seg.text + "**" && '*' !in seg.text && seg.marks == Marks(false, true, false, false)
       case Italic => raw == "*" + seg.text + "*" && '*' !in seg.text && seg.marks == Marks(false, false, true, false)
       case Strike => raw == "~~" + seg.text + "~~" && '~' !in seg.text && seg.marks == Marks(false, false, false, true)
  }

  ghost predicate WrittenAt(t: Token, s: string, at: nat, e: nat, seg: Segment) {
    at <= e <= |s| && Written(t, s[at..e], seg)
  }

  /** Some token of one of the five forms starts at the position. */
  ghost predicate TokenStarts(s: string, at: nat) {
    exists t, e: nat, seg :: WrittenAt(t, s, at, e, seg)
  }

  /**
   * `segs` is a leftmost segmentation of `s` from `at` on: plain segments are non-empty, contain no position at which
   * a token starts and are never adjacent; each marked segment is a token of one of the five forms.
   */
  ghost predicate Leftmost(segs: seq<Segment>, s: string, at: nat)
    requires at <= |s|
    decreases |segs|
  {
    if segs == [] then at == |s|
    else if segs[0].marks == PLAIN then
      var e := at + |segs[0].text|;
      && at < e <= |s| && s[at..e] == segs[0].text
      && (forall p :: at <= p < e ==> !TokenStarts(s, p))
      && (|segs| > 1 ==> segs[1].marks != PLAIN)
      && Leftmost(segs[1..], s, e)
    else
      exists t, e: nat :: WrittenAt(t, s, at, e, segs[0]) && Leftmost(segs[1..], s, e)
  }

  /** The same, in terms of the matcher. */
  ghost predicate Selected(segs: seq<Segment>, s: string, at: nat)
    requires at <= |s|
    decreases |segs|
  {
    if segs == [] then at == |s|
    else
      var seg := segs[0];
      if seg.marks == PLAIN then
        var e := at + |seg.text|;
        && at < e <= |s| && s[at..e] == seg.text
        && (forall p :: at <= p < e ==> TokenAt(s, p) == NoToken)
        && (|segs| > 1 ==> segs[1].marks != PLAIN)
        && Selected(segs[1..], s, e)
      else
        && TokenAt(s, at).SomeToken?
        && var t := TokenAt(s, at).token;
        var e := MatchEnd(t, s, at);
        && at < e && InLanguage(t, s[at..e])
        && seg == Marked(t, s[at..e]) && seg.text != ""
        && Selected(segs[1..], s, e)
  }

  lemma {:induction false} SegmentsAreSelected(s: string, last: nat)
    requires last <= |s|
    ensures Selected(Segments(s, last), s, last)
    decreases |s| - last, 1
  {
    hide TokenAt, MatchEnd;
    NextMatchFacts(s, last);
    var m := NextMatch(s, last);
    TokensAreSelected(s, m);
    if m > last {
      assert Segments(s, last)[1..] == TokensFrom(s, m);
    }
  }

  lemma {:induction false} TokensAreSelected(s: string, m: nat)
    requires m <= |s| && (m < |s| ==> TokenAt(s, m).SomeToken?)
    ensures Selected(TokensFrom(s, m), s, m)
    ensures TokensFrom(s, m) != [] ==> TokensFrom(s, m)[0].marks != PLAIN
    decreases |s| - m, 0
  {
    hide TokenAt, MatchEnd;
    if m < |s| {
      TokenAtFacts(s, m);
      SegmentsAreSelected(s, MatchEnd(TokenAt(s, m).token, s, m));
      assert TokensFrom(s, m)[1..] == Segments(s, MatchEnd(TokenAt(s, m).token, s, m));
    }
  }

  lemma {:induction false} NextMatchIsFirst(s: string, i: nat, m: nat)
    requires i <= m <= |s|
    requires forall p :: i <= p < m ==> TokenAt(s, p) == NoToken
    requires m < |s| ==> TokenAt(s, m).SomeToken?
    ensures NextMatch(s, i) == m
    decreases m - i
  {
    if i < m {
      NextMatchIsFirst(s, i + 1, m);
    }
  }

  lemma SelectedStartsWithToken(segs: seq<Segment>, s: string, at: nat)
    requires at <= |s| && Selected(segs, s, at)
    requires segs != [] ==> segs[0].marks != PLAIN
    ensures NextMatch(s, at) == at
    ensures at < |s| ==> TokenAt(s, at).SomeToken?
  {
  }

  /** The tokenizer's output is the only leftmost segmentation, so the three conditions determine it. */
  lemma {:induction false} SelectedIsUnique(segs: seq<Segment>, s: string, at: nat)
    requires at <= |s| && Selected(segs, s, at)
    ensures segs == Segments(s, at)
    decreases |segs|
  {
    hide TokenAt, MatchEnd;
    if segs == [] {
    } else {
      assert segs == [segs[0]] + segs[1..];
      if segs[0].marks == PLAIN {
        var e := at + |segs[0].text|;
        SelectedIsUnique(segs[1..], s, e);
        SelectedStartsWithToken(segs[1..], s, e);
        NextMatchIsFirst(s, at, e);
        assert Segments(s, e) == TokensFrom(s, e);
      } else {
        var e := MatchEnd(TokenAt(s, at).token, s, at);
        SelectedIsUnique(segs[1..], s, e);
        SelectedStartsWithToken(segs, s, at);
        assert TokensFrom(s, at) == [segs[0]] + Segments(s, e);
      }
    }
  }

  /** What an alternative of the pattern matches is exactly what its form writes, and gives the segment of that form. */
  lemma LanguageExact(t: Token, raw: string, seg: Segment)
    ensures Written(t, raw, seg) <==> InLanguage(t, raw) && |raw| >= 2 * |Delimiter(t)| && seg == Marked(t, raw)
  {
    if Written(t, raw, seg) {
      WrittenIsInLanguage(t, raw, seg);
    }
    if InLanguage(t, raw) && seg == Marked(t, raw) {
      Unwrap(t, raw);
      InnerHasNoStop(t, raw);
    }
  }

  lemma WrittenIsInLanguage(t: Token, raw: string, seg: Segment)
    requires Written(t, raw, seg)
    ensures InLanguage(t, raw) && |raw| >= 2 * |Delimiter(t)| && seg == Marked(t, raw)
  {
    var d := Delimiter(t);
    assert raw == d + seg.text + d;
    WrappedSlices(d, seg.text);
    assert raw[|d|..|raw| - |d|] == seg.text;
    assert forall n :: |d| <= n < |raw| - |d| ==> raw[n] == seg.text[n - |d|];
  }

  lemma WrappedSlices(d: string, inner: string)
    ensures var raw := d + inner + d;
            raw[0..|d|] == d && raw[|raw| - |d|..|raw|] == d && raw[|d|..|raw| - |d|] == inner
  {
  }

  lemma InnerHasNoStop(t: Token, raw: string)
    requires InLanguage(t, raw)
    ensures |raw| >= 2 * |Delimiter(t)| && Stop(t) !in Marked(t, raw).text
  {
    hide Delimiter, Stop, TokenMarks;
    var k := |Delimiter(t)|;
    var inner := raw[k..|raw| - k];
    forall c | c in inner
      ensures c != Stop(t)
    {
      var n :| 0 <= n < |inner| && inner[n] == c;
      assert inner[n] == raw[n + k];
    }
  }

  lemma OneTokenAt(s: string, i: nat, t: Token, e: nat)
    requires i <= e <= |s| && InLanguage(t, s[i..e])
    ensures TokenAt(s, i) == SomeToken(t) && MatchEnd(t, s, i) == e
  {
    hide MatchEnd;
    MatchEndIsTheLanguage(t, s, i, e);
    TokensExclude(s, i, t, e, Code);
    TokensExclude(s, i, t, e, BoldItalic);
    TokensExclude(s, i, t, e, Bold);
    TokensExclude(s, i, t, e, Italic);
    TokensExclude(s, i, t, e, Strike);
  }

  /** The character `c`, exactly `k` times, and then another one. */
  ghost predicate Opens(s: string, i: nat, k: nat, c: char) {
    k > 0 && i + k < |s| && s[i + k] != c && forall n :: i <= n < i + k ==> s[n] == c
  }

  lemma OpensOnce(s: string, i: nat, j: nat, c: char, k: nat, d: char)
    requires Opens(s, i, j, c) && Opens(s, i, k, d)
    ensures j == k && c == d
  {
    assert s[i] == c && s[i] == d;
  }

  /** No two alternatives match at the same position. */
  lemma TokensExclude(s: string, i: nat, t: Token, e: nat, u: Token)
    requires i <= e <= |s| && InLanguage(t, s[i..e])
    ensures MatchEnd(u, s, i) > 0 ==> u == t
  {
    hide InLanguage, MatchEnd, Opens, Delimiter, Stop;
    var f := MatchEnd(u, s, i);
    if f > 0 {
      MatchIsForward(u, s, i);
      MatchEndIsTheLanguage(u, s, i, f);
      Opening(t, s, i, e);
      Opening(u, s, i, f);
      OpensOnce(s, i, |Delimiter(t)|, Stop(t), |Delimiter(u)|, Stop(u));
      DelimitersDiffer(t, u);
    }
  }

  lemma MatchIsForward(u: Token, s: string, i: nat)
    requires i <= |s| && MatchEnd(u, s, i) > 0
    ensures MatchEnd(u, s, i) > i
  {
  }

  lemma DelimitersDiffer(t: Token, u: Token)
    ensures |Delimiter(t)| == |Delimiter(u)| && Stop(t) == Stop(u) ==> t == u
  {
  }

  /** How a token opens: its delimiter and then another character. */
  lemma Opening(t: Token, s: string, i: nat, e: nat)
    requires i <= e <= |s| && InLanguage(t, s[i..e])
    ensures i + |Delimiter(t)| < e && Opens(s, i, |Delimiter(t)|, Stop(t))
  {
    hide Delimiter, Stop;
    DelimiterIsStop(t);
    SliceStart(s, i, e, Delimiter(t));
    assert s[i + |Delimiter(t)|] == s[i..e][|Delimiter(t)|];
  }

  lemma DelimiterIsStop(t: Token)
    ensures |Delimiter(t)| > 0 && forall n :: 0 <= n < |Delimiter(t)| ==> Delimiter(t)[n] == Stop(t)
  {
  }

  lemma SliceStart(s: string, i: nat, e: nat, d: string)
    requires i <= e <= |s| && |d| <= e - i && s[i..e][0..0 + |d|] == d
    ensures forall n :: i <= n < i + |d| ==> s[n] == d[n - i]
  {
    assert forall n :: 0 <= n < |d| ==> s[i..e][0..0 + |d|][n] == s[i..e][n] == s[i + n];
    forall n | i <= n < i + |d|
      ensures s[n] == d[n - i]
    {
      assert s[i..e][0..0 + |d|][n - i] == s[i + (n - i)];
    }
  }

  /** The alternation finds the token, and the segment is its inside. */
  ghost predicate MatchedAs(t: Token, s: string, i: nat, e: nat, seg: Segment) {
    && i < e <= |s| && TokenAt(s, i) == SomeToken(t) && e == MatchEnd(t, s, i)
    && InLanguage(t, s[i..e]) && |s[i..e]| >= 2 * |Delimiter(t)| && seg == Marked(t, s[i..e])
  }

  /**
   * The alternation, exactly: it finds a token at a position if and only if a text of that form starts there, and none
   * if and only if no text of any of the five forms does.
   */
  lemma TokenAtExact(s: string, i: nat)
    requires i <= |s|
    ensures TokenAt(s, i) == NoToken <==> !TokenStarts(s, i)
    ensures forall t, e: nat, seg :: WrittenAt(t, s, i, e, seg) <==> MatchedAs(t, s, i, e, seg)
  {
    hide WrittenAt, MatchedAs;
    forall t, e: nat, seg
      ensures WrittenAt(t, s, i, e, seg) <==> MatchedAs(t, s, i, e, seg)
    {
      WrittenAtExact(t, s, i, e, seg);
    }
    if TokenAt(s, i).SomeToken? {
      SomeMatch(s, i);
    } else if TokenStarts(s, i) {
      var t, e: nat, seg :| WrittenAt(t, s, i, e, seg);
      MatchedToken(t, s, i, e, seg);
    }
  }

  lemma SomeMatch(s: string, i: nat)
    requires i <= |s| && TokenAt(s, i).SomeToken?
    ensures exists t, e: nat, seg :: MatchedAs(t, s, i, e, seg)
  {
    hide TokenAt, MatchEnd;
    TokenAtFacts(s, i);
    var t := TokenAt(s, i).token;
    var e := MatchEnd(t, s, i);
    Wide(t, s[i..e]);
    assert MatchedAs(t, s, i, e, Marked(t, s[i..e]));
  }

  lemma MatchedToken(t: Token, s: string, i: nat, e: nat, seg: Segment)
    requires i <= |s| && MatchedAs(t, s, i, e, seg)
    ensures TokenAt(s, i) == SomeToken(t)
  {
  }

  lemma WrittenAtExact(t: Token, s: string, i: nat, e: nat, seg: Segment)
    ensures WrittenAt(t, s, i, e, seg) <==> MatchedAs(t, s, i, e, seg)
  {
    hide Written, TokenAt, MatchEnd, Marked, InLanguage, Delimiter;
    if i <= e <= |s| {
      LanguageExact(t, s[i..e], seg);
      if WrittenAt(t, s, i, e, seg) {
        OneTokenAt(s, i, t, e);
        Opening(t, s, i, e);
      }
    }
  }

  lemma Wide(t: Token, raw: string)
    requires InLanguage(t, raw)
    ensures |raw| >= 2 * |Delimiter(t)|
  {
  }

  lemma {:induction false} LeftmostIsSelected(segs: seq<Segment>, s: string, at: nat)
    requires at <= |s|
    ensures Leftmost(segs, s, at) <==> Selected(segs, s, at)
    decreases |segs|
  {
    hide TokenAt, MatchEnd, InLanguage, Marked, TokenStarts, WrittenAt, Delimiter;
    if segs != [] && segs[0].marks == PLAIN {
      var e := at + |segs[0].text|;
      if e <= |s| {
        forall p | at <= p < e
          ensures TokenAt(s, p) == NoToken <==> !TokenStarts(s, p)
        {
          TokenAtExact(s, p);
        }
        LeftmostIsSelected(segs[1..], s, e);
      }
    } else if segs != [] {
      TokenAtExact(s, at);
      MarkedSegments(segs, s, at);
    }
  }

  lemma {:induction false} MarkedSegments(segs: seq<Segment>, s: string, at: nat)
    requires at <= |s| && segs != [] && segs[0].marks != PLAIN
    ensures Leftmost(segs, s, at) <==> Selected(segs, s, at)
    decreases |segs|, 0
  {
    hide TokenAt, MatchEnd, InLanguage, Marked, TokenStarts, Written, Delimiter, MatchedAs;
    if Leftmost(segs, s, at) {
      var t, e: nat :| WrittenAt(t, s, at, e, segs[0]) && Leftmost(segs[1..], s, e);
      LeftmostIsSelected(segs[1..], s, e);
      SelectedToken(s, at, t, e, segs[0]);
    }
    if Selected(segs, s, at) {
      var t := TokenAt(s, at).token;
      var e := MatchEnd(t, s, at);
      LeftmostIsSelected(segs[1..], s, e);
      WrittenAtExact(t, s, at, e, segs[0]);
      assert MatchedAs(t, s, at, e, segs[0]) by {
        Wide(t, s[at..e]);
        FromSelected(t, s, at, e, segs[0]);
      }
    }
  }

  lemma FromSelected(t: Token, s: string, at: nat, e: nat, seg: Segment)
    requires at < e <= |s| && TokenAt(s, at) == SomeToken(t) && e == MatchEnd(t, s, at)
    requires InLanguage(t, s[at..e]) && |s[at..e]| >= 2 * |Delimiter(t)| && seg == Marked(t, s[at..e])
    ensures MatchedAs(t, s, at, e, seg)
  {
  }

  lemma SelectedToken(s: string, at: nat, t: Token, e: nat, seg: Segment)
    requires at <= |s| && WrittenAt(t, s, at, e, seg)
    ensures at < e <= |s| && TokenAt(s, at) == SomeToken(t) && e == MatchEnd(t, s, at) && InLanguage(t, s[at..e])
    ensures |s[at..e]| >= 2 * |Delimiter(t)| && seg == Marked(t, s[at..e]) && seg.text != ""
  {
    hide TokenAt, MatchEnd, InLanguage, Marked, Delimiter;
    WrittenAtExact(t, s, at, e, seg);
  }

  /**
   * The tokenizer, exactly, for non-empty text: it returns a list of segments if and only if the list is a leftmost
   * segmentation of the text into plain parts and tokens of the five forms.
   */
  lemma InlineExact(text: string, segs: seq<Segment>)
    requires text != ""
    ensures Leftmost(segs, text, 0) <==> segs == ParseInline(text)
  {
    hide Segments;
    LeftmostIsSelected(segs, text, 0);
    SelectedExact(text, segs);
  }

  lemma SelectedExact(text: string, segs: seq<Segment>)
    requires text != ""
    ensures Selected(segs, text, 0) <==> segs == ParseInline(text)
  {
    SegmentsAreSelected(text, 0);
    assert Segments(text, 0) != [];
    if Selected(segs, text, 0) {
      SelectedIsUnique(segs, text, 0);
    }
  }

  // ---------------------------------------------------------------------------
  // Text nodes
  // ---------------------------------------------------------------------------

  function TextLength(segs: seq<Segment>): nat {
    if segs == [] then 0 else |segs[0].text| + TextLength(segs[1..])
  }

  /** Insert a run at a character offset, splitting the run it falls into; an empty run inserts nothing. */
  function InsertAt(segs: seq<Segment>, offset: nat, seg: Segment): seq<Segment>
    requires offset <= TextLength(segs)
  {
    if seg.text == "" then segs
    else if offset == 0 then [seg] + segs
    else if |segs[0].text| <= offset then [segs[0]] + InsertAt(segs[1..], offset - |segs[0].text|, seg)
    else [segs[0].(text := segs[0].text[..offset]), seg, segs[0].(text := segs[0].text[offset..])] + segs[1..]
  }

  ghost predicate NonEmptyRuns(segs: seq<Segment>) {
    forall k :: 0 <= k < |segs| ==> segs[k].text != ""
  }

  lemma {:induction false} InsertAtEnd(segs: seq<Segment>, seg: Segment)
    requires NonEmptyRuns(segs) && seg.text != ""
    ensures InsertAt(segs, TextLength(segs), seg) == segs + [seg]
  {
    if segs != [] {
      InsertAtEnd(segs[1..], seg);
      assert segs == [segs[0]] + segs[1..];
    }
  }

  lemma {:induction false} TextLengthAppend(segs: seq<Segment>, seg: Segment)
    ensures TextLength(segs + [seg]) == TextLength(segs) + |seg.text|
  {
    if segs == [] {
      assert segs + [seg] == [seg];
    } else {
      TextLengthAppend(segs[1..], seg);
      assert (segs + [seg])[1..] == segs[1..] + [seg];
    }
  }

  /** Inserting at the end appends the run and moves the end; an empty run changes nothing. */
  lemma InsertEffect(segs: seq<Segment>, seg: Segment)
    requires NonEmptyRuns(segs)
    ensures InsertAt(segs, TextLength(segs), seg) == if seg.text == "" then segs else segs + [seg]
    ensures TextLength(InsertAt(segs, TextLength(segs), seg)) == TextLength(segs) + |seg.text|
  {
    if seg.text != "" {
      InsertAtEnd(segs, seg);
      TextLengthAppend(segs, seg);
    }
  }

  lemma {:induction false} SelectedRunsAreNonEmpty(segs: seq<Segment>, s: string, at: nat)
    requires at <= |s| && Selected(segs, s, at)
    ensures NonEmptyRuns(segs)
    decreases |segs|
  {
    if segs != [] {
      var e := if segs[0].marks == PLAIN then at + |segs[0].text| else MatchEnd(TokenAt(s, at).token, s, at);
      SelectedRunsAreNonEmpty(segs[1..], s, e);
    }
  }

  /** The text node of a line: empty for an empty line, otherwise the parsed segments. */
  function FormattedText(text: string): seq<Segment> {
    if text == "" then [] else ParseInline(text)
  }

  /** All runs are non-empty, except the one run of an empty line. */
  lemma ParsedRuns(text: string)
    ensures if text == "" then ParseInline(text) == [Segment("", PLAIN)] else NonEmptyRuns(ParseInline(text))
  {
    if text != "" {
      SelectedExact(text, ParseInline(text));
      SelectedRunsAreNonEmpty(ParseInline(text), text, 0);
    }
  }

  /** Building the node run by run at a moving offset puts the segments side by side, in order. */
  method CreateFormattedText(text: string) returns (node: seq<Segment>)
    ensures node == FormattedText(text)
  {
    var segments := ParseInlineMarks(text);
    node := [];
    var offset := 0;
    ParsedRuns(text);
    for k := 0 to |segments|
      invariant node == if text == "" then [] else segments[..k]
      invariant offset == TextLength(node)
    {
      hide InsertAt, TextLength, ParseInline;
      var segment := segments[k];
      InsertEffect(node, segment);
      assert segments[..k + 1] == segments[..k] + [segment];
      node := InsertAt(node, offset, segment);
      offset := offset + |segment.text|;
    }
  }

  /** How marks nest in print: strike around bold and italic, these around code, and nothing around an empty run. */
  lemma MarksNest(text: string, marks: Marks)
    ensures var shown := PrintSegment(Segment(text, marks));
            if text == "" then shown == ""
            else if marks.strike then shown == "~~" + PrintSegment(Segment(text, marks.(strike := false))) + "~~"
            else if marks.bold && marks.italic then
              shown == "***" + PrintSegment(Segment(text, Marks(marks.code, false, false, false))) + "***"
            else if marks.bold then shown == "**" + PrintSegment(Segment(text, Marks(marks.code, false, false, false))) + "**"
            else if marks.italic then shown == "*" + PrintSegment(Segment(text, Marks(marks.code, false, false, false))) + "*"
            else if marks.code then shown == "`" + text + "`"
            else shown == text
  {
  }

  lemma FormattedTextRoundTrip(text: string)
    ensures PrintSegments(FormattedText(text)) == text
  {
    InlineRoundTrip(text);
  }
}

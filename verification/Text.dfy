/** Strings as the JavaScript sources use them: white space, trimming, splitting and joining. */
module Text {

  /** The characters that `.` in a regular expression does not match. */
  predicate IsLineTerminator(c: char) {
    c == '\n' || c == '\r' || c == '\U{2028}' || c == '\U{2029}'
  }

  /** The characters that `\s` matches and that `trim` removes. */
  predicate IsSpace(c: char) {
    || '\t' <= c <= '\r' || c == ' ' || c == '\U{A0}' || c == '\U{1680}'
    || '\U{2000}' <= c <= '\U{200A}' || c == '\U{2028}' || c == '\U{2029}'
    || c == '\U{202F}' || c == '\U{205F}' || c == '\U{3000}' || c == '\U{FEFF}'
  }

  predicate IsDigit(c: char) {
    '0' <= c <= '9'
  }

  predicate AllDigits(s: string) {
    forall k :: 0 <= k < |s| ==> IsDigit(s[k])
  }

  /** `parseInt` on digits. */
  function ParseInt(s: string): int {
    if s == "" then 0 else ParseInt(s[..|s| - 1]) * 10 + (s[|s| - 1] as int - '0' as int)
  }

  predicate StartsWith(s: string, prefix: string) {
    |prefix| <= |s| && s[..|prefix|] == prefix
  }

  function TrimStart(s: string): string {
    if s != "" && IsSpace(s[0]) then TrimStart(s[1..]) else s
  }

  function TrimEnd(s: string): string {
    if s != "" && IsSpace(s[|s| - 1]) then TrimEnd(s[..|s| - 1]) else s
  }

  function Trim(s: string): string {
    TrimEnd(TrimStart(s))
  }

  /** Neither end is white space: exactly the strings that `trim` leaves alone. */
  predicate Trimmed(s: string) {
    s == "" || (!IsSpace(s[0]) && !IsSpace(s[|s| - 1]))
  }

  lemma {:induction false} TrimStartFacts(s: string)
    ensures TrimStart(s) == "" || !IsSpace(TrimStart(s)[0])
    ensures TrimStart(s) == "" <==> forall c :: c in s ==> IsSpace(c)
    ensures multiset(TrimStart(s))['>'] == multiset(s)['>']
    ensures forall c :: c in TrimStart(s) ==> c in s
  {
    if s != "" && IsSpace(s[0]) {
      TrimStartFacts(s[1..]);
      assert s == [s[0]] + s[1..];
    } else if s != "" {
      assert s[0] in s;
    }
  }

  lemma {:induction false} TrimEndFacts(s: string)
    requires s == "" || !IsSpace(s[0])
    ensures Trimmed(TrimEnd(s))
    ensures s != "" ==> TrimEnd(s) != "" && TrimEnd(s)[0] == s[0]
    ensures TrimEnd(s) <= s
    ensures multiset(TrimEnd(s))['>'] == multiset(s)['>']
    ensures forall c :: c in TrimEnd(s) ==> c in s
  {
    if s != "" && IsSpace(s[|s| - 1]) {
      TrimEndFacts(s[..|s| - 1]);
      assert s == s[..|s| - 1] + [s[|s| - 1]];
    }
  }

  /** What trimming does: the result is trimmed, is empty exactly for white space, and loses nothing visible. */
  lemma TrimFacts(s: string)
    ensures Trimmed(Trim(s))
    ensures Trim(s) == "" <==> forall c :: c in s ==> IsSpace(c)
    ensures s != "" && !IsSpace(s[0]) ==> Trim(s) != "" && Trim(s)[0] == s[0] && Trim(s) <= s
    ensures multiset(Trim(s))['>'] == multiset(s)['>']
    ensures forall c :: c in Trim(s) ==> c in s
  {
    TrimStartFacts(s);
    TrimEndFacts(TrimStart(s));
  }

  lemma TrimTrimmed(s: string)
    requires Trimmed(s)
    ensures Trim(s) == s
  {
  }

  /** Nothing but white space. */
  predicate White(s: string) {
    forall c :: c in s ==> IsSpace(c)
  }

  lemma WhiteParts(a: string, b: string)
    ensures White(a + b) <==> White(a) && White(b)
  {
    if White(a + b) {
      assert forall c :: c in a ==> c in a + b;
      assert forall c :: c in b ==> c in a + b;
    }
  }

  lemma {:induction false} TrimStartWhite(ws: string, rest: string)
    requires White(ws) && (rest == "" || !IsSpace(rest[0]))
    ensures TrimStart(ws + rest) == rest
  {
    hide IsSpace;
    if ws == "" {
      assert ws + rest == rest;
    } else {
      assert ws[0] in ws && (ws + rest)[0] == ws[0] && (ws + rest)[1..] == ws[1..] + rest;
      assert forall c :: c in ws[1..] ==> c in ws;
      TrimStartWhite(ws[1..], rest);
    }
  }

  lemma {:induction false} TrimEndWhite(rest: string, ws: string)
    requires White(ws) && (rest == "" || !IsSpace(rest[|rest| - 1]))
    ensures TrimEnd(rest + ws) == rest
  {
    hide IsSpace;
    if ws == "" {
      assert rest + ws == rest;
    } else {
      var all, front := rest + ws, ws[..|ws| - 1];
      assert ws[|ws| - 1] in ws && all[|all| - 1] == ws[|ws| - 1] && all[..|all| - 1] == rest + front;
      assert forall c :: c in front ==> c in ws;
      TrimEndWhite(rest, front);
    }
  }

  lemma {:induction false} TrimStartSplits(s: string) returns (ws: string)
    ensures White(ws) && s == ws + TrimStart(s)
  {
    hide IsSpace;
    ws := "";
    if s != "" && IsSpace(s[0]) {
      var rest := TrimStartSplits(s[1..]);
      ws := [s[0]] + rest;
      assert s == [s[0]] + s[1..];
      ConcatAssociates([s[0]], rest, TrimStart(s[1..]));
      WhiteParts([s[0]], rest);
    } else {
      assert s == ws + s;
    }
  }

  lemma {:induction false} TrimEndSplits(s: string) returns (ws: string)
    ensures White(ws) && s == TrimEnd(s) + ws
  {
    hide IsSpace;
    ws := "";
    if s != "" && IsSpace(s[|s| - 1]) {
      var front, last := s[..|s| - 1], [s[|s| - 1]];
      var rest := TrimEndSplits(front);
      ws := rest + last;
      assert s == front + last;
      ConcatAssociates(TrimEnd(front), rest, last);
      WhiteParts(rest, last);
    } else {
      assert s == s + ws;
    }
  }

  /** Trimming, exactly: `t` is what is left of `s` if and only if `s` is `t`, trimmed, between white space. */
  lemma TrimExact(s: string, t: string)
    ensures Trim(s) == t <==> Trimmed(t) && exists before, after :: Between(s, before, t, after)
  {
    hide TrimStart, TrimEnd, IsSpace;
    if Trim(s) == t {
      TrimFacts(s);
      var before := TrimStartSplits(s);
      var after := TrimEndSplits(TrimStart(s));
      ConcatAssociates(before, t, after);
      assert Between(s, before, t, after);
    }
    if Trimmed(t) {
      if before, after :| Between(s, before, t, after) {
        TrimBetween(before, t, after);
      }
    }
  }

  predicate Between(s: string, before: string, t: string, after: string) {
    White(before) && White(after) && s == before + t + after
  }

  lemma TrimBetween(before: string, t: string, after: string)
    requires White(before) && White(after) && Trimmed(t)
    ensures Trim(before + t + after) == t
  {
    if t == "" {
      WhiteParts(before + t, after);
      assert before + t == before;
      TrimFacts(before + t + after);
    } else {
      ConcatAssociates(before, t, after);
      assert (t + after)[0] == t[0];
      TrimStartWhite(before, t + after);
      TrimEndWhite(t, after);
    }
  }

  /** The code points of ECMA-262 sections 12.2 and 12.3 that `\s` and `trim` take for white space; what `.` and `\d` take. */
  lemma CharacterCodes(c: char)
    ensures IsSpace(c) <==>
            c as int in {0x9, 0xA, 0xB, 0xC, 0xD, 0x20, 0xA0, 0x1680, 0x2000, 0x2001, 0x2002, 0x2003, 0x2004, 0x2005, 0x2006,
                         0x2007, 0x2008, 0x2009, 0x200A, 0x2028, 0x2029, 0x202F, 0x205F, 0x3000, 0xFEFF}
    ensures IsLineTerminator(c) <==> c as int in {0xA, 0xD, 0x2028, 0x2029}
    ensures IsDigit(c) <==> c in {'0', '1', '2', '3', '4', '5', '6', '7', '8', '9'}
  {
  }

  /** `toLowerCase` on ASCII letters. */
  function ToLower(s: string): string {
    seq(|s|, k requires 0 <= k < |s| => Lower(s[k]))
  }

  function Lower(c: char): char {
    if 'A' <= c <= 'Z' then (c as int + 32) as char else c
  }

  /** Capital letters turn into the small ones at the same place of the alphabet; nothing else changes. */
  lemma LowerExact(s: string, k: nat)
    requires k < |s|
    ensures |ToLower(s)| == |s|
    ensures var c, r := s[k] as int, ToLower(s)[k] as int;
            if 0x41 <= c < 0x41 + 26 then r - 0x61 == c - 0x41 else r == c
  {
  }

  lemma ConcatAssociates<T>(a: seq<T>, b: seq<T>, c: seq<T>)
    ensures a + (b + c) == a + b + c
  {
  }

  // ---------------------------------------------------------------------------
  // Splitting and joining
  // ---------------------------------------------------------------------------

  function Split(s: string, d: char): (parts: seq<string>)
    ensures |parts| >= 1
  {
    if s == "" then [""]
    else
      var rest := Split(s[1..], d);
      if s[0] == d then [""] + rest else Extend(s[0], rest)
  }

  /** Put a character in front of the first part. */
  function Extend(c: char, parts: seq<string>): (r: seq<string>)
    requires |parts| >= 1
    ensures |r| == |parts|
  {
    [[c] + parts[0]] + parts[1..]
  }

  function Join(parts: seq<string>, sep: string): string {
    if parts == [] then ""
    else if |parts| == 1 then parts[0]
    else parts[0] + sep + Join(parts[1..], sep)
  }

  lemma JoinFirst(texts: seq<string>)
    requires texts != []
    ensures Join(texts, "") == texts[0] + Join(texts[1..], "")
  {
    if |texts| == 1 {
      assert texts[0] + "" == texts[0];
    } else {
      assert texts[0] + "" + Join(texts[1..], "") == texts[0] + Join(texts[1..], "");
    }
  }

  /** No part contains the delimiter. */
  ghost predicate Clean(parts: seq<string>, d: char) {
    forall k :: 0 <= k < |parts| ==> d !in parts[k]
  }

  lemma {:induction false} SplitIsClean(s: string, d: char)
    ensures Clean(Split(s, d), d)
  {
    if s != "" {
      SplitIsClean(s[1..], d);
    }
  }

  lemma {:induction false} SplitWithout(s: string, d: char)
    requires d !in s
    ensures Split(s, d) == [s]
  {
    if s != "" {
      SplitWithout(s[1..], d);
      assert s == [s[0]] + s[1..];
    }
  }

  lemma ExtendConcat(c: char, a: seq<string>, b: seq<string>)
    requires |a| >= 1
    ensures Extend(c, a + b) == Extend(c, a) + b
  {
    assert (a + b)[1..] == a[1..] + b;
  }

  lemma JoinExtend(c: char, parts: seq<string>, sep: string)
    requires |parts| >= 1
    ensures Join(Extend(c, parts), sep) == [c] + Join(parts, sep)
  {
    var r := Extend(c, parts);
    assert r[1..] == parts[1..];
    if |parts| > 1 {
      assert ([c] + parts[0]) + sep + Join(parts[1..], sep) == [c] + (parts[0] + sep + Join(parts[1..], sep));
    }
  }

  lemma {:induction false} SplitConcat(a: string, d: char, b: string)
    ensures Split(a + [d] + b, d) == Split(a, d) + Split(b, d)
  {
    hide Extend;
    if a == "" {
      assert a + [d] + b == [d] + b;
      assert ([d] + b)[1..] == b;
    } else {
      SplitConcat(a[1..], d, b);
      var whole := a + [d] + b;
      assert whole[0] == a[0] && whole[1..] == a[1..] + [d] + b;
      if a[0] == d {
        assert [""] + (Split(a[1..], d) + Split(b, d)) == [""] + Split(a[1..], d) + Split(b, d);
      } else {
        ExtendConcat(a[0], Split(a[1..], d), Split(b, d));
      }
    }
  }

  lemma {:induction false} JoinSplit(s: string, d: char)
    ensures Join(Split(s, d), [d]) == s
  {
    hide Extend;
    if s != "" {
      JoinSplit(s[1..], d);
      var rest := Split(s[1..], d);
      if s[0] == d {
        assert ([""] + rest)[1..] == rest;
        assert Join([""] + rest, [d]) == "" + [d] + s[1..];
      } else {
        JoinExtend(s[0], rest, [d]);
      }
    }
  }

  lemma {:induction false} SplitJoin(parts: seq<string>, d: char)
    requires parts != [] && Clean(parts, d)
    ensures Split(Join(parts, [d]), d) == parts
  {
    if |parts| == 1 {
      SplitWithout(parts[0], d);
    } else {
      SplitJoin(parts[1..], d);
      SplitConcat(parts[0], d, Join(parts[1..], [d]));
      SplitWithout(parts[0], d);
    }
  }

  lemma JoinThree(a: string, b: string, c: string)
    ensures Join([a, b, c], ":") == a + ":" + b + ":" + c == a + ":" + (b + ":" + c)
    ensures ':' !in a && ':' !in b && ':' !in c ==> Clean([a, b, c], ':')
  {
    assert [a, b, c][1..] == [b, c] && [b, c][1..] == [c];
    assert Join([b, c], ":") == b + ":" + c;
    ConcatAssociates(a + ":", b + ":", c);
    ConcatAssociates(a + ":", b, ":");
    assert Join([a, b, c], ":") == a + ":" + (b + ":" + c);
  }

  /** A joined text contains the delimiter as soon as two parts were joined. */
  lemma JoinHasDelimiter(parts: seq<string>, d: char)
    requires |parts| >= 2
    ensures d in Join(parts, [d])
  {
    assert Join(parts, [d]) == parts[0] + [d] + Join(parts[1..], [d]);
    assert (parts[0] + [d] + Join(parts[1..], [d]))[|parts[0]|] == d;
  }
}

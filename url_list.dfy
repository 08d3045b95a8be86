/**
 * The URL-list filter of download-urls.js: the text of the list file is
 * split on "\n", every line is trimmed, and the lines that are empty or
 * start with '#' are dropped.
 */
module UrlList {

  /** The code points String.prototype.trim strips: ECMAScript WhiteSpace and LineTerminator. */
  predicate IsWhitespace(c: char) {
    c == '\t' || c == '\n' || c == '\U{B}' || c == '\U{C}' || c == '\r' || c == ' '
    || c == '\U{A0}' || c == '\U{1680}' || ('\U{2000}' <= c <= '\U{200A}')
    || c == '\U{2028}' || c == '\U{2029}' || c == '\U{202F}' || c == '\U{205F}'
    || c == '\U{3000}' || c == '\U{FEFF}'
  }

  /** Every character of s in the index range [lo, hi) is whitespace. */
  ghost predicate WhitespaceIn(s: string, lo: int, hi: int) {
    forall k :: lo <= k < hi && 0 <= k < |s| ==> IsWhitespace(s[k])
  }

  predicate NoEdgeWhitespace(s: string) {
    s == [] || (!IsWhitespace(s[0]) && !IsWhitespace(s[|s| - 1]))
  }

  /** r stands at index i of s with only whitespace before and after it, and has no whitespace at its edges. */
  ghost predicate TrimWitness(s: string, r: string, i: int) {
    0 <= i <= |s| - |r| && s[i..i + |r|] == r
    && WhitespaceIn(s, 0, i) && WhitespaceIn(s, i + |r|, |s|) && NoEdgeWhitespace(r)
  }

  /** r is s with its maximal whitespace prefix and suffix removed. */
  ghost predicate IsTrimOf(s: string, r: string) {
    exists i :: TrimWitness(s, r, i)
  }

  function TrimStart(s: string): (r: string)
    ensures r == [] || !IsWhitespace(r[0])
  {
    if s != [] && IsWhitespace(s[0]) then TrimStart(s[1..]) else s
  }

  /** TrimStart drops a whitespace prefix and keeps the rest. */
  lemma {:induction false} TrimStartDropsPrefix(s: string)
    ensures |TrimStart(s)| <= |s| && TrimStart(s) == s[|s| - |TrimStart(s)|..]
    ensures WhitespaceIn(s, 0, |s| - |TrimStart(s)|)
  {
    if s != [] && IsWhitespace(s[0]) {
      TrimStartDropsPrefix(s[1..]);
    }
  }

  function TrimEnd(s: string): (r: string)
    ensures r == [] || !IsWhitespace(r[|r| - 1])
  {
    if s != [] && IsWhitespace(s[|s| - 1]) then TrimEnd(s[..|s| - 1]) else s
  }

  /** TrimEnd drops a whitespace suffix and keeps the rest. */
  lemma {:induction false} TrimEndDropsSuffix(s: string)
    ensures |TrimEnd(s)| <= |s| && TrimEnd(s) == s[..|TrimEnd(s)|]
    ensures WhitespaceIn(s, |TrimEnd(s)|, |s|)
  {
    if s != [] && IsWhitespace(s[|s| - 1]) {
      TrimEndDropsSuffix(s[..|s| - 1]);
    }
  }

  /** String.prototype.trim. */
  function Trim(s: string): (r: string)
    ensures NoEdgeWhitespace(r)
  {
    var t := TrimStart(s);
    TrimEndDropsSuffix(t);
    TrimEnd(t)
  }

  /** Trim removes exactly the whitespace prefix and suffix. */
  lemma TrimIsTrimOf(s: string)
    ensures IsTrimOf(s, Trim(s))
  {
    var t := TrimStart(s);
    var r := TrimEnd(t);
    TrimStartDropsPrefix(s);
    TrimEndDropsSuffix(t);
    var i := |s| - |t|;
    assert s[i..i + |r|] == r;
    assert WhitespaceIn(s, i + |r|, |s|) by {
      forall k | i + |r| <= k < |s| ensures IsWhitespace(s[k]) {
        assert s[k] == t[k - i];
      }
    }
    assert TrimWitness(s, r, i);
  }

  /** Only one string is the trim of s. */
  lemma TrimIsUnique(s: string, r1: string, r2: string)
    requires IsTrimOf(s, r1) && IsTrimOf(s, r2)
    ensures r1 == r2
  {
    var i1 :| TrimWitness(s, r1, i1);
    var i2 :| TrimWitness(s, r2, i2);
    WitnessesBothEmpty(s, r1, i1, r2, i2);
    if r1 != [] && r2 != [] {
      WitnessesAlign(s, r1, i1, r2, i2);
      assert r1 == s[i1..i1 + |r1|];
    }
  }

  /** An all-whitespace line has only the empty trim. */
  lemma WitnessesBothEmpty(s: string, r1: string, i1: int, r2: string, i2: int)
    requires TrimWitness(s, r1, i1) && TrimWitness(s, r2, i2)
    ensures r1 == [] <==> r2 == []
  {
    if r1 != [] {
      assert s[i1] == r1[0];
    }
    if r2 != [] {
      assert s[i2] == r2[0];
    }
  }

  /** Two non-empty trims start at the first non-whitespace character and end after the last. */
  lemma WitnessesAlign(s: string, r1: string, i1: int, r2: string, i2: int)
    requires TrimWitness(s, r1, i1) && TrimWitness(s, r2, i2) && r1 != [] && r2 != []
    ensures i1 == i2 && i1 + |r1| == i2 + |r2|
  {
    assert s[i1] == r1[0] && s[i2] == r2[0];
    assert s[i1 + |r1| - 1] == r1[|r1| - 1] && s[i2 + |r2| - 1] == r2[|r2| - 1];
  }

  /** Trim(s) and the trim of s are the same thing. */
  lemma {:induction false} TrimCharacterised(s: string, r: string)
    ensures IsTrimOf(s, r) <==> r == Trim(s)
  {
    TrimIsTrimOf(s);
    if IsTrimOf(s, r) {
      TrimIsUnique(s, r, Trim(s));
    }
  }

  /** Whitespace added at the end of a line does not change its trim: a CR before "\n" disappears. */
  lemma {:induction false} TrimIgnoresTrailingWhitespace(s: string, c: char)
    requires IsWhitespace(c)
    ensures Trim(s + [c]) == Trim(s)
  {
    TrimIsTrimOf(s);
    TrimIsTrimOf(s + [c]);
    TrimOfWithTrailing(s, c, Trim(s));
    TrimIsUnique(s + [c], Trim(s), Trim(s + [c]));
  }

  lemma TrimOfWithTrailing(s: string, c: char, r: string)
    requires IsWhitespace(c) && IsTrimOf(s, r)
    ensures IsTrimOf(s + [c], r)
  {
    var t := s + [c];
    var i :| TrimWitness(s, r, i);
    assert t[i..i + |r|] == r;
    assert WhitespaceIn(t, 0, i) by {
      forall k | 0 <= k < i ensures IsWhitespace(t[k]) {
        assert t[k] == s[k];
      }
    }
    assert WhitespaceIn(t, i + |r|, |t|) by {
      forall k | i + |r| <= k < |t| ensures IsWhitespace(t[k]) {
        if k < |s| {
          assert t[k] == s[k];
        }
      }
    }
    assert TrimWitness(t, r, i);
  }

  /** String.prototype.split("\n"): always at least one part; the separators are not kept. */
  function SplitLines(s: string): (r: seq<string>)
    ensures |r| >= 1
    ensures forall k :: 0 <= k < |r| ==> '\n' !in r[k]
  {
    if s == [] then [""]
    else
      var rest := SplitLines(s[1..]);
      if s[0] == '\n' then [""] + rest
      else [[s[0]] + rest[0]] + rest[1..]
  }

  /** Array.prototype.join("\n"), the inverse of SplitLines. */
  function JoinLines(lines: seq<string>): (s: string)
  {
    if lines == [] then ""
    else if |lines| == 1 then lines[0]
    else lines[0] + "\n" + JoinLines(lines[1..])
  }

  function CountChar(s: string, c: char): (n: nat)
  {
    if s == [] then 0 else (if s[0] == c then 1 else 0) + CountChar(s[1..], c)
  }

  /** Joining the parts back with "\n" gives the file text back. */
  lemma {:induction false} JoinSplitLines(s: string)
    ensures JoinLines(SplitLines(s)) == s
  {
    if s != [] {
      var rest := SplitLines(s[1..]);
      JoinSplitLines(s[1..]);
      if s[0] == '\n' {
        assert SplitLines(s) == [""] + rest;
        assert JoinLines(SplitLines(s)) == "" + "\n" + JoinLines(rest);
        assert s == [s[0]] + s[1..];
      } else {
        var r := SplitLines(s);
        assert r[1..] == rest[1..];
        if |rest| == 1 {
          assert JoinLines(r) == [s[0]] + rest[0];
        } else {
          assert JoinLines(rest) == rest[0] + "\n" + JoinLines(rest[1..]);
          assert JoinLines(r) == [s[0]] + rest[0] + "\n" + JoinLines(rest[1..]);
        }
        assert s == [s[0]] + s[1..];
      }
    }
  }

  /** There is one more part than there are "\n" characters in the text. */
  lemma {:induction false} SplitLinesCount(s: string)
    ensures |SplitLines(s)| == CountChar(s, '\n') + 1
  {
    if s != [] {
      SplitLinesCount(s[1..]);
    }
  }

  /** Splitting at a "\n" splits the parts: the last part of a runs into nothing of b. */
  lemma {:induction false} SplitLinesAtNewline(a: string, b: string)
    ensures SplitLines(a + "\n" + b) == SplitLines(a) + SplitLines(b)
  {
    var s := a + "\n" + b;
    if a == [] {
      assert s == "\n" + b && s[1..] == b;
    } else {
      assert s[0] == a[0] && s[1..] == a[1..] + "\n" + b;
      SplitLinesAtNewline(a[1..], b);
      var rest := SplitLines(a[1..]);
      if a[0] != '\n' {
        assert (rest + SplitLines(b))[0] == rest[0];
        assert (rest + SplitLines(b))[1..] == rest[1..] + SplitLines(b);
      }
    }
  }

  /** Parts without "\n" joined with "\n" split back into the same parts. */
  lemma {:induction false} SplitJoinLines(lines: seq<string>)
    requires |lines| >= 1
    requires forall k :: 0 <= k < |lines| ==> '\n' !in lines[k]
    ensures SplitLines(JoinLines(lines)) == lines
  {
    SplitLinesNoNewline(lines[0]);
    if |lines| > 1 {
      SplitJoinLines(lines[1..]);
      SplitLinesAtNewline(lines[0], JoinLines(lines[1..]));
      assert lines == [lines[0]] + lines[1..];
    }
  }

  lemma {:induction false} SplitLinesNoNewline(s: string)
    requires '\n' !in s
    ensures SplitLines(s) == [s]
  {
    if s != [] {
      assert s[0] != '\n' && '\n' !in s[1..];
      SplitLinesNoNewline(s[1..]);
      assert s == [s[0]] + s[1..];
    }
  }

  /** A trimmed line is kept when it is non-empty and does not start with '#'. */
  predicate IsUrlLine(t: string) {
    t != [] && t[0] != '#'
  }

  /** Every line trimmed; the trimmed lines that are non-empty and do not start with '#' kept, in order. */
  function Kept(lines: seq<string>): (urls: seq<string>)
    ensures |urls| <= |lines|
    ensures forall k :: 0 <= k < |urls| ==> IsUrlLine(urls[k]) && NoEdgeWhitespace(urls[k])
  {
    if lines == [] then []
    else
      var t := Trim(lines[0]);
      (if IsUrlLine(t) then [t] else []) + Kept(lines[1..])
  }

  /** The URLs the script downloads, in file order, from the text of the list file. */
  function UrlsOf(content: string): (urls: seq<string>)
    ensures forall x :: x in urls <==> IsTrimmedUrlLine(SplitLines(content), x)
  {
    var lines := SplitLines(content);
    KeptMembershipAll(lines);
    Kept(lines)
  }

  /** x is neither empty nor a comment, and is the trim of one of the lines. */
  ghost predicate IsTrimmedUrlLine(lines: seq<string>, x: string) {
    exists i :: 0 <= i < |lines| && Trim(lines[i]) == x && IsUrlLine(x)
  }

  /** Every line contributes on its own and in place: the filter neither reorders nor deduplicates. */
  lemma {:induction false} KeptAppend(a: seq<string>, b: seq<string>)
    ensures Kept(a + b) == Kept(a) + Kept(b)
  {
    if a != [] {
      assert (a + b)[0] == a[0] && (a + b)[1..] == a[1..] + b;
      KeptAppend(a[1..], b);
      var t := Trim(a[0]);
      var head := if IsUrlLine(t) then [t] else [];
      calc {
        Kept(a + b);
        head + Kept(a[1..] + b);
        head + (Kept(a[1..]) + Kept(b));
        (head + Kept(a[1..])) + Kept(b);
        Kept(a) + Kept(b);
      }
    } else {
      assert a + b == b;
    }
  }

  /** A string is kept exactly when it is the trim of some line and is neither empty nor a comment. */
  lemma {:induction false} KeptMembership(lines: seq<string>, x: string)
    ensures x in Kept(lines) <==> exists i :: 0 <= i < |lines| && Trim(lines[i]) == x && IsUrlLine(x)
  {
    if lines != [] {
      KeptMembership(lines[1..], x);
      if x in Kept(lines[1..]) {
        var i :| 0 <= i < |lines[1..]| && Trim(lines[1..][i]) == x && IsUrlLine(x);
        assert Trim(lines[i + 1]) == x;
      }
      if exists i :: 0 <= i < |lines| && Trim(lines[i]) == x && IsUrlLine(x) {
        var i :| 0 <= i < |lines| && Trim(lines[i]) == x && IsUrlLine(x);
        if i > 0 {
          assert Trim(lines[1..][i - 1]) == x;
        }
      }
    }
  }

  /** Two list files joined by a newline yield the URLs of the first followed by those of the second. */
  lemma {:induction false} UrlsOfConcat(a: string, b: string)
    ensures UrlsOf(a + "\n" + b) == UrlsOf(a) + UrlsOf(b)
  {
    SplitLinesAtNewline(a, b);
    KeptAppend(SplitLines(a), SplitLines(b));
  }

  lemma KeptMembershipAll(lines: seq<string>)
    ensures forall x :: x in Kept(lines) <==> IsTrimmedUrlLine(lines, x)
  {
    forall x {
      KeptMembership(lines, x);
    }
  }

  /** Lines with equal trims are filtered alike. */
  lemma {:induction false} KeptSameTrims(a: seq<string>, b: seq<string>)
    requires |a| == |b|
    requires forall k :: 0 <= k < |a| ==> Trim(a[k]) == Trim(b[k])
    ensures Kept(a) == Kept(b)
  {
    if a != [] {
      KeptSameTrims(a[1..], b[1..]);
    }
  }

  /** The text with every "\n" written as "\r\n". */
  function ToCrlf(s: string): (r: string)
  {
    if s == [] then ""
    else (if s[0] == '\n' then "\r\n" else [s[0]]) + ToCrlf(s[1..])
  }

  /** Each part of crlf is the same part of lf, possibly followed by a CR. */
  ghost predicate PartsUpToCr(crlf: seq<string>, lf: seq<string>) {
    |crlf| == |lf| && forall k :: 0 <= k < |lf| ==> crlf[k] == lf[k] || crlf[k] == lf[k] + "\r"
  }

  /** One unfolding of SplitLines on a text that starts with a character other than "\n". */
  lemma SplitLinesCons(c: char, t: string)
    requires c != '\n'
    ensures SplitLines([c] + t) == [[c] + SplitLines(t)[0]] + SplitLines(t)[1..]
  {
    assert ([c] + t)[1..] == t;
  }

  /** "\r\n" at the front of a text opens a part that holds only the CR. */
  lemma SplitLinesCrlf(t: string)
    ensures SplitLines("\r\n" + t) == ["\r"] + SplitLines(t)
  {
    assert "\r\n" + t == ['\r'] + ("\n" + t);
    SplitLinesCons('\r', "\n" + t);
    assert ("\n" + t)[1..] == t;
    var rest := SplitLines("\n" + t);
    assert rest == [""] + SplitLines(t);
    assert rest[0] == "" && rest[1..] == SplitLines(t);
    assert ['\r'] + rest[0] == "\r";
  }

  /** A CRLF text splits into the parts of its LF version, each possibly followed by a CR. */
  lemma {:induction false} SplitCrlf(s: string)
    ensures PartsUpToCr(SplitLines(ToCrlf(s)), SplitLines(s))
  {
    if s != [] {
      SplitCrlf(s[1..]);
      var t := ToCrlf(s[1..]);
      var a, b := SplitLines(t), SplitLines(s[1..]);
      if s[0] == '\n' {
        assert ToCrlf(s) == "\r\n" + t;
        SplitLinesCrlf(t);
        assert SplitLines(s) == [""] + b;
      } else {
        assert ToCrlf(s) == [s[0]] + t;
        SplitLinesCons(s[0], t);
        SplitLinesCons(s[0], s[1..]);
        assert s == [s[0]] + s[1..];
        assert [s[0]] + (b[0] + "\r") == ([s[0]] + b[0]) + "\r";
      }
    }
  }

  /** A list file saved with CRLF line ends yields exactly the URLs of the same file with LF ends. */
  lemma {:induction false} CrlfYieldsSameUrls(s: string)
    ensures UrlsOf(ToCrlf(s)) == UrlsOf(s)
  {
    SplitCrlf(s);
    var a, b := SplitLines(ToCrlf(s)), SplitLines(s);
    forall k | 0 <= k < |a| ensures Trim(a[k]) == Trim(b[k]) {
      if a[k] != b[k] {
        TrimIgnoresTrailingWhitespace(b[k], '\r');
      }
    }
    KeptSameTrims(a, b);
  }
}

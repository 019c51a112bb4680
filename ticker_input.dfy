/** The ticker-list comprehension of the metrics page:
    [ticker.strip().upper() for ticker in tickers_input.split(',')]. */
module TickerInput {

  /** The characters Python's str.isspace accepts. */
  const Whitespace: set<char> := {' ', '\t', '\n', '\U{b}', '\U{c}', '\r', '\U{1c}', '\U{1d}', '\U{1e}', '\U{1f}',
    '\U{85}', '\U{a0}', '\U{1680}', '\U{2000}', '\U{2001}', '\U{2002}', '\U{2003}', '\U{2004}', '\U{2005}',
    '\U{2006}', '\U{2007}', '\U{2008}', '\U{2009}', '\U{200a}', '\U{2028}', '\U{2029}', '\U{202f}', '\U{205f}',
    '\U{3000}'}

  predicate IsSpace(c: char) {
    c in Whitespace
  }

  predicate AllSpace(s: string) {
    forall i :: 0 <= i < |s| ==> IsSpace(s[i])
  }

  predicate IsLower(c: char) {
    'a' <= c <= 'z'
  }

  /** Number of times c occurs in s. */
  function Occurrences(s: string, c: char): nat
  {
    if s == [] then 0 else Occurrences(s[..|s| - 1], c) + (if s[|s| - 1] == c then 1 else 0)
  }

  // ---------------------------------------------------------------------------
  // str.split(sep)

  /** s.split(sep): the pieces between separators, including empty ones. */
  function Split(s: string, sep: char): (r: seq<string>)
    ensures |r| == Occurrences(s, sep) + 1
  {
    if s == [] then [""]
    else
      var pre := Split(s[..|s| - 1], sep);
      var c := s[|s| - 1];
      if c == sep then pre + [""]
      else pre[..|pre| - 1] + [pre[|pre| - 1] + [c]]
  }

  /** No piece holds the separator. */
  lemma {:induction false} SplitPiecesNoSep(s: string, sep: char)
    ensures forall i :: 0 <= i < |Split(s, sep)| ==> sep !in Split(s, sep)[i]
    decreases |s|
  {
    if s != [] {
      var pre := Split(s[..|s| - 1], sep);
      var c := s[|s| - 1];
      SplitPiecesNoSep(s[..|s| - 1], sep);
      if c != sep {
        var last := pre[|pre| - 1] + [c];
        assert sep !in pre[|pre| - 1];
        assert sep !in last;
        assert Split(s, sep) == pre[..|pre| - 1] + [last];
      }
    }
  }

  /** sep.join(pieces) */
  function Join(pieces: seq<string>, sep: char): string
  {
    if pieces == [] then ""
    else if |pieces| == 1 then pieces[0]
    else Join(pieces[..|pieces| - 1], sep) + [sep] + pieces[|pieces| - 1]
  }

  lemma JoinSnoc(pieces: seq<string>, q: string, sep: char)
    requires |pieces| >= 1
    ensures Join(pieces + [q], sep) == Join(pieces, sep) + [sep] + q
  {
    assert (pieces + [q])[..|pieces|] == pieces;
  }

  /** Growing the last piece by c grows the joined text by c. */
  lemma JoinGrowLast(pieces: seq<string>, c: char, sep: char)
    requires |pieces| >= 1
    ensures Join(pieces[..|pieces| - 1] + [pieces[|pieces| - 1] + [c]], sep) == Join(pieces, sep) + [c]
  {
    var init := pieces[..|pieces| - 1];
    var last := pieces[|pieces| - 1];
    if |pieces| > 1 {
      JoinSnoc(init, last + [c], sep);
      JoinSnoc(init, last, sep);
      assert init + [last] == pieces;
    }
  }

  /** Joining the pieces back with the separator gives the input: split loses nothing. */
  lemma {:induction false} JoinSplit(s: string, sep: char)
    ensures Join(Split(s, sep), sep) == s
    decreases |s|
  {
    if s != [] {
      var init := s[..|s| - 1];
      var c := s[|s| - 1];
      var pre := Split(init, sep);
      JoinSplit(init, sep);
      assert s == init + [c];
      if c == sep {
        assert Split(s, sep) == pre + [""];
        JoinSnoc(pre, "", sep);
      } else {
        assert Split(s, sep) == pre[..|pre| - 1] + [pre[|pre| - 1] + [c]];
        JoinGrowLast(pre, c, sep);
      }
    }
  }

  /** Splitting text that has no separator in it extends the last piece. */
  lemma {:induction false} SplitExtend(a: string, q: string, sep: char)
    requires sep !in q
    ensures var pa := Split(a, sep);
            Split(a + q, sep) == pa[..|pa| - 1] + [pa[|pa| - 1] + q]
    decreases |q|
  {
    var pa := Split(a, sep);
    if q == [] {
      assert a + q == a;
      assert pa[|pa| - 1] + q == pa[|pa| - 1];
      assert pa[..|pa| - 1] + [pa[|pa| - 1]] == pa;
    } else {
      var q' := q[..|q| - 1];
      var c := q[|q| - 1];
      assert c in q;
      assert (a + q)[..|a + q| - 1] == a + q';
      SplitExtend(a, q', sep);
      assert pa[|pa| - 1] + q' + [c] == pa[|pa| - 1] + q;
    }
  }

  /** A separator at the end opens a new, empty piece. */
  lemma SplitSep(a: string, sep: char)
    ensures Split(a + [sep], sep) == Split(a, sep) + [""]
  {
    assert (a + [sep])[..|a + [sep]| - 1] == a;
  }

  /** Splitting the joined pieces gives them back, when no piece holds the separator. */
  lemma {:induction false} SplitJoin(pieces: seq<string>, sep: char)
    requires |pieces| >= 1
    requires forall i :: 0 <= i < |pieces| ==> sep !in pieces[i]
    ensures Split(Join(pieces, sep), sep) == pieces
    decreases |pieces|
  {
    var last := pieces[|pieces| - 1];
    if |pieces| == 1 {
      SplitExtend("", last, sep);
      assert "" + last == last;
      assert [last] == pieces;
    } else {
      var init := pieces[..|pieces| - 1];
      var j := Join(init, sep);
      assert Join(pieces, sep) == (j + [sep]) + last;
      SplitJoin(init, sep);
      SplitSep(j, sep);
      SplitExtend(j + [sep], last, sep);
      var ps := init + [""];
      assert ps[..|ps| - 1] == init;
      assert ps[|ps| - 1] + last == last;
      assert init + [last] == pieces;
    }
  }

  // ---------------------------------------------------------------------------
  // str.strip() and str.upper()

  /** How many whitespace characters s starts with. */
  function LeadingSpaces(s: string): (n: nat)
    ensures n <= |s| && forall i :: 0 <= i < n ==> IsSpace(s[i])
    ensures n < |s| ==> !IsSpace(s[n])
  {
    if s != [] && IsSpace(s[0]) then LeadingSpaces(s[1..]) + 1 else 0
  }

  /** How many whitespace characters s ends with. */
  function TrailingSpaces(s: string): (n: nat)
    ensures n <= |s| && forall i :: |s| - n <= i < |s| ==> IsSpace(s[i])
    ensures n < |s| ==> !IsSpace(s[|s| - 1 - n])
  {
    if s != [] && IsSpace(s[|s| - 1]) then TrailingSpaces(s[..|s| - 1]) + 1 else 0
  }

  /** s.lstrip(): drop leading whitespace. */
  function LStrip(s: string): string
  {
    s[LeadingSpaces(s)..]
  }

  /** s.rstrip(): drop trailing whitespace. */
  function RStrip(s: string): string
  {
    s[..|s| - TrailingSpaces(s)]
  }

  /** s.strip(): the text between the leading and the trailing whitespace. */
  function Strip(s: string): (r: string)
    ensures |r| <= |s| && forall c :: c in r ==> c in s
    ensures r != [] ==> !IsSpace(r[0]) && !IsSpace(r[|r| - 1])
  {
    var l := LStrip(s);
    var r := RStrip(l);
    assert forall k :: 0 <= k < |r| ==> r[k] == s[LeadingSpaces(s) + k];
    r
  }

  /** r is s with whitespace, and only whitespace, cut from both ends. */
  ghost predicate TrimOf(s: string, r: string) {
    exists a, b :: 0 <= a <= b <= |s| && r == s[a..b] && AllSpace(s[..a]) && AllSpace(s[b..])
  }

  /** Strip cuts only whitespace and cuts all of it at both ends. */
  lemma StripTrims(s: string)
    ensures TrimOf(s, Strip(s))
  {
    var a := LeadingSpaces(s);
    var l := s[a..];
    var b := a + |l| - TrailingSpaces(l);
    assert Strip(s) == s[a..b];
    assert AllSpace(s[b..]) by {
      assert s[b..] == l[|l| - TrailingSpaces(l)..];
    }
  }

  /** The upper-case form of a character: ASCII letters only. */
  function UpperChar(c: char): char
  {
    if IsLower(c) then (c as int - 32) as char else c
  }

  /** s.upper() on ASCII letters: each lower-case letter becomes its capital,
      every other character stays. */
  function Upper(s: string): (r: string)
    ensures |r| == |s|
    ensures forall i :: 0 <= i < |s| && !IsLower(s[i]) ==> r[i] == s[i]
    ensures forall i :: 0 <= i < |s| && IsLower(s[i]) ==> 'A' <= r[i] <= 'Z' && r[i] as int == s[i] as int - 32
    ensures forall i :: 0 <= i < |r| ==> !IsLower(r[i]) && IsSpace(r[i]) == IsSpace(s[i]) && (r[i] == ',') == (s[i] == ',')
  {
    seq(|s|, i requires 0 <= i < |s| => UpperChar(s[i]))
  }

  lemma UpperKeepsComma(s: string)
    ensures ',' in Upper(s) ==> ',' in s
  {
    if ',' in Upper(s) {
      var k :| 0 <= k < |s| && Upper(s)[k] == ',';
      assert s[k] == ',';
    }
  }

  /** Stripping twice is stripping once. */
  lemma StripIdempotent(s: string)
    ensures Strip(Strip(s)) == Strip(s)
  {
    var t := Strip(s);
    if t != [] {
      assert LeadingSpaces(t) == 0;
      assert TrailingSpaces(t) == 0;
    }
  }

  /** Upper-casing twice is upper-casing once. */
  lemma UpperIdempotent(s: string)
    ensures Upper(Upper(s)) == Upper(s)
  {
  }

  // ---------------------------------------------------------------------------
  // The comprehension.

  /** One piece of the ticker list: ticker.strip().upper(). The result has no
      lower-case letter, starts and ends with a non-space, and holds a comma
      only if the piece did. */
  function Normalise(piece: string): (q: string)
    ensures forall k :: 0 <= k < |q| ==> !IsLower(q[k])
    ensures q != [] ==> !IsSpace(q[0]) && !IsSpace(q[|q| - 1])
    ensures ',' in q ==> ',' in piece
  {
    var t := Strip(piece);
    UpperKeepsComma(t);
    Upper(t)
  }

  /** The ticker list: one entry per comma-separated piece, each stripped of
      surrounding whitespace and upper-cased; so an entry holds no comma, no
      lower-case letter, and starts and ends with a non-space. */
  function ParseTickers(input: string): (r: seq<string>)
    ensures |r| == Occurrences(input, ',') + 1
    ensures forall i :: 0 <= i < |r| ==> ',' !in r[i]
    ensures forall i :: 0 <= i < |r| ==> forall k :: 0 <= k < |r[i]| ==> !IsLower(r[i][k])
    ensures forall i :: 0 <= i < |r| && r[i] != [] ==> !IsSpace(r[i][0]) && !IsSpace(r[i][|r[i]| - 1])
  {
    var pieces := Split(input, ',');
    SplitPiecesNoSep(input, ',');
    seq(|pieces|, i requires 0 <= i < |pieces| => Normalise(pieces[i]))
  }

  /** Entry i of the ticker list is piece i of the input, stripped and upper-cased. */
  lemma ParseTickersPieces(input: string)
    ensures var pieces := Split(input, ',');
            Join(pieces, ',') == input && |ParseTickers(input)| == |pieces| &&
            forall i :: 0 <= i < |pieces| ==> ParseTickers(input)[i] == Normalise(pieces[i])
  {
    JoinSplit(input, ',');
  }

  /** The list is never empty, so the page's "if tickers" test always passes,
      even for an empty or all-comma input. */
  lemma ParseTickersNonEmpty(input: string)
    ensures ParseTickers(input) != []
  {
  }

  /** A trailing comma leaves an empty last piece, which becomes an empty ticker. */
  lemma SplitTrailingComma()
    ensures Split("AAPL,", ',') == ["AAPL", ""]
  {
    assert Join(["AAPL", ""], ',') == "AAPL," by {
      assert ["AAPL", ""][..1] == ["AAPL"];
    }
    SplitJoin(["AAPL", ""], ',');
  }

}

/** The template scanner: TEMPLATE_REGEX = \{\{([^}]+)\}\} and the substitution resolve_string makes with it. */
module Template {
  import opened Options

  /** The regex matches s from i, with its closing braces at `close`. The run between may hold '{'. */
  ghost predicate MatchAt(s: string, i: nat, close: nat) {
    && i + 3 <= close && close + 2 <= |s|
    && s[i] == '{' && s[i + 1] == '{' && s[close] == '}' && s[close + 1] == '}'
    && forall k :: i + 2 <= k < close ==> s[k] != '}'
  }

  function FirstClose(s: string, k: nat): (c: nat)
    requires k <= |s|
    ensures k <= c <= |s| && (c < |s| ==> s[c] == '}') && forall j :: k <= j < c ==> s[j] != '}'
    decreases |s| - k
  {
    if k == |s| || s[k] == '}' then k else FirstClose(s, k + 1)
  }

  /** The match at i, if there is one: the greedy run ends at the first closing brace. */
  function MatchEnd(s: string, i: nat): (r: Option<nat>)
    ensures r.Some? ==> i + 3 <= r.value && r.value + 2 <= |s|
  {
    if i + 2 <= |s| && s[i] == '{' && s[i + 1] == '{' then
      var c := FirstClose(s, i + 2);
      if i + 3 <= c && c + 1 < |s| && s[c + 1] == '}' then Some(c) else None
    else None
  }

  datatype Span = Span(start: nat, close: nat)

  /** The matches of re.sub from position i on: leftmost first, continuing after each. */
  function Scan(s: string, i: nat): seq<Span>
    decreases |s| - i
  {
    if i >= |s| then []
    else
      var m := MatchEnd(s, i);
      if m.Some? then [Span(i, m.value)] + Scan(s, m.value + 2) else Scan(s, i + 1)
  }

  /** Where the scanner goes on after position i: past the match there, or one character further. */
  function Onward(s: string, i: nat): (j: nat)
    requires i < |s|
    ensures i < j <= |s|
  {
    var m := MatchEnd(s, i);
    if m.Some? then m.value + 2 else i + 1
  }

  /** What re.sub puts for the stretch from i to Onward(s, i). */
  function Unit(s: string, i: nat, f: string -> string): string
    requires i < |s|
  {
    var m := MatchEnd(s, i);
    if m.Some? then f(s[i + 2..m.value]) else [s[i]]
  }

  /** TEMPLATE_REGEX.sub(f, s) from position i on. */
  function Sub(s: string, i: nat, f: string -> string): string
    requires i <= |s|
    decreases |s| - i
  {
    if i == |s| then "" else Unit(s, i, f) + Sub(s, Onward(s, i), f)
  }

  lemma MatchEndExact(s: string, i: nat, close: nat)
    ensures MatchEnd(s, i) == Some(close) <==> MatchAt(s, i, close)
  {
    if i + 2 <= |s| {
      var c := FirstClose(s, i + 2);
    }
  }

  predicate Inside(spans: seq<Span>, p: nat) {
    exists k :: 0 <= k < |spans| && spans[k].start <= p < spans[k].close + 2
  }

  /** In order, disjoint and from position i on. */
  predicate InOrder(spans: seq<Span>, i: nat, n: nat)
    decreases |spans|
  {
    if spans == [] then i <= n
    else i <= spans[0].start && spans[0].start + 3 <= spans[0].close && InOrder(spans[1..], spans[0].close + 2, n)
  }

  ghost predicate AllMatch(s: string, spans: seq<Span>) {
    forall k :: 0 <= k < |spans| ==> MatchAt(s, spans[k].start, spans[k].close)
  }

  /** Every place from i on where a match starts lies inside a span. */
  ghost predicate Complete(s: string, spans: seq<Span>, i: nat) {
    forall p, c :: i <= p && MatchAt(s, p, c) ==> Inside(spans, p)
  }

  /** The declarative reading of re.sub from position i on: the spans are disjoint matches, in order, and
      every place where a match starts lies inside one of them. */
  ghost predicate Covering(s: string, spans: seq<Span>, i: nat) {
    InOrder(spans, i, |s|) && AllMatch(s, spans) && Complete(s, spans, i)
  }

  lemma {:induction false} InOrderBounds(spans: seq<Span>, i: nat, n: nat)
    requires InOrder(spans, i, n)
    ensures i <= n && forall k :: 0 <= k < |spans| ==> i <= spans[k].start && spans[k].start + 3 <= spans[k].close
    decreases |spans|
  {
    if spans != [] { InOrderBounds(spans[1..], spans[0].close + 2, n); }
  }

  lemma InsideCons(spans: seq<Span>, p: nat)
    requires spans != []
    ensures Inside(spans, p) <==> spans[0].start <= p < spans[0].close + 2 || Inside(spans[1..], p)
  {
    if Inside(spans, p) && !(spans[0].start <= p < spans[0].close + 2) {
      var k :| 0 <= k < |spans| && spans[k].start <= p < spans[k].close + 2;
      assert spans[1..][k - 1] == spans[k];
    }
    if Inside(spans[1..], p) {
      var k :| 0 <= k < |spans[1..]| && spans[1..][k].start <= p < spans[1..][k].close + 2;
      assert spans[k + 1] == spans[1..][k];
    }
  }

  /** A covering of the template is its first match and a covering of the rest. */
  lemma CoveringCons(s: string, spans: seq<Span>, i: nat)
    requires spans != [] && i == spans[0].start && MatchAt(s, i, spans[0].close)
    ensures Covering(s, spans, i) <==> Covering(s, spans[1..], spans[0].close + 2)
  {
    hide MatchAt, Inside;
    var head, rest := spans[0], spans[1..];
    var j := head.close + 2;
    MatchBounds(s, i, head.close);
    forall p { InsideCons(spans, p); }
    if InOrder(rest, j, |s|) {
      assert AllMatch(s, spans) <==> AllMatch(s, rest) by {
        if AllMatch(s, rest) {
          forall k | 0 <= k < |spans| ensures MatchAt(s, spans[k].start, spans[k].close) {
            if k > 0 { assert spans[k] == rest[k - 1]; }
          }
        }
      }
      assert Complete(s, spans, i) <==> Complete(s, rest, j);
    }
  }

  lemma MatchBounds(s: string, i: nat, close: nat)
    requires MatchAt(s, i, close)
    ensures i + 3 <= close && close + 2 <= |s|
  {
  }

  /** Where no match starts, a covering may as well begin one position later. */
  lemma CoveringSkip(s: string, spans: seq<Span>, i: nat)
    requires i < |s| && forall c :: !MatchAt(s, i, c)
    ensures Covering(s, spans, i) <==> Covering(s, spans, i + 1)
  {
    hide MatchAt, Inside;
    if spans != [] && AllMatch(s, spans) {
      assert MatchAt(s, spans[0].start, spans[0].close);
    }
  }

  /** Where a match starts, every covering begins with it. */
  lemma FirstSpan(s: string, spans: seq<Span>, i: nat, c: nat)
    requires Covering(s, spans, i) && MatchAt(s, i, c)
    ensures spans != [] && spans[0] == Span(i, c)
  {
    hide MatchAt;
    assert Inside(spans, i);
    InsideCons(spans, i);
    InOrderBounds(spans[1..], spans[0].close + 2, |s|);
    assert MatchAt(s, i, spans[0].close);
    MatchEndExact(s, i, c);
    MatchEndExact(s, i, spans[0].close);
  }

  /** The scanner's matches are the one covering of the template. */
  lemma {:induction false} ScanIsTheCovering(s: string, spans: seq<Span>, i: nat)
    requires i <= |s|
    ensures Covering(s, spans, i) <==> spans == Scan(s, i)
    decreases |s| - i
  {
    hide MatchAt, Covering, Inside;
    if i == |s| {
      NothingLeft(s, spans);
    } else {
      var m := MatchEnd(s, i);
      if m.Some? {
        var head := Span(i, m.value);
        MatchEndExact(s, i, m.value);
        if Covering(s, spans, i) { FirstSpan(s, spans, i, m.value); }
        if spans != [] && spans[0] == head {
          CoveringCons(s, spans, i);
          ScanIsTheCovering(s, spans[1..], m.value + 2);
          assert spans == [head] + spans[1..];
        }
      } else {
        forall c ensures !MatchAt(s, i, c) { MatchEndExact(s, i, c); }
        CoveringSkip(s, spans, i);
        ScanIsTheCovering(s, spans, i + 1);
      }
    }
  }

  lemma NothingLeft(s: string, spans: seq<Span>)
    ensures Covering(s, spans, |s|) <==> spans == []
  {
    if Covering(s, spans, |s|) && spans != [] {
      MatchBounds(s, spans[0].start, spans[0].close);
      assert false;
    }
  }

  /** A template cut at its matches. */
  datatype Piece = Text(text: string) | Hole(raw: string)

  function Cut(s: string, spans: seq<Span>, i: nat): (ps: seq<Piece>)
    requires InOrder(spans, i, |s|)
    ensures ps != [] && ps[|ps| - 1].Text?
    decreases |spans|
  {
    InOrderBounds(spans, i, |s|);
    if spans == [] then [Text(s[i..])]
    else
      var m := spans[0];
      InOrderBounds(spans[1..], m.close + 2, |s|);
      [Text(s[i..m.start]), Hole(s[m.start + 2..m.close])] + Cut(s, spans[1..], m.close + 2)
  }

  function Pieces(s: string): (ps: seq<Piece>)
    ensures ps != [] && ps[|ps| - 1].Text?
  {
    ScanIsTheCovering(s, Scan(s, 0), 0);
    Cut(s, Scan(s, 0), 0)
  }

  /** Texts as they are, holes filled: nothing that is filled in is looked at again. */
  function Render(pieces: seq<Piece>, f: string -> string): string {
    if pieces == [] then ""
    else (match pieces[0] case Text(t) => t case Hole(raw) => f(raw)) + Render(pieces[1..], f)
  }

  /** The first text and the first hole of a rendered cut. */
  lemma RenderCut(s: string, spans: seq<Span>, i: nat, f: string -> string)
    requires InOrder(spans, i, |s|) && spans != []
    ensures var m := spans[0]; i <= m.start <= m.close <= m.close + 2 <= |s| && m.start + 2 <= m.close
    ensures var m := spans[0];
            Render(Cut(s, spans, i), f) == s[i..m.start]
                + (f(s[m.start + 2..m.close]) + Render(Cut(s, spans[1..], m.close + 2), f))
  {
    InOrderBounds(spans, i, |s|);
    var m := spans[0];
    InOrderBounds(spans[1..], m.close + 2, |s|);
    var rest := Cut(s, spans[1..], m.close + 2);
    var ps := Cut(s, spans, i);
    assert ps == [Text(s[i..m.start]), Hole(s[m.start + 2..m.close])] + rest;
    assert ps[1..] == [Hole(s[m.start + 2..m.close])] + rest && ps[1..][1..] == rest;
  }

  /** Moving the start of a cut one plain character to the left. */
  lemma CutEarlier(s: string, spans: seq<Span>, i: nat, f: string -> string)
    requires InOrder(spans, i + 1, |s|)
    ensures InOrder(spans, i, |s|) && i < |s|
    ensures Render(Cut(s, spans, i), f) == [s[i]] + Render(Cut(s, spans, i + 1), f)
  {
    hide Render, Cut;
    InOrderBounds(spans, i + 1, |s|);
    if spans == [] {
      RestRendered(s, i, f);
      RestRendered(s, i + 1, f);
      assert s[i..] == [s[i]] + s[i + 1..];
    } else {
      RenderCut(s, spans, i, f);
      RenderCut(s, spans, i + 1, f);
      assert s[i..spans[0].start] == [s[i]] + s[i + 1..spans[0].start];
    }
  }

  /** A rest without matches is rendered as it is. */
  lemma RestRendered(s: string, i: nat, f: string -> string)
    requires i <= |s|
    ensures Render(Cut(s, [], i), f) == s[i..]
  {
    assert [Text(s[i..])][1..] == [];
    assert s[i..] + "" == s[i..];
  }

  /** A match at the start of the cut. */
  lemma FirstRendered(s: string, i: nat, f: string -> string)
    requires i < |s| && MatchEnd(s, i).Some?
    requires InOrder(Scan(s, MatchEnd(s, i).value + 2), MatchEnd(s, i).value + 2, |s|)
    ensures InOrder(Scan(s, i), i, |s|)
    ensures var c := MatchEnd(s, i).value;
            Render(Cut(s, Scan(s, i), i), f) == f(s[i + 2..c]) + Render(Cut(s, Scan(s, c + 2), c + 2), f)
  {
    hide Render, Cut;
    var spans, c := Scan(s, i), MatchEnd(s, i).value;
    assert spans[0] == Span(i, c) && spans[1..] == Scan(s, c + 2);
    RenderCut(s, spans, i, f);
    assert s[i..i] == "";
  }

  /** The substitution is the rendering of the template's pieces. */
  lemma {:induction false} SubRenders(s: string, i: nat, f: string -> string)
    requires i <= |s|
    ensures InOrder(Scan(s, i), i, |s|)
    ensures Sub(s, i, f) == Render(Cut(s, Scan(s, i), i), f)
    decreases |s| - i
  {
    hide MatchEnd, Render, Cut;
    if i < |s| {
      SubRenders(s, Onward(s, i), f);
      if MatchEnd(s, i).Some? {
        FirstRendered(s, i, f);
      } else {
        CutEarlier(s, Scan(s, i + 1), i, f);
      }
    } else {
      RestRendered(s, |s|, f);
      assert s[|s|..] == "";
    }
  }

  function Braces(raw: string): string { "{{" + raw + "}}" }

  lemma SplitAt(s: string, i: nat, j: nat)
    requires i <= j <= |s|
    ensures s[i..] == s[i..j] + s[j..]
  {
  }

  lemma BracesBack(s: string, i: nat, c: nat)
    requires MatchAt(s, i, c)
    ensures s[i..c + 2] == Braces(s[i + 2..c])
  {
    assert s[i..c + 2] == s[i..i + 2] + s[i + 2..c] + s[c..c + 2];
  }

  lemma UnitPrintsBack(s: string, i: nat)
    requires i < |s|
    ensures Unit(s, i, Braces) == s[i..Onward(s, i)]
  {
    var m := MatchEnd(s, i);
    if m.Some? {
      MatchEndExact(s, i, m.value);
      BracesBack(s, i, m.value);
    }
  }

  /** Putting every hole back between its braces prints the template. */
  lemma {:induction false} PiecesPrintBack(s: string, i: nat)
    requires i <= |s|
    ensures Sub(s, i, Braces) == s[i..]
    decreases |s| - i
  {
    hide Unit, Onward, Braces;
    if i < |s| {
      var j := Onward(s, i);
      UnitPrintsBack(s, i);
      PiecesPrintBack(s, j);
      SplitAt(s, i, j);
    }
  }

  /** No text between holes contains a match. */
  lemma {:induction false} TextsHaveNoMatch(s: string, spans: seq<Span>, i: nat, piece: Piece, p: nat, c: nat)
    requires Covering(s, spans, i) && piece in Cut(s, spans, i) && piece.Text?
    ensures !MatchAt(piece.text, p, c)
    decreases |spans|
  {
    hide MatchAt;
    if spans == [] || piece == Cut(s, spans, i)[0] {
      if MatchAt(piece.text, p, c) { GapHasNoMatch(s, spans, i, p, c); }
    } else {
      LaterCovering(s, spans, i);
      TextsHaveNoMatch(s, spans[1..], spans[0].close + 2, piece, p, c);
    }
  }

  lemma GapHasNoMatch(s: string, spans: seq<Span>, i: nat, p: nat, c: nat)
    requires Covering(s, spans, i)
    ensures Cut(s, spans, i)[0].Text? && !MatchAt(Cut(s, spans, i)[0].text, p, c)
  {
    hide Inside, MatchAt;
    InOrderBounds(spans, i, |s|);
    var end := if spans == [] then |s| else spans[0].start;
    if spans != [] { InOrderBounds(spans[1..], spans[0].close + 2, |s|); }
    var gap := s[i..end];
    assert Cut(s, spans, i)[0] == Text(gap);
    if MatchAt(gap, p, c) {
      MatchInSlice(s, i, end, p, c);
      assert Inside(spans, i + p);
      Outside(spans, i, |s|, i + p);
    }
  }

  lemma MatchInSlice(s: string, i: nat, end: nat, p: nat, c: nat)
    requires i <= end <= |s| && MatchAt(s[i..end], p, c)
    ensures MatchAt(s, i + p, i + c) && i + p < end
  {
    forall k | i + p + 2 <= k < i + c ensures s[k] != '}' { assert s[k] == s[i..end][k - i]; }
  }

  lemma {:induction false} Outside(spans: seq<Span>, i: nat, n: nat, p: nat)
    requires InOrder(spans, i, n) && (spans == [] || p < spans[0].start)
    ensures !Inside(spans, p)
    decreases |spans|
  {
    if spans != [] {
      InsideCons(spans, p);
      if |spans| > 1 { InOrderBounds(spans[1..], spans[0].close + 2, n); }
      Outside(spans[1..], spans[0].close + 2, n, p);
    }
  }

  lemma LaterCovering(s: string, spans: seq<Span>, i: nat)
    requires spans != [] && Covering(s, spans, i)
    ensures Covering(s, spans[1..], spans[0].close + 2)
  {
    hide MatchAt, Inside;
    assert MatchAt(s, spans[0].start, spans[0].close);
    assert Covering(s, spans, spans[0].start);
    CoveringCons(s, spans, spans[0].start);
  }

  /** The text after the last match at or after i. */
  function Tail(s: string, i: nat): string
    requires i <= |s|
    decreases |s| - i
  {
    if Scan(s, i) == [] || i == |s| then s[i..] else Tail(s, Onward(s, i))
  }

  lemma ScanInOrder(s: string, i: nat)
    requires i <= |s|
    ensures InOrder(Scan(s, i), i, |s|)
  {
    hide MatchAt, Inside, AllMatch, Complete;
    ScanIsTheCovering(s, Scan(s, i), i);
  }

  /** It is the last piece of the cut template. */
  lemma {:induction false} TailIsLastPiece(s: string, i: nat)
    requires i <= |s| && InOrder(Scan(s, i), i, |s|)
    ensures var ps := Cut(s, Scan(s, i), i); ps[|ps| - 1] == Text(Tail(s, i))
    decreases |s| - i
  {
    hide MatchEnd, InOrder;
    if Scan(s, i) != [] && i < |s| {
      var j := Onward(s, i);
      ScanInOrder(s, j);
      TailIsLastPiece(s, j);
      if MatchEnd(s, i).Some? {
        assert Scan(s, i)[1..] == Scan(s, j);
      } else {
        LastPieceEarlier(s, Scan(s, j), i);
      }
    }
  }

  lemma LastPieceEarlier(s: string, spans: seq<Span>, i: nat)
    requires spans != [] && InOrder(spans, i, |s|) && InOrder(spans, i + 1, |s|)
    ensures var ps, qs := Cut(s, spans, i), Cut(s, spans, i + 1); ps != [] && qs != [] && ps[|ps| - 1] == qs[|qs| - 1]
  {
    var m := spans[0];
    InOrderBounds(spans[1..], m.close + 2, |s|);
    var rest := Cut(s, spans[1..], m.close + 2);
    assert rest != [];
  }

  /** A match that is whole before the seam is the same in the joined template. */
  lemma MatchJoined(a: string, b: string, i: nat, c: nat)
    requires c + 1 < |a|
    ensures MatchAt(a, i, c) <==> MatchAt(a + b, i, c)
  {
    assert a == (a + b)[..|a|];
  }

  lemma FirstMatchAhead(s: string, i: nat) returns (p: nat, c: nat)
    requires i <= |s| && Scan(s, i) != []
    ensures i <= p && MatchAt(s, p, c)
    decreases |s| - i
  {
    var m := MatchEnd(s, i);
    if m.Some? {
      MatchEndExact(s, i, m.value);
      p, c := i, m.value;
    } else {
      p, c := FirstMatchAhead(s, i + 1);
    }
  }

  /** The scanner behaves before the seam as it does without the second template. */
  lemma SameUnitJoined(a: string, b: string, i: nat, f: string -> string)
    requires i < |a| && (Scan(a, i) == [] ==> '{' !in a[i..])
    ensures Onward(a + b, i) == Onward(a, i) && Unit(a + b, i, f) == Unit(a, i, f)
  {
    assert MatchEnd(a + b, i) == MatchEnd(a, i) by { SameMatch(a, b, i); }
    var m := MatchEnd(a, i);
    if m.Some? { assert (a + b)[i + 2..m.value] == a[i + 2..m.value]; }
  }

  lemma SameMatch(a: string, b: string, i: nat)
    requires i < |a| && (Scan(a, i) == [] ==> '{' !in a[i..])
    ensures MatchEnd(a + b, i) == MatchEnd(a, i)
  {
    if Scan(a, i) == [] {
      assert a[i] in a[i..];
    } else {
      var p, c := FirstMatchAhead(a, i);
      if MatchEnd(a, i).Some? {
        var e := MatchEnd(a, i).value;
        MatchEndExact(a, i, e);
        MatchJoined(a, b, i, e);
        MatchEndExact(a + b, i, e);
      } else if MatchEnd(a + b, i).Some? {
        var e := MatchEnd(a + b, i).value;
        MatchEndExact(a + b, i, e);
        assert i != p by { MatchEndExact(a, i, c); }
        assert (a + b)[c] == '}';
        assert e <= c;
        MatchJoined(a, b, i, e);
        MatchEndExact(a, i, e);
      }
    }
  }

  /** b is what s holds from position d on. */
  ghost predicate EndsWith(s: string, d: nat, b: string) {
    |s| == d + |b| && forall k :: 0 <= k < |b| ==> s[d + k] == b[k]
  }

  lemma {:induction false} ShiftedSub(s: string, d: nat, b: string, j: nat, f: string -> string)
    requires EndsWith(s, d, b) && j <= |b|
    ensures Sub(s, d + j, f) == Sub(b, j, f)
    decreases |b| - j
  {
    hide Unit, Onward;
    if j < |b| {
      ShiftedUnit(s, d, b, j, f);
      ShiftedSub(s, d, b, Onward(b, j), f);
    }
  }

  lemma ShiftedUnit(s: string, d: nat, b: string, j: nat, f: string -> string)
    requires EndsWith(s, d, b) && j < |b|
    ensures Onward(s, d + j) == d + Onward(b, j) && Unit(s, d + j, f) == Unit(b, j, f)
  {
    var m, m' := MatchEnd(b, j), MatchEnd(s, d + j);
    if m.Some? {
      MatchEndExact(b, j, m.value);
      MatchShifted(s, d, b, j, m.value);
      MatchEndExact(s, d + j, d + m.value);
      assert s[d + j + 2..d + m.value] == b[j + 2..m.value];
    }
    if m'.Some? {
      var c := m'.value - d;
      MatchEndExact(s, d + j, m'.value);
      MatchShifted(s, d, b, j, c);
      MatchEndExact(b, j, c);
    }
  }

  lemma MatchShifted(s: string, d: nat, b: string, j: nat, c: nat)
    requires EndsWith(s, d, b)
    ensures MatchAt(b, j, c) <==> MatchAt(s, d + j, d + c)
  {
    if MatchAt(b, j, c) {
      forall k | d + j + 2 <= k < d + c ensures s[k] != '}' { assert s[d + (k - d)] == b[k - d]; }
    }
  }

  /** Two templates resolve independently of each other when the first one's last text has no open brace. */
  lemma {:induction false} SubConcat(a: string, b: string, i: nat, f: string -> string)
    requires i <= |a| && '{' !in Tail(a, i)
    ensures Sub(a + b, i, f) == Sub(a, i, f) + Sub(b, 0, f)
    decreases |a| - i
  {
    hide Unit, Onward;
    if i == |a| {
      ShiftedSub(a + b, |a|, b, 0, f);
    } else {
      SameUnitJoined(a, b, i, f);
      TailOnward(a, i);
      SubConcat(a, b, Onward(a, i), f);
    }
  }

  lemma TailOnward(s: string, i: nat)
    requires i < |s| && '{' !in Tail(s, i)
    ensures '{' !in Tail(s, Onward(s, i))
  {
    if Scan(s, i) == [] {
      assert forall x :: x in s[i + 1..] ==> x in s[i..];
    }
  }

  /** The raw contents of the holes from position i on. */
  function Holes(s: string, i: nat): set<string>
    requires i <= |s|
    decreases |s| - i
  {
    if i == |s| then {}
    else
      var m := MatchEnd(s, i);
      (if m.Some? then {s[i + 2..m.value]} else {}) + Holes(s, Onward(s, i))
  }

  /** The substitution depends only on what f makes of the template's holes. */
  lemma {:induction false} SubDependsOnHoles(s: string, i: nat, f: string -> string, g: string -> string)
    requires i <= |s|
    requires forall raw :: raw in Holes(s, i) ==> f(raw) == g(raw)
    ensures Sub(s, i, f) == Sub(s, i, g)
    decreases |s| - i
  {
    hide MatchEnd;
    if i < |s| {
      SubDependsOnHoles(s, Onward(s, i), f, g);
    }
  }
}

/** resolve_string and resolve_templates: payload values filled into the templates of an action's parameters. */
module Interpolation {
  import opened Json
  import opened Options
  import opened Template
  import opened Paths

  /** str(val), "" for None. `show` stands for Python's str on a JSON value. */
  function Fill(payload: map<string, Json>, show: Json -> string): string -> string {
    raw => var v := Nested(payload, Strip(raw)); if v.Null? then "" else show(v)
  }

  function ResolveString(template: string, payload: map<string, Json>, show: Json -> string): string {
    Sub(template, 0, Fill(payload, show))
  }

  function ResolveTemplates(params: Json, payload: map<string, Json>, show: Json -> string): Json {
    match params
    case Str(s) => Str(ResolveString(s, payload, show))
    case Obj(fields) => Obj(map k | k in fields :: ResolveTemplates(fields[k], payload, show))
    case Arr(items) => Arr(seq(|items|, i requires 0 <= i < |items| => ResolveTemplates(items[i], payload, show)))
    case _ => params
  }

  /** Same tree: equal keys, lengths and leaves, strings aside. */
  ghost predicate SameShape(a: Json, b: Json)
    decreases a
  {
    match a
    case Str(_) => b.Str?
    case Obj(fields) => b.Obj? && b.fields.Keys == fields.Keys && forall k :: k in fields ==>
        SameShape(fields[k], b.fields[k])
    case Arr(items) => b.Arr? && |b.items| == |items| && forall i :: 0 <= i < |items| ==>
        SameShape(items[i], b.items[i])
    case _ => b == a
  }

  lemma {:induction false} InterpolationKeepsShape(params: Json, payload: map<string, Json>, show: Json -> string)
    ensures SameShape(params, ResolveTemplates(params, payload, show))
  {
    match params
    case Obj(fields) =>
      forall k | k in fields { InterpolationKeepsShape(fields[k], payload, show); }
    case Arr(items) =>
      forall i | 0 <= i < |items| { InterpolationKeepsShape(items[i], payload, show); }
    case _ =>
  }

  /** The dotted paths named by the templates of a tree. */
  ghost predicate Names(params: Json, path: string)
    decreases params
  {
    match params
    case Str(s) => exists raw :: raw in Holes(s, 0) && Strip(raw) == path
    case Obj(fields) => exists k :: k in fields && Names(fields[k], path)
    case Arr(items) => exists i :: 0 <= i < |items| && Names(items[i], path)
    case _ => false
  }

  /** Payloads that agree on the paths named interpolate alike. */
  lemma {:induction false} DependsOnNamedPaths(
      params: Json, payload: map<string, Json>, payload': map<string, Json>, show: Json -> string)
    requires forall path :: Names(params, path) ==> Nested(payload, path) == Nested(payload', path)
    ensures ResolveTemplates(params, payload, show) == ResolveTemplates(params, payload', show)
  {
    match params
    case Str(s) =>
      var f, g := Fill(payload, show), Fill(payload', show);
      forall raw | raw in Holes(s, 0) ensures f(raw) == g(raw) {
        assert Names(params, Strip(raw));
      }
      SubDependsOnHoles(s, 0, f, g);
    case Obj(fields) =>
      forall k | k in fields
        ensures ResolveTemplates(fields[k], payload, show) == ResolveTemplates(fields[k], payload', show)
      {
        assert forall path :: Names(fields[k], path) ==> Names(params, path);
        DependsOnNamedPaths(fields[k], payload, payload', show);
      }
    case Arr(items) =>
      forall i | 0 <= i < |items|
        ensures ResolveTemplates(items[i], payload, show) == ResolveTemplates(items[i], payload', show)
      {
        assert forall path :: Names(items[i], path) ==> Names(params, path);
        DependsOnNamedPaths(items[i], payload, payload', show);
      }
    case _ =>
  }

  /** resolve(a + b) = resolve(a) + resolve(b) when a's last literal piece has no open brace. */
  lemma ResolveConcat(a: string, b: string, payload: map<string, Json>, show: Json -> string)
    requires var ps := Pieces(a); '{' !in ps[|ps| - 1].text
    ensures ResolveString(a + b, payload, show) == ResolveString(a, payload, show) + ResolveString(b, payload, show)
  {
    ScanInOrder(a, 0);
    TailIsLastPiece(a, 0);
    SubConcat(a, b, 0, Fill(payload, show));
  }

  /** The result is the template's texts with the holes filled: filled-in values are never scanned again. */
  lemma ResolveRendersPieces(s: string, payload: map<string, Json>, show: Json -> string)
    ensures ResolveString(s, payload, show) == Render(Pieces(s), Fill(payload, show))
    ensures Render(Pieces(s), Braces) == s
  {
    SubRenders(s, 0, Fill(payload, show));
    SubRenders(s, 0, Braces);
    PiecesPrintBack(s, 0);
  }

  // ---- What stands where in an interpolated tree ----

  /** A way into a tree: a key of a dictionary or an index of a list. */
  datatype Turn = Field(key: string) | Item(index: nat)

  /** The subtree a way leads to. */
  function Lookup(j: Json, way: seq<Turn>): Option<Json>
    decreases |way|
  {
    if way == [] then Some(j)
    else
      match way[0]
      case Field(k) => if j.Obj? && k in j.fields then Lookup(j.fields[k], way[1..]) else None
      case Item(i) => if j.Arr? && i < |j.items| then Lookup(j.items[i], way[1..]) else None
  }

  function Concat(parts: seq<string>): string {
    if parts == [] then "" else parts[0] + Concat(parts[1..])
  }

  /** The text a template becomes: its literal pieces, and for each hole what the payload has at the stripped
      dotted path, shown as text, or nothing where it has no value. */
  ghost predicate Filled(s: string, payload: map<string, Json>, show: Json -> string, parts: seq<string>) {
    var ps := Pieces(s);
    && |parts| == |ps|
    && forall i :: 0 <= i < |ps| ==>
         && (ps[i].Text? ==> parts[i] == ps[i].text)
         && (ps[i].Hole? ==> parts[i] == HoleText(payload, show, ps[i].raw))
  }

  function HoleText(payload: map<string, Json>, show: Json -> string, raw: string): string {
    var v := At(Obj(payload), Split(Strip(raw)));
    if v == Null then "" else show(v)
  }

  lemma {:induction false} RenderedParts(pieces: seq<Piece>, f: string -> string) returns (parts: seq<string>)
    ensures |parts| == |pieces| && Render(pieces, f) == Concat(parts)
    ensures forall i :: 0 <= i < |pieces| ==>
              parts[i] == match pieces[i] case Text(t) => t case Hole(raw) => f(raw)
  {
    if pieces == [] {
      parts := [];
    } else {
      var rest := RenderedParts(pieces[1..], f);
      parts := [match pieces[0] case Text(t) => t case Hole(raw) => f(raw)] + rest;
      assert parts[1..] == rest;
    }
  }

  /** A resolved string is made of the template's pieces with the holes filled. */
  lemma ResolveFills(s: string, payload: map<string, Json>, show: Json -> string) returns (parts: seq<string>)
    ensures Filled(s, payload, show, parts) && ResolveString(s, payload, show) == Concat(parts)
  {
    hide Pieces, Render, ResolveString, Concat, At, Split, Strip, Fill;
    ResolveRendersPieces(s, payload, show);
    var ps := Pieces(s);
    parts := RenderedParts(ps, Fill(payload, show));
    forall i | 0 <= i < |ps| && ps[i].Hole? ensures parts[i] == HoleText(payload, show, ps[i].raw) {
      FillIsHoleText(payload, show, ps[i].raw);
    }
  }

  lemma FillIsHoleText(payload: map<string, Json>, show: Json -> string, raw: string)
    ensures Fill(payload, show)(raw) == HoleText(payload, show, raw)
  {
    StripTwice(raw);
    hide At, Split, Strip;
    assert Nested(payload, Strip(raw)) == At(Obj(payload), Split(Strip(raw)));
  }

  /** What an interpolated tree has where the parameters have `j`: the filled text for a string, the same
      keys or length for a dictionary or a list, and any other leaf unchanged. */
  ghost predicate Becomes(j: Json, payload: map<string, Json>, show: Json -> string, out: Json) {
    match j
    case Str(s) => exists parts :: Filled(s, payload, show, parts) && out == Str(Concat(parts))
    case Obj(fields) => out.Obj? && out.fields.Keys == fields.Keys
    case Arr(items) => out.Arr? && |out.items| == |items|
    case _ => out == j
  }

  /** Wherever a way leads in the parameters, it leads in the interpolated tree to what the subtree becomes; and
      it leads nowhere else. */
  lemma {:induction false} InterpolatedAt(params: Json, payload: map<string, Json>, show: Json -> string,
                                          way: seq<Turn>)
    ensures var j, out := Lookup(params, way), Lookup(ResolveTemplates(params, payload, show), way);
            && (j.None? <==> out.None?)
            && (j.Some? ==> Becomes(j.value, payload, show, out.value))
    decreases |way|
  {
    if way == [] {
      match params
      case Str(s) => var parts := ResolveFills(s, payload, show);
      case _ =>
    } else {
      match params
      case Obj(fields) =>
        if way[0].Field? && way[0].key in fields {
          InterpolatedAt(fields[way[0].key], payload, show, way[1..]);
        }
      case Arr(items) =>
        if way[0].Item? && way[0].index < |items| {
          InterpolatedAt(items[way[0].index], payload, show, way[1..]);
        }
      case _ =>
    }
  }

  lemma {:induction false} CutHoles(s: string, i: nat, raw: string)
    requires i <= |s| && InOrder(Scan(s, i), i, |s|)
    ensures raw in Holes(s, i) <==> Hole(raw) in Cut(s, Scan(s, i), i)
    decreases |s| - i
  {
    hide InOrder, MatchEnd;
    if i < |s| {
      var j := Onward(s, i);
      ScanInOrder(s, j);
      CutHoles(s, j, raw);
      CutOnward(s, i, raw);
    } else {
      assert Cut(s, Scan(s, i), i) == [Text(s[i..])];
    }
  }

  /** Past one position the cut loses no hole but the one that may stand there. */
  lemma CutOnward(s: string, i: nat, raw: string)
    requires i < |s| && InOrder(Scan(s, i), i, |s|) && InOrder(Scan(s, Onward(s, i)), Onward(s, i), |s|)
    ensures var m := MatchEnd(s, i);
            Hole(raw) in Cut(s, Scan(s, i), i)
            <==> (m.Some? && raw == s[i + 2..m.value]) || Hole(raw) in Cut(s, Scan(s, Onward(s, i)), Onward(s, i))
  {
    hide Cut, FirstClose;
    var m, spans, j := MatchEnd(s, i), Scan(s, i), Onward(s, i);
    if m.Some? {
      assert spans[0] == Span(i, m.value) && spans[1..] == Scan(s, j);
      CutHasHole(s, spans, i, raw);
    } else if spans != [] {
      CutHasHole(s, spans, i, raw);
      CutHasHole(s, spans, j, raw);
    } else {
      CutWhole(s, i, raw);
      CutWhole(s, j, raw);
    }
  }

  /** The holes of a cut are its first span's and those after it. */
  lemma CutHasHole(s: string, spans: seq<Span>, i: nat, raw: string)
    requires spans != [] && InOrder(spans, i, |s|)
    ensures var m := spans[0];
            && i <= m.start <= m.start + 2 <= m.close && m.close + 2 <= |s| && InOrder(spans[1..], m.close + 2, |s|)
            && (Hole(raw) in Cut(s, spans, i) <==>
                raw == s[m.start + 2..m.close] || Hole(raw) in Cut(s, spans[1..], m.close + 2))
  {
    InOrderBounds(spans, i, |s|);
    var m := spans[0];
    InOrderBounds(spans[1..], m.close + 2, |s|);
    var rest := Cut(s, spans[1..], m.close + 2);
    assert Cut(s, spans, i) == [Text(s[i..m.start]), Hole(s[m.start + 2..m.close])] + rest;
  }

  lemma CutWhole(s: string, i: nat, raw: string)
    requires i <= |s|
    ensures Hole(raw) !in Cut(s, [], i)
  {
  }

  /** The paths named in a tree are the stripped contents of the holes of its strings. */
  lemma {:induction false} NamesFound(params: Json, path: string) returns (way: seq<Turn>, s: string, raw: string)
    requires Names(params, path)
    ensures Lookup(params, way) == Some(Str(s)) && Hole(raw) in Pieces(s) && Strip(raw) == path
    decreases params
  {
    match params
    case Str(t) =>
      way, s := [], t;
      raw :| raw in Holes(s, 0) && Strip(raw) == path;
      HoleIsPiece(s, raw);
    case Obj(fields) =>
      var k :| k in fields && Names(fields[k], path);
      var rest;
      rest, s, raw := NamesFound(fields[k], path);
      way := [Field(k)] + rest;
      assert way[1..] == rest;
    case Arr(items) =>
      var i: nat :| i < |items| && Names(items[i], path);
      var rest;
      rest, s, raw := NamesFound(items[i], path);
      way := [Item(i)] + rest;
      assert way[1..] == rest;
  }

  lemma HoleIsPiece(s: string, raw: string)
    ensures raw in Holes(s, 0) <==> Hole(raw) in Pieces(s)
  {
    ScanInOrder(s, 0);
    CutHoles(s, 0, raw);
  }

  lemma {:induction false} NamedThere(params: Json, way: seq<Turn>, s: string, raw: string)
    requires Lookup(params, way) == Some(Str(s)) && Hole(raw) in Pieces(s)
    ensures Names(params, Strip(raw))
    decreases |way|
  {
    hide Strip;
    if way == [] {
      HoleIsPiece(s, raw);
    } else {
      match way[0]
      case Field(k) => NamedThere(params.fields[k], way[1..], s, raw);
      case Item(i) => NamedThere(params.items[i], way[1..], s, raw);
    }
  }

  /** `out` is the tree `params` with every template filled from the payload. */
  ghost predicate Interpolates(params: Json, payload: map<string, Json>, show: Json -> string, out: Json) {
    forall way :: BecomesAt(params, payload, show, out, way)
  }

  ghost predicate BecomesAt(params: Json, payload: map<string, Json>, show: Json -> string, out: Json, way: seq<Turn>) {
    var j, x := Lookup(params, way), Lookup(out, way);
    (j.None? <==> x.None?) && (j.Some? ==> Becomes(j.value, payload, show, x.value))
  }

  lemma ResolveInterpolates(params: Json, payload: map<string, Json>, show: Json -> string)
    ensures Interpolates(params, payload, show, ResolveTemplates(params, payload, show))
  {
    forall way ensures BecomesAt(params, payload, show, ResolveTemplates(params, payload, show), way) {
      InterpolatedAt(params, payload, show, way);
    }
  }

  /** Nothing changes in a template without a match. */
  lemma NothingToResolve(s: string, payload: map<string, Json>, show: Json -> string)
    requires forall p, c :: !MatchAt(s, p, c)
    ensures ResolveString(s, payload, show) == s
  {
    NoHoles(s, 0);
    SubDependsOnHoles(s, 0, Fill(payload, show), Braces);
    PiecesPrintBack(s, 0);
  }

  lemma {:induction false} NoHoles(s: string, i: nat)
    requires i <= |s| && forall p, c :: !MatchAt(s, p, c)
    ensures Holes(s, i) == {}
    decreases |s| - i
  {
    if i < |s| {
      if MatchEnd(s, i).Some? { MatchEndExact(s, i, MatchEnd(s, i).value); }
      NoHoles(s, Onward(s, i));
    }
  }
}

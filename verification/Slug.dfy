/** AuthService._generate_slug: a chain of string and regular-expression passes over a business name. */
module Slug {

  /** What the passes take from the Unicode tables: \w, \s and str.lower; `cased` holds the characters that
      lower changes. */
  datatype Unicode = Unicode(word: char -> bool, space: char -> bool, cased: char -> bool, lower: string -> string)

  /** The facts about those tables that the results rest on. */
  ghost predicate Sane(u: Unicode) {
    && !u.word('-') && !u.space('-') && !u.cased('-')
    && u.word('_') && !u.space('_')
    && (forall c :: u.space(c) ==> !u.word(c))
    && (forall s :: Uncased(u, u.lower(s)))
    && (forall s :: Uncased(u, s) ==> u.lower(s) == s)
  }

  ghost predicate Uncased(u: Unicode, s: string) {
    forall i :: 0 <= i < |s| ==> !u.cased(s[i])
  }

  function LowerAscii(s: string): (r: string)
    ensures |r| == |s| && forall i :: 0 <= i < |s| ==> r[i] == if 'A' <= s[i] <= 'Z' then s[i] - 'A' + 'a' else s[i]
  {
    seq(|s|, i requires 0 <= i < |s| => if 'A' <= s[i] <= 'Z' then s[i] - 'A' + 'a' else s[i])
  }

  /** The tables cut down to ASCII. */
  function Ascii(): Unicode {
    Unicode(c => 'a' <= c <= 'z' || 'A' <= c <= 'Z' || '0' <= c <= '9' || c == '_',
            c => '\t' <= c <= '\r' || '\U{1C}' <= c <= ' ',
            c => 'A' <= c <= 'Z',
            LowerAscii)
  }

  lemma AsciiIsSane()
    ensures Sane(Ascii())
  {
    var u := Ascii();
    forall s | Uncased(u, s) ensures u.lower(s) == s {
      assert forall i :: 0 <= i < |s| ==> !u.cased(s[i]);
    }
  }

  function Kept(u: Unicode): char -> bool { c => u.word(c) || u.space(c) || c == '-' }

  function Blank(u: Unicode): char -> bool { c => u.space(c) || c == '_' }

  function Hyphen(): char -> bool { c => c == '-' }

  predicate Plain(u: Unicode, c: char) { u.word(c) && c != '_' }

  predicate Separator(u: Unicode, c: char) { u.space(c) || c == '_' || c == '-' }

  // ---- The library passes ----

  /** re.sub("[^...]", "", s): keeps the characters of the class. */
  function Keep(s: string, p: char -> bool): string {
    if s == [] then [] else (if p(s[0]) then [s[0]] else []) + Keep(s[1..], p)
  }

  /** The end of the greedy run of the class at the front of s. */
  function RunEnd(s: string, p: char -> bool): (e: nat)
    ensures e <= |s| && (forall i :: 0 <= i < e ==> p(s[i])) && (e < |s| ==> !p(s[e]))
  {
    if s == [] || !p(s[0]) then 0 else 1 + RunEnd(s[1..], p)
  }

  /** re.sub("[...]+", "-", s): every maximal run of the class becomes one hyphen. */
  function Squeeze(s: string, p: char -> bool): string
    decreases |s|
  {
    if s == [] then []
    else if p(s[0]) then "-" + Squeeze(s[RunEnd(s, p)..], p)
    else [s[0]] + Squeeze(s[1..], p)
  }

  function LStrip(s: string, p: char -> bool): string {
    if s != [] && p(s[0]) then LStrip(s[1..], p) else s
  }

  function RStrip(s: string, p: char -> bool): string {
    if s != [] && p(s[|s| - 1]) then RStrip(s[..|s| - 1], p) else s
  }

  function Strip(s: string, p: char -> bool): string { RStrip(LStrip(s, p), p) }

  // ---- The one-pass normaliser ----

  function Emit(c: char, hyphen: bool): string { if hyphen then ['-', c] else [c] }

  /** Reads s once: plain characters are copied, and a gap between two of them becomes one hyphen when it held
      a separator; everything else is dropped. */
  function OnePass(u: Unicode, s: string, started: bool, gap: bool): string {
    if s == [] then []
    else if Plain(u, s[0]) then Emit(s[0], started && gap) + OnePass(u, s[1..], true, false)
    else OnePass(u, s[1..], started, gap || Separator(u, s[0]))
  }

  function Normal(u: Unicode, s: string): string { OnePass(u, s, false, false) }

  /** Nothing but plain characters and single hyphens between them. */
  ghost predicate Clean(u: Unicode, s: string) {
    && (forall i :: 0 <= i < |s| ==> Plain(u, s[i]) || s[i] == '-')
    && (forall i :: 0 <= i < |s| - 1 ==> s[i] != '-' || s[i + 1] != '-')
    && (s != [] ==> s[0] != '-' && s[|s| - 1] != '-')
  }

  // ---- No pass changes what the normaliser sees ----

  lemma {:induction false} GapUnstarted(u: Unicode, s: string)
    ensures OnePass(u, s, false, true) == OnePass(u, s, false, false)
  {
    if s != [] && !Plain(u, s[0]) { GapUnstarted(u, s[1..]); }
  }

  lemma {:induction false} KeepSeen(u: Unicode, s: string, started: bool, gap: bool)
    requires Sane(u)
    ensures OnePass(u, Keep(s, Kept(u)), started, gap) == OnePass(u, s, started, gap)
  {
    if s != [] {
      var rest := Keep(s[1..], Kept(u));
      assert ([s[0]] + rest)[1..] == rest;
      assert [] + rest == rest;
      KeepSeen(u, s[1..], true, false);
      KeepSeen(u, s[1..], started, gap || Separator(u, s[0]));
    }
  }

  /** A run of separators is as good as one. */
  lemma {:induction false} RunSeen(u: Unicode, s: string, e: nat, started: bool, gap: bool)
    requires Sane(u) && 0 < e <= |s| && forall i :: 0 <= i < e ==> Separator(u, s[i])
    ensures OnePass(u, s, started, gap) == OnePass(u, s[e..], started, true)
  {
    if e > 1 {
      RunSeen(u, s[1..], e - 1, started, true);
      assert s[1..][e - 1..] == s[e..];
    }
  }

  lemma {:induction false} SqueezeSeen(u: Unicode, s: string, p: char -> bool, started: bool, gap: bool)
    requires Sane(u) && forall c :: p(c) ==> Separator(u, c)
    ensures OnePass(u, Squeeze(s, p), started, gap) == OnePass(u, s, started, gap)
    decreases |s|
  {
    if s == [] {
    } else if p(s[0]) {
      var e := RunEnd(s, p);
      var rest := Squeeze(s[e..], p);
      assert ("-" + rest)[1..] == rest;
      RunSeen(u, s, e, started, gap);
      SqueezeSeen(u, s[e..], p, started, true);
    } else {
      var rest := Squeeze(s[1..], p);
      assert ([s[0]] + rest)[1..] == rest;
      SqueezeSeen(u, s[1..], p, true, false);
      SqueezeSeen(u, s[1..], p, started, gap || Separator(u, s[0]));
    }
  }

  lemma {:induction false} LStripSeen(u: Unicode, s: string, p: char -> bool)
    requires Sane(u) && forall c :: p(c) ==> Separator(u, c)
    ensures Normal(u, LStrip(s, p)) == Normal(u, s)
  {
    if s != [] && p(s[0]) {
      LStripSeen(u, s[1..], p);
      GapUnstarted(u, s[1..]);
    }
  }

  lemma {:induction false} TrailingSeen(u: Unicode, s: string, c: char, started: bool, gap: bool)
    requires Sane(u) && Separator(u, c)
    ensures OnePass(u, s + [c], started, gap) == OnePass(u, s, started, gap)
  {
    if s == [] {
      assert s + [c] == [c];
    } else {
      assert (s + [c])[1..] == s[1..] + [c];
      TrailingSeen(u, s[1..], c, true, false);
      TrailingSeen(u, s[1..], c, started, gap || Separator(u, s[0]));
    }
  }

  lemma {:induction false} RStripSeen(u: Unicode, s: string, p: char -> bool)
    requires Sane(u) && forall c :: p(c) ==> Separator(u, c)
    ensures Normal(u, RStrip(s, p)) == Normal(u, s)
  {
    if s != [] && p(s[|s| - 1]) {
      var n := |s| - 1;
      assert s == s[..n] + [s[n]];
      TrailingSeen(u, s[..n], s[n], false, false);
      RStripSeen(u, s[..n], p);
    }
  }

  // ---- The last pass leaves a clean string ----

  lemma {:induction false} KeepOnly(s: string, p: char -> bool)
    ensures forall i :: 0 <= i < |Keep(s, p)| ==> p(Keep(s, p)[i])
  {
    if s != [] { KeepOnly(s[1..], p); }
  }

  lemma {:induction false} SqueezeOnly(s: string, p: char -> bool, q: char -> bool)
    requires forall i :: 0 <= i < |s| ==> p(s[i]) || q(s[i])
    ensures forall i :: 0 <= i < |Squeeze(s, p)| ==>
        Squeeze(s, p)[i] == '-' || (q(Squeeze(s, p)[i]) && !p(Squeeze(s, p)[i]))
    decreases |s|
  {
    if s == [] {
    } else if p(s[0]) {
      SqueezeOnly(s[RunEnd(s, p)..], p, q);
    } else {
      SqueezeOnly(s[1..], p, q);
    }
  }

  lemma {:induction false} HyphensApart(s: string)
    ensures var r := Squeeze(s, Hyphen());
            && (forall i :: 0 <= i < |r| - 1 ==> r[i] != '-' || r[i + 1] != '-')
            && (r != [] ==> s != [] && (r[0] == '-' ==> s[0] == '-'))
    decreases |s|
  {
    if s == [] {
    } else if s[0] == '-' {
      HyphensApart(s[RunEnd(s, Hyphen())..]);
    } else {
      HyphensApart(s[1..]);
    }
  }

  lemma {:induction false} LStripPart(s: string, p: char -> bool)
    ensures exists k :: 0 <= k <= |s| && LStrip(s, p) == s[k..] && (k < |s| ==> !p(s[k]))
  {
    if s != [] && p(s[0]) {
      LStripPart(s[1..], p);
      var k :| 0 <= k <= |s[1..]| && LStrip(s[1..], p) == s[1..][k..] && (k < |s[1..]| ==> !p(s[1..][k]));
      assert LStrip(s, p) == s[k + 1..];
    } else {
      assert LStrip(s, p) == s[0..];
    }
  }

  lemma {:induction false} RStripPart(s: string, p: char -> bool)
    ensures exists k :: 0 <= k <= |s| && RStrip(s, p) == s[..k] && (k > 0 ==> !p(s[k - 1]))
  {
    if s != [] && p(s[|s| - 1]) {
      var t := s[..|s| - 1];
      RStripPart(t, p);
      var k :| 0 <= k <= |t| && RStrip(t, p) == t[..k] && (k > 0 ==> !p(t[k - 1]));
      assert RStrip(s, p) == s[..k];
    } else {
      assert RStrip(s, p) == s[..|s|];
    }
  }

  lemma StripCleans(u: Unicode, s: string)
    requires forall i :: 0 <= i < |s| ==> Plain(u, s[i]) || s[i] == '-'
    requires forall i :: 0 <= i < |s| - 1 ==> s[i] != '-' || s[i + 1] != '-'
    ensures Clean(u, Strip(s, Hyphen()))
  {
    LStripPart(s, Hyphen());
    var l := LStrip(s, Hyphen());
    RStripPart(l, Hyphen());
  }

  /** The normaliser leaves a clean string as it is. */
  lemma {:induction false} CleanFixed(u: Unicode, s: string, started: bool)
    requires Sane(u) && Clean(u, s)
    ensures OnePass(u, s, started, false) == s
    ensures s != [] ==> OnePass(u, s, true, true) == "-" + s
    decreases |s|
  {
    if s == [] {
    } else if |s| == 1 {
      assert s == [s[0]];
    } else if s[1] == '-' {
      assert |s| > 2 && s[1..][1..] == s[2..];
      CleanFixed(u, s[2..], true);
      assert OnePass(u, s[1..], true, false) == OnePass(u, s[2..], true, true) == "-" + s[2..] == s[1..];
      Emitted(u, s, started);
    } else {
      CleanFixed(u, s[1..], true);
      Emitted(u, s, started);
    }
  }

  lemma Emitted(u: Unicode, s: string, started: bool)
    requires s != [] && Plain(u, s[0]) && OnePass(u, s[1..], true, false) == s[1..]
    ensures OnePass(u, s, started, false) == s && OnePass(u, s, true, true) == "-" + s
  {
    assert s == [s[0]] + s[1..];
    assert ['-', s[0]] + s[1..] == "-" + s;
  }

  /** The passes before the random suffix, in the order the code runs them. */
  function Pipeline(u: Unicode, name: string): string {
    var trimmed := Strip(u.lower(name), u.space);
    var kept := Keep(trimmed, Kept(u));
    var hyphened := Squeeze(kept, Blank(u));
    Strip(Squeeze(hyphened, Hyphen()), Hyphen())
  }

  lemma PipelineClean(u: Unicode, name: string)
    requires Sane(u)
    ensures Clean(u, Pipeline(u, name))
  {
    var trimmed := Strip(u.lower(name), u.space);
    var kept := Keep(trimmed, Kept(u));
    var hyphened := Squeeze(kept, Blank(u));
    KeepOnly(trimmed, Kept(u));
    SqueezeOnly(kept, Blank(u), Kept(u));
    SqueezeOnly(hyphened, Hyphen(), c => Plain(u, c));
    HyphensApart(hyphened);
    StripCleans(u, Squeeze(hyphened, Hyphen()));
  }

  lemma PipelineSeen(u: Unicode, name: string)
    requires Sane(u)
    ensures Normal(u, Pipeline(u, name)) == Normal(u, u.lower(name))
  {
    var lowered := u.lower(name);
    var trimmed := Strip(lowered, u.space);
    var kept := Keep(trimmed, Kept(u));
    var hyphened := Squeeze(kept, Blank(u));
    var single := Squeeze(hyphened, Hyphen());
    LStripSeen(u, lowered, u.space);
    RStripSeen(u, LStrip(lowered, u.space), u.space);
    KeepSeen(u, trimmed, false, false);
    SqueezeSeen(u, kept, Blank(u), false, false);
    SqueezeSeen(u, hyphened, Hyphen(), false, false);
    LStripSeen(u, single, Hyphen());
    RStripSeen(u, LStrip(single, Hyphen()), Hyphen());
  }

  /** The five passes compute the one-pass normal form of the lowered name. */
  lemma PipelineIsOnePass(u: Unicode, name: string)
    requires Sane(u)
    ensures Pipeline(u, name) == Normal(u, u.lower(name))
  {
    PipelineSeen(u, name);
    PipelineClean(u, name);
    CleanFixed(u, Pipeline(u, name), false);
  }

  // ---- Consequences ----

  lemma {:induction false} OnePassUncased(u: Unicode, s: string, started: bool, gap: bool)
    requires Sane(u) && Uncased(u, s)
    ensures Uncased(u, OnePass(u, s, started, gap))
  {
    if s != [] {
      assert Uncased(u, s[1..]);
      assert !u.cased(s[0]);
      OnePassUncased(u, s[1..], true, false);
      OnePassUncased(u, s[1..], started, gap || Separator(u, s[0]));
      assert Uncased(u, Emit(s[0], started && gap));
    }
  }

  /** A slug is its own slug. */
  lemma PipelineIdempotent(u: Unicode, name: string)
    requires Sane(u)
    ensures Pipeline(u, Pipeline(u, name)) == Pipeline(u, name)
  {
    var slug := Pipeline(u, name);
    PipelineIsOnePass(u, name);
    OnePassUncased(u, u.lower(name), false, false);
    PipelineIsOnePass(u, slug);
    PipelineClean(u, name);
    CleanFixed(u, slug, false);
  }

  /** The plain characters of s, in order. */
  function Plains(u: Unicode, s: string): string {
    if s == [] then [] else (if Plain(u, s[0]) then [s[0]] else []) + Plains(u, s[1..])
  }

  lemma PlainsEmit(u: Unicode, c: char, hyphen: bool, rest: string)
    requires Sane(u) && Plain(u, c)
    ensures Plains(u, Emit(c, hyphen) + rest) == [c] + Plains(u, rest)
  {
    assert ([c] + rest)[1..] == rest;
    if hyphen {
      assert (['-', c] + rest)[1..] == [c] + rest;
      assert [] + Plains(u, [c] + rest) == Plains(u, [c] + rest);
    }
  }

  lemma {:induction false} OnePassKeepsPlains(u: Unicode, s: string, started: bool, gap: bool)
    requires Sane(u)
    ensures Plains(u, OnePass(u, s, started, gap)) == Plains(u, s)
  {
    if s == [] {
    } else if Plain(u, s[0]) {
      OnePassKeepsPlains(u, s[1..], true, false);
      PlainsEmit(u, s[0], started && gap, OnePass(u, s[1..], true, false));
    } else {
      OnePassKeepsPlains(u, s[1..], started, gap || Separator(u, s[0]));
    }
  }

  /** The slug carries the name's plain characters, all of them and in order. */
  lemma PipelineKeepsPlains(u: Unicode, name: string)
    requires Sane(u)
    ensures Plains(u, Pipeline(u, name)) == Plains(u, u.lower(name))
  {
    PipelineIsOnePass(u, name);
    OnePassKeepsPlains(u, u.lower(name), false, false);
  }

  lemma {:induction false} NoPlains(u: Unicode, s: string)
    ensures Plains(u, s) == [] <==> forall i :: 0 <= i < |s| ==> !Plain(u, s[i])
  {
    if s != [] {
      NoPlains(u, s[1..]);
      assert forall i :: 0 < i < |s| ==> s[i] == s[1..][i - 1];
    }
  }

  /** _generate_slug with its random suffix passed in. The slug starts with a hyphen exactly when the name has
      no plain character. */
  method GenerateSlug(u: Unicode, name: string, suffix: string) returns (slug: string)
    requires Sane(u)
    ensures slug == Normal(u, u.lower(name)) + "-" + suffix
    ensures slug[0] == '-' <==> forall i :: 0 <= i < |u.lower(name)| ==> !Plain(u, u.lower(name)[i])
  {
    slug := Strip(u.lower(name), u.space);
    slug := Keep(slug, Kept(u));
    slug := Squeeze(slug, Blank(u));
    slug := Strip(Squeeze(slug, Hyphen()), Hyphen());
    PipelineIsOnePass(u, name);
    PipelineClean(u, name);
    PipelineKeepsPlains(u, name);
    NoPlains(u, u.lower(name));
    NoPlains(u, slug);
    slug := slug + "-" + suffix;
  }
}

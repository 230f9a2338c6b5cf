/** Dotted paths into JSON values: get_nested_value. */
module Paths {
  import opened Json

  /** str.isspace. */
  predicate IsSpace(c: char) {
    || '\t' <= c <= '\r' || '\U{1C}' <= c <= ' ' || c == '\U{85}' || c == '\U{A0}' || c == '\U{1680}'
    || '\U{2000}' <= c <= '\U{200A}' || c == '\U{2028}' || c == '\U{2029}' || c == '\U{202F}' || c == '\U{205F}'
    || c == '\U{3000}'
  }

  /** str.strip(). */
  function Strip(s: string): (r: string)
    ensures |r| <= |s| && (r != "" ==> !IsSpace(r[0]) && !IsSpace(r[|r| - 1]))
    decreases |s|
  {
    if s == "" then ""
    else if IsSpace(s[0]) then Strip(s[1..])
    else if IsSpace(s[|s| - 1]) then Strip(s[..|s| - 1])
    else s
  }

  /** Stripping takes spaces off both ends and keeps the rest: what stays starts and ends with no space. */
  lemma {:induction false} StripKeeps(s: string) returns (i: nat, j: nat)
    ensures i <= j <= |s| && Strip(s) == s[i..j]
    ensures forall k :: 0 <= k < i || j <= k < |s| ==> IsSpace(s[k])
    ensures i < j ==> !IsSpace(s[i]) && !IsSpace(s[j - 1])
    decreases |s|
  {
    hide IsSpace;
    if s == "" {
      i, j := 0, 0;
    } else if IsSpace(s[0]) {
      i, j := StripKeeps(s[1..]);
      i, j := i + 1, j + 1;
      assert forall k :: 0 < k < |s| ==> s[k] == s[1..][k - 1];
    } else if IsSpace(s[|s| - 1]) {
      i, j := StripKeeps(s[..|s| - 1]);
    } else {
      i, j := 0, |s|;
    }
  }

  lemma StripTwice(s: string)
    ensures Strip(Strip(s)) == Strip(s)
  {
    var r := Strip(s);
    assert r != "" ==> !IsSpace(r[0]) && !IsSpace(r[|r| - 1]);
  }

  /** s.split("."). */
  function Split(s: string): (parts: seq<string>)
    ensures parts != []
  {
    if s == "" then [""]
    else
      var rest := Split(s[1..]);
      if s[0] == '.' then [""] + rest else [[s[0]] + rest[0]] + rest[1..]
  }

  function Join(parts: seq<string>): string {
    if parts == [] then ""
    else if |parts| == 1 then parts[0]
    else parts[0] + (['.'] + Join(parts[1..]))
  }

  predicate DotFree(parts: seq<string>) {
    forall i :: 0 <= i < |parts| ==> '.' !in parts[i]
  }

  lemma JoinEmptyFirst(parts: seq<string>)
    requires parts != []
    ensures Join([""] + parts) == ['.'] + Join(parts)
  {
    assert ([""] + parts)[1..] == parts;
  }

  lemma JoinLongerFirst(c: char, parts: seq<string>)
    requires parts != []
    ensures Join([[c] + parts[0]] + parts[1..]) == [c] + Join(parts)
  {
    var grown := [[c] + parts[0]] + parts[1..];
    assert grown[1..] == parts[1..];
    if |parts| > 1 { Associate([c], parts[0], ['.'] + Join(parts[1..])); }
  }

  lemma Associate(x: string, y: string, z: string)
    ensures (x + y) + z == x + (y + z)
  {
  }

  /** Splitting is the inverse of joining with dots. */
  lemma {:induction false} JoinSplit(s: string)
    ensures Join(Split(s)) == s && DotFree(Split(s))
  {
    hide Join;
    if s != "" {
      JoinSplit(s[1..]);
      if s[0] == '.' { JoinEmptyFirst(Split(s[1..])); } else { JoinLongerFirst(s[0], Split(s[1..])); }
      assert s == [s[0]] + s[1..];
    } else {
      assert Join([""]) == "" by { JoinOne(""); }
    }
  }

  lemma JoinOne(s: string)
    ensures Join([s]) == s
  {
  }

  lemma {:induction false} SplitJoin(parts: seq<string>)
    requires parts != [] && DotFree(parts)
    ensures Split(Join(parts)) == parts
    decreases |parts|, |parts[0]|
  {
    if parts[0] != "" {
      var c, parts' := parts[0][0], [parts[0][1..]] + parts[1..];
      assert [c] + parts'[0] == parts[0] && [[c] + parts'[0]] + parts'[1..] == parts;
      JoinLongerFirst(c, parts');
      assert c in parts[0];
      SplitJoin(parts');
      assert ([c] + Join(parts'))[1..] == Join(parts');
    } else if |parts| > 1 {
      assert [""] + parts[1..] == parts;
      JoinEmptyFirst(parts[1..]);
      SplitJoin(parts[1..]);
      assert (['.'] + Join(parts[1..]))[1..] == Join(parts[1..]);
    } else {
      JoinOne(parts[0]);
    }
  }

  /** val.get(part), or None when val is no dictionary. */
  function Get(v: Json, part: string): Json {
    if v.Obj? && part in v.fields then v.fields[part] else Null
  }

  /** The value at a path, Null (None) when some part of it is missing. */
  function At(v: Json, parts: seq<string>): Json
    decreases |parts|
  {
    if parts == [] then v else At(Get(v, parts[0]), parts[1..])
  }

  function Nested(data: map<string, Json>, path: string): Json {
    At(Obj(data), Split(Strip(path)))
  }

  lemma {:induction false} AtNull(parts: seq<string>)
    ensures At(Null, parts) == Null
  {
    if parts != [] { AtNull(parts[1..]); }
  }

  /** A path continued is the value at the path, continued. */
  lemma {:induction false} AtConcat(v: Json, p: seq<string>, q: seq<string>)
    ensures At(v, p + q) == At(At(v, p), q)
    decreases |p|
  {
    if p == [] {
      assert p + q == q;
    } else {
      assert (p + q)[1..] == p[1..] + q;
      AtConcat(Get(v, p[0]), p[1..], q);
    }
  }

  /** v with the value at `parts` replaced, dictionaries made where they are missing. */
  function Put(v: Json, parts: seq<string>, x: Json): Json
    decreases |parts|
  {
    if parts == [] then x
    else Obj((if v.Obj? then v.fields else map[])[parts[0] := Put(Get(v, parts[0]), parts[1..], x)])
  }

  /** What is put at a path is found there, and paths that part from it are not disturbed. */
  lemma {:induction false} PutAt(v: Json, p: seq<string>, x: Json)
    ensures At(Put(v, p, x), p) == x
    decreases |p|
  {
    if p != [] { PutAt(Get(v, p[0]), p[1..], x); }
  }

  lemma {:induction false} PutElsewhere(v: Json, p: seq<string>, x: Json, q: seq<string>, k: nat)
    requires k < |p| && k < |q| && p[k] != q[k]
    ensures At(Put(v, p, x), q) == At(v, q)
    decreases |p|
  {
    if p[0] == q[0] {
      PutElsewhere(Get(v, p[0]), p[1..], x, q[1..], k - 1);
    } else if !v.Obj? {
      AtNull(q[1..]);
    }
  }

  predicate Spaces(s: string) { forall k :: 0 <= k < |s| ==> IsSpace(s[k]) }

  /** Spaces around a text are dropped, and nothing else. */
  lemma StripPadded(x: string, s: string, y: string)
    requires Spaces(x) && Spaces(y) && s != "" && !IsSpace(s[0]) && !IsSpace(s[|s| - 1])
    ensures Strip(x + s + y) == s
  {
    hide IsSpace, Strip;
    var t := x + s + y;
    var i, j := StripKeeps(t);
    assert t[|x|] == s[0] && t[|x| + |s| - 1] == s[|s| - 1];
    assert forall k :: 0 <= k < |x| ==> t[k] == x[k];
    assert forall k :: |x| + |s| <= k < |t| ==> t[k] == y[k - |x| - |s|];
    assert i == |x| && j == |x| + |s|;
    assert t[i..j] == s;
  }

  /** A path written with spaces around it and dots between its parts leads where the parts lead. */
  lemma NestedIsAt(data: map<string, Json>, x: string, parts: seq<string>, y: string)
    requires parts != [] && DotFree(parts) && Spaces(x) && Spaces(y)
    requires var s := Join(parts); s != "" && !IsSpace(s[0]) && !IsSpace(s[|s| - 1])
    ensures Nested(data, x + Join(parts) + y) == At(Obj(data), parts)
  {
    hide IsSpace, Strip, Split, Join, At;
    StripPadded(x, Join(parts), y);
    SplitJoin(parts);
  }

  /** get_nested_value. */
  method GetNestedValue(data: map<string, Json>, path: string) returns (val: Json)
    ensures val == Nested(data, path)
  {
    var parts := Split(Strip(path));
    val := Obj(data);
    for i := 0 to |parts|
      invariant At(Obj(data), parts) == At(val, parts[i..])
    {
      if val.Obj? {
        val := if parts[i] in val.fields then val.fields[parts[i]] else Null;
      } else {
        AtNull(parts[i..][1..]);
        return Null;
      }
      assert parts[i..][1..] == parts[i + 1..];
    }
  }
}

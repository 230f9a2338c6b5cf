/** The Redis key of a cached query. */
module CacheKey {

  const PREFIX := "opspilot:cache:workflows"

  /** CACHE_EXPIRY_SECONDS, on clocks that count seconds. */
  const TTL := 86_400

  /** get_cache_key(business, trigger). */
  function Key(business: string, trigger: string): string {
    PREFIX + ":" + business + ":" + trigger
  }

  /** A business id is UUID text, which holds no colon; a trigger may be any string. */
  predicate ColonFree(s: string) { ':' !in s }

  function UpToColon(s: string): string {
    if s == [] || s[0] == ':' then [] else [s[0]] + UpToColon(s[1..])
  }

  /** The query a key was made for, read back from its text. */
  lemma {:induction false} BusinessReadBack(b: string, t: string)
    requires ColonFree(b)
    ensures UpToColon(b + ":" + t) == b
  {
    var s := b + ":" + t;
    if b != [] {
      assert s[1..] == b[1..] + ":" + t;
      BusinessReadBack(b[1..], t);
    }
  }

  /** Different queries never share a key. */
  lemma KeyInjective(b: string, t: string, b': string, t': string)
    requires ColonFree(b) && ColonFree(b')
    ensures Key(b, t) == Key(b', t') <==> b == b' && t == t'
  {
    if Key(b, t) == Key(b', t') {
      var p := |PREFIX| + 1;
      assert b + ":" + t == Key(b, t)[p..] == Key(b', t')[p..] == b' + ":" + t';
      BusinessReadBack(b, t);
      BusinessReadBack(b', t');
      assert t == (b + ":" + t)[|b| + 1..] && t' == (b' + ":" + t')[|b'| + 1..];
    }
  }

  /** Without that, two businesses can share a key. */
  lemma ColonsCollide()
    ensures Key("a", "b:c") == Key("a:b", "c")
  {
    calc {
      Key("a", "b:c");
      PREFIX + (":a:" + "b:c");
      { assert ":a:" + "b:c" == ":a:b:" + "c"; }
      PREFIX + (":a:b:" + "c");
      Key("a:b", "c");
    }
  }
}

/**
 The names of idempotency records: how a scope and a raw key become a Redis key.
 */
module IdempotencyKeys {

  /** Lower-casing and white space, as the Unicode tables of the run-time library define them. */
  datatype Charset = Charset(lower: char -> char, space: char -> bool)

  /** What of those tables matters here. */
  ghost predicate WellFormed(cs: Charset) {
    && (forall c :: cs.lower(cs.lower(c)) == cs.lower(c))
    && cs.lower('_') == '_' && !cs.space('_')
    && (forall i :: 0 <= i < |"default"| ==> cs.lower("default"[i]) == "default"[i])
    && !cs.space('d') && !cs.space('t')
  }

  function Each(s: string, f: char -> char): (r: string)
    ensures |r| == |s| && forall i :: 0 <= i < |s| ==> r[i] == f(s[i])
  {
    seq(|s|, i requires 0 <= i < |s| => f(s[i]))
  }

  function TrimLeft(cs: Charset, s: string): string {
    if s != [] && cs.space(s[0]) then TrimLeft(cs, s[1..]) else s
  }

  function TrimRight(cs: Charset, s: string): string {
    if s != [] && cs.space(s[|s| - 1]) then TrimRight(cs, s[..|s| - 1]) else s
  }

  function TrimSpace(cs: Charset, s: string): string {
    TrimRight(cs, TrimLeft(cs, s))
  }

  function Replace(s: string, from: char, to: char): string {
    Each(s, c => if c == from then to else c)
  }

  function NormalizeScope(cs: Charset, scope: string): string {
    var trimmed := TrimSpace(cs, Each(scope, cs.lower));
    var s := Replace(Replace(Replace(trimmed, ' ', '_'), '/', '_'), ':', '_');
    if s == "" then "default" else s
  }

  function NormalizeKey(cs: Charset, raw: string): string {
    TrimSpace(cs, raw)
  }

  const PREFIX := "idempotency:"

  function BuildKey(cs: Charset, scope: string, raw: string): string {
    PREFIX + NormalizeScope(cs, scope) + ":" + NormalizeKey(cs, raw)
  }

  // ----- trimming

  /** The empty string, or neither end is white space. */
  predicate Tight(cs: Charset, s: string) {
    s == "" || (!cs.space(s[0]) && !cs.space(s[|s| - 1]))
  }

  lemma {:induction false} TrimLeftHead(cs: Charset, s: string)
    ensures TrimLeft(cs, s) == "" || !cs.space(TrimLeft(cs, s)[0])
    ensures forall c :: c in TrimLeft(cs, s) ==> c in s
  {
    if s != [] && cs.space(s[0]) {
      TrimLeftHead(cs, s[1..]);
    }
  }

  lemma {:induction false} TrimRightEnds(cs: Charset, s: string)
    requires s == "" || !cs.space(s[0])
    ensures Tight(cs, TrimRight(cs, s))
    ensures forall c :: c in TrimRight(cs, s) ==> c in s
  {
    if s != [] && cs.space(s[|s| - 1]) {
      TrimRightEnds(cs, s[..|s| - 1]);
    }
  }

  lemma TrimSpaceTight(cs: Charset, s: string)
    ensures Tight(cs, TrimSpace(cs, s))
    ensures forall c :: c in TrimSpace(cs, s) ==> c in s
  {
    TrimLeftHead(cs, s);
    TrimRightEnds(cs, TrimLeft(cs, s));
  }

  lemma {:induction false} TrimLeftIs(cs: Charset, s: string) returns (i: nat)
    ensures i <= |s| && TrimLeft(cs, s) == s[i..] && forall k :: 0 <= k < i ==> cs.space(s[k])
  {
    if s != [] && cs.space(s[0]) {
      var j := TrimLeftIs(cs, s[1..]);
      i := j + 1;
      assert s[1..][j..] == s[i..];
      assert forall k :: 1 <= k < i ==> s[k] == s[1..][k - 1];
    } else {
      i := 0;
    }
  }

  lemma {:induction false} TrimRightIs(cs: Charset, s: string) returns (j: nat)
    ensures j <= |s| && TrimRight(cs, s) == s[..j] && forall k :: j <= k < |s| ==> cs.space(s[k])
  {
    if s != [] && cs.space(s[|s| - 1]) {
      j := TrimRightIs(cs, s[..|s| - 1]);
      assert s[..|s| - 1][..j] == s[..j];
      assert forall k :: j <= k < |s| - 1 ==> s[k] == s[..|s| - 1][k];
    } else {
      j := |s|;
      assert s[..j] == s;
    }
  }

  /** Trimming cuts white space at the ends, all of it, and nothing else. */
  lemma TrimSpaceIs(cs: Charset, s: string) returns (i: nat, j: nat)
    ensures i <= j <= |s| && TrimSpace(cs, s) == s[i..j]
    ensures forall k :: 0 <= k < i || j <= k < |s| ==> cs.space(s[k])
    ensures i < j ==> !cs.space(s[i]) && !cs.space(s[j - 1])
  {
    i := TrimLeftIs(cs, s);
    var m := TrimRightIs(cs, s[i..]);
    j := i + m;
    assert s[i..][..m] == s[i..j];
    assert forall k :: j <= k < |s| ==> s[k] == s[i..][k - i];
    TrimSpaceTight(cs, s);
    assert i < j ==> s[i..j][0] == s[i] && s[i..j][|s[i..j]| - 1] == s[j - 1];
  }

  /** Trimming twice is trimming once. */
  lemma TrimSpaceIdempotent(cs: Charset, s: string)
    ensures TrimSpace(cs, TrimSpace(cs, s)) == TrimSpace(cs, s)
  {
    TrimSpaceTight(cs, s);
  }

  // ----- scopes

  /** What NormalizeScope produces, and what it leaves alone. */
  ghost predicate Normal(cs: Charset, s: string) {
    && s != "" && Tight(cs, s)
    && forall i :: 0 <= i < |s| ==> s[i] != ' ' && s[i] != '/' && s[i] != ':' && cs.lower(s[i]) == s[i]
  }

  lemma NormalizeScopeNormal(cs: Charset, scope: string)
    requires WellFormed(cs)
    ensures Normal(cs, NormalizeScope(cs, scope))
  {
    var lowered := Each(scope, cs.lower);
    TrimSpaceTight(cs, lowered);
    var trimmed := TrimSpace(cs, lowered);
    forall i | 0 <= i < |trimmed|
      ensures cs.lower(trimmed[i]) == trimmed[i]
    {
      assert trimmed[i] in lowered;
    }
    var s := Replace(Replace(Replace(trimmed, ' ', '_'), '/', '_'), ':', '_');
    assert forall i :: 0 <= i < |s| ==> s[i] == trimmed[i] || s[i] == '_';
  }

  lemma NormalFixed(cs: Charset, s: string)
    requires Normal(cs, s)
    ensures NormalizeScope(cs, s) == s
  {
    assert Each(s, cs.lower) == s;
    assert TrimSpace(cs, s) == s;
    assert Replace(s, ' ', '_') == s;
    assert Replace(s, '/', '_') == s;
    assert Replace(s, ':', '_') == s;
  }

  lemma NormalizeScopeIdempotent(cs: Charset, scope: string)
    requires WellFormed(cs)
    ensures NormalizeScope(cs, NormalizeScope(cs, scope)) == NormalizeScope(cs, scope)
    ensures ':' !in NormalizeScope(cs, scope) && NormalizeScope(cs, scope) != ""
  {
    NormalizeScopeNormal(cs, scope);
    NormalFixed(cs, NormalizeScope(cs, scope));
  }

  /**
   What NormalizeScope computes, character by character: the scope in lower case without the white space at its
   ends, with an underscore for every blank, slash and colon that is left; `default` when nothing is.
   */
  lemma NormalizeScopeIs(cs: Charset, scope: string) returns (i: nat, j: nat)
    ensures i <= j <= |scope|
    ensures forall k :: 0 <= k < i || j <= k < |scope| ==> cs.space(cs.lower(scope[k]))
    ensures i < j ==> !cs.space(cs.lower(scope[i])) && !cs.space(cs.lower(scope[j - 1]))
    ensures i == j ==> NormalizeScope(cs, scope) == "default"
    ensures i < j ==>
              && |NormalizeScope(cs, scope)| == j - i
              && forall k :: 0 <= k < j - i ==>
                               NormalizeScope(cs, scope)[k]
                               == if cs.lower(scope[i + k]) in {' ', '/', ':'} then '_' else cs.lower(scope[i + k])
  {
    var lowered := Each(scope, cs.lower);
    i, j := TrimSpaceIs(cs, lowered);
    var trimmed := lowered[i..j];
    var s1 := Replace(trimmed, ' ', '_');
    var s2 := Replace(s1, '/', '_');
    var s := Replace(s2, ':', '_');
    forall k | 0 <= k < j - i
      ensures s[k] == if cs.lower(scope[i + k]) in {' ', '/', ':'} then '_' else cs.lower(scope[i + k])
    {
      assert trimmed[k] == cs.lower(scope[i + k]);
      assert s1[k] == if trimmed[k] == ' ' then '_' else trimmed[k];
      assert s2[k] == if s1[k] == '/' then '_' else s1[k];
      assert s[k] == if s2[k] == ':' then '_' else s2[k];
    }
  }

  /** The scope has characters and no white space at its ends, in lower case. */
  ghost predicate Compact(cs: Charset, scope: string) {
    scope != "" && !cs.space(cs.lower(scope[0])) && !cs.space(cs.lower(scope[|scope| - 1]))
  }

  predicate Separates(c: char) {
    c == ' ' || c == '/' || c == ':' || c == '_'
  }

  /** The two characters mean the same in a scope: they differ in case, or both separate. */
  predicate Alike(cs: Charset, a: char, b: char) {
    cs.lower(a) == cs.lower(b) || (Separates(cs.lower(a)) && Separates(cs.lower(b)))
  }

  /** A compact scope keeps its length, and each of its characters is only lowered or made an underscore. */
  lemma CompactScopeIs(cs: Charset, s: string)
    requires Compact(cs, s)
    ensures |NormalizeScope(cs, s)| == |s|
    ensures forall k :: 0 <= k < |s| ==>
                          NormalizeScope(cs, s)[k] == if Separates(cs.lower(s[k])) then '_' else cs.lower(s[k])
  {
    var i, j := NormalizeScopeIs(cs, s);
    assert i == 0 && j == |s|;
    assert forall k :: 0 <= k < |s| ==> s[0 + k] == s[k];
  }

  /** Compact scopes are one scope if and only if they agree place by place, up to case and kind of separator. */
  lemma SameScopeExactlyWhen(cs: Charset, s: string, t: string)
    requires Compact(cs, s) && Compact(cs, t)
    ensures NormalizeScope(cs, s) == NormalizeScope(cs, t)
            <==> |s| == |t| && forall k :: 0 <= k < |s| ==> Alike(cs, s[k], t[k])
  {
    CompactScopeIs(cs, s);
    CompactScopeIs(cs, t);
    var x, y := NormalizeScope(cs, s), NormalizeScope(cs, t);
    if |s| == |t| {
      assert forall k :: 0 <= k < |s| ==> (x[k] == y[k] <==> Alike(cs, s[k], t[k]));
      assert x == y <==> forall k :: 0 <= k < |s| ==> x[k] == y[k];
    }
  }

  // ----- keys

  /** The key is the prefix, the scope, a colon and the trimmed key, in this order. */
  lemma BuildKeyIs(cs: Charset, scope: string, raw: string)
    ensures var key, n := BuildKey(cs, scope, raw), |NormalizeScope(cs, scope)|;
            && |key| == 13 + n + |TrimSpace(cs, raw)| && key[..12] == "idempotency:"
            && key[12..12 + n] == NormalizeScope(cs, scope) && key[12 + n] == ':'
            && key[13 + n..] == TrimSpace(cs, raw)
  {
    assert |PREFIX| == 12;
  }

  lemma AfterPrefix(cs: Charset, s: string, k: string)
    ensures BuildKey(cs, s, k) == PREFIX + (NormalizeScope(cs, s) + ":" + NormalizeKey(cs, k))
  {}

  lemma Cancel(p: string, a: string, b: string)
    requires p + a == p + b
    ensures a == b
  {
    assert a == (p + a)[|p|..] && b == (p + b)[|p|..];
  }

  lemma FirstColon(a: string, b: string, c: string, d: string)
    requires ':' !in a && ':' !in c
    requires a + ":" + b == c + ":" + d
    ensures a == c && b == d
  {
    var l, r := a + ":" + b, c + ":" + d;
    assert l[|a|] == ':' && r[|c|] == ':';
    assert |a| == |c|;
    assert a == l[..|a|] && c == r[..|c|];
    assert b == l[|a| + 1..] && d == r[|c| + 1..];
  }

  /** Two requests share a record exactly when their normalized scopes and trimmed keys agree, colons or not. */
  lemma BuildKeyInjective(cs: Charset, s1: string, k1: string, s2: string, k2: string)
    requires WellFormed(cs)
    ensures BuildKey(cs, s1, k1) == BuildKey(cs, s2, k2) <==>
            NormalizeScope(cs, s1) == NormalizeScope(cs, s2) && NormalizeKey(cs, k1) == NormalizeKey(cs, k2)
  {
    if BuildKey(cs, s1, k1) == BuildKey(cs, s2, k2) {
      NormalizeScopeIdempotent(cs, s1);
      NormalizeScopeIdempotent(cs, s2);
      var t1 := NormalizeScope(cs, s1) + ":" + NormalizeKey(cs, k1);
      var t2 := NormalizeScope(cs, s2) + ":" + NormalizeKey(cs, k2);
      AfterPrefix(cs, s1, k1);
      AfterPrefix(cs, s2, k2);
      Cancel(PREFIX, t1, t2);
      FirstColon(NormalizeScope(cs, s1), NormalizeKey(cs, k1), NormalizeScope(cs, s2), NormalizeKey(cs, k2));
    }
  }

  /**
   BeginHTTP normalizes the scope before it builds the key; CompleteHTTP, ReleaseHTTP and
   GetHTTP do not. They name the same record, also when the raw key was trimmed before.
   */
  lemma BeginAndCompleteMeet(cs: Charset, scope: string, raw: string)
    requires WellFormed(cs)
    ensures BuildKey(cs, NormalizeScope(cs, scope), raw) == BuildKey(cs, scope, raw)
    ensures BuildKey(cs, scope, NormalizeKey(cs, raw)) == BuildKey(cs, scope, raw)
  {
    NormalizeScopeIdempotent(cs, scope);
    TrimSpaceIdempotent(cs, raw);
  }
}

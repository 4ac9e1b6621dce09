/** Hostnames and single-label wildcards. Normalisation (trimming, IDNA mapping and lower
    case) comes from outside: the functions work for any normaliser. */
module Hostnames {

  datatype Option<T> = None | Some(value: T)

  /** The text services: trimming white space, and the canonical form of a hostname. */
  datatype Text = Text(trim: string -> string, norm: string -> string)

  predicate IsWildcard(pattern: string) {
    |pattern| >= 2 && pattern[0] == '*' && pattern[1] == '.'
  }

  function NormalizeOrWildcard(text: Text, host: string): string {
    var host := text.trim(host);
    if host == "" then "" else
    if IsWildcard(host) then
      var base := text.norm(host[2..]);
      if base == "" then "" else "*." + base
    else
      text.norm(host)
  }

  predicate HasEmptyLabel(s: string) {
    s == "" || s[0] == '.' || s[|s| - 1] == '.' || exists i :: 0 <= i < |s| - 1 && s[i] == '.' && s[i + 1] == '.'
  }

  /** Two or more labels after the star, none empty and none with another star. */
  predicate IsValidWildcard(pattern: string) {
    IsWildcard(pattern) &&
    var rest := pattern[2..];
    '.' in rest && '*' !in rest && !HasEmptyLabel(rest)
  }

  function WildcardSuffix(text: Text, pattern: string): (r: Option<string>)
    ensures r.Some? ==> r.value != "" && r.value[0] == '.'
  {
    var p := NormalizeOrWildcard(text, pattern);
    if IsValidWildcard(p) then Some(p[1..]) else None
  }

  /** From the first dot of a canonical name on, if a label stands before it. */
  function SuffixFrom(h: string, i: nat): (r: Option<string>)
    requires i <= |h|
    decreases |h| - i
  {
    if i == |h| then None
    else if h[i] == '.' then if i > 0 then Some(h[i..]) else None
    else SuffixFrom(h, i + 1)
  }

  function FirstDotSuffix(text: Text, host: string): Option<string> {
    SuffixFrom(text.norm(host), 0)
  }

  /** The client's matcher. */
  predicate MatchesWildcard(host: string, suffix: string) {
    |suffix| < |host| && host[|host| - |suffix|..] == suffix && '.' !in host[..|host| - |suffix|]
  }

  lemma {:induction false} SuffixAt(h: string, i: nat, n: nat)
    requires i <= n < |h| && n > 0 && h[n] == '.' && forall k :: i <= k < n ==> h[k] != '.'
    ensures SuffixFrom(h, i) == Some(h[n..])
    decreases n - i
  {
    if i < n {
      SuffixAt(h, i + 1, n);
    }
  }

  lemma {:induction false} SuffixFound(h: string, i: nat)
    requires i <= |h| && forall k :: 0 <= k < i ==> h[k] != '.'
    ensures SuffixFrom(h, i).Some? ==> MatchesWildcard(h, SuffixFrom(h, i).value)
    decreases |h| - i
  {
    if i < |h| && h[i] != '.' {
      SuffixFound(h, i + 1);
    }
  }

  lemma {:induction false} SuffixDotted(h: string, i: nat)
    requires i <= |h|
    ensures SuffixFrom(h, i).Some? ==> SuffixFrom(h, i).value != "" && SuffixFrom(h, i).value[0] == '.'
    decreases |h| - i
  {
    if i < |h| && h[i] != '.' {
      SuffixDotted(h, i + 1);
    }
  }

  /** The two matchers agree: a host matches a suffix that starts with a dot if and only
      if the suffix is the host's own, from its first dot. */
  lemma MatchersAgree(host: string, suffix: string)
    requires suffix != "" && suffix[0] == '.'
    ensures MatchesWildcard(host, suffix) <==> SuffixFrom(host, 0) == Some(suffix)
  {
    SuffixFound(host, 0);
    if MatchesWildcard(host, suffix) {
      var n := |host| - |suffix|;
      assert host[n..][0] == '.';
      assert forall k :: 0 <= k < n ==> host[k] == host[..n][k];
      SuffixAt(host, 0, n);
    }
  }

  /** So one suffix at most matches a host. */
  lemma MatchUnique(host: string, a: string, b: string)
    requires a != "" && a[0] == '.' && b != "" && b[0] == '.'
    requires MatchesWildcard(host, a) && MatchesWildcard(host, b)
    ensures a == b
  {
    MatchersAgree(host, a);
    MatchersAgree(host, b);
  }

  /** A valid wildcard covers exactly the names made of one label in place of its star. */
  lemma WildcardCovers(text: Text, pattern: string, front: string, host: string)
    requires WildcardSuffix(text, pattern).Some?
    requires host == front + WildcardSuffix(text, pattern).value
    ensures SuffixFrom(host, 0) == WildcardSuffix(text, pattern) <==> front != "" && '.' !in front
  {
    var suffix := WildcardSuffix(text, pattern).value;
    MatchersAgree(host, suffix);
    assert host[|host| - |suffix|..] == suffix && host[..|host| - |suffix|] == front;
  }
}

/** `REDACT_PATTERNS` and `redact` of `llama_deploy/log.py`: four regular
    expressions, each keeping its first group and replacing the secret
    after it by "<REDACTED>", applied one after the other to the whole
    string.

    Each pattern is a keyword, some whitespace, and a secret: a non-empty
    run of characters that are not whitespace (and, for the two header
    patterns, not a quote). The regular-expression semantics is given
    twice: declaratively (`InGroup`, `Matches`) and as the scanner
    `MatchAt`, and the two are proved to agree. */
module Redact {
  import opened Wrappers
  import Text

  /** The four entries of `REDACT_PATTERNS`, in order:
      `(Authorization:\s*Bearer\s+)[^\s"']+` and `(x-api-key:\s*)[^\s"']+`
      ignoring case, `(HF_TOKEN=)[^\s]+` and `(--hf-token\s+)[^\s]+`
      respecting it. */
  datatype Pattern = BearerHeader | ApiKeyHeader | HfTokenEnv | HfTokenFlag

  const Patterns: seq<Pattern> := [BearerHeader, ApiKeyHeader, HfTokenEnv, HfTokenFlag]

  const Mask: string := "<REDACTED>"

  /** A character that cannot be part of the pattern's secret. */
  predicate EndsSecret(p: Pattern, c: char) {
    Text.IsWhitespace(c) || ((p == BearerHeader || p == ApiKeyHeader) && (c == '"' || c == '\''))
  }

  /** `s` starts with the lower-case keyword `kw`, ignoring case. */
  predicate StartsWithFold(s: string, kw: string) {
    |kw| <= |s| && forall i :: 0 <= i < |kw| ==> Text.LowerAscii(s[i]) == kw[i]
  }

  // ---------------------------------------------------------------------
  // Declarative semantics
  // ---------------------------------------------------------------------

  /** `\s*bearer\s+`, ignoring case. */
  predicate BearerTail(g: string)
    decreases |g|
  {
    || (|g| > 0 && Text.IsWhitespace(g[0]) && BearerTail(g[1..]))
    || (StartsWithFold(g, "bearer") && |g| > 6 && Text.AllWhitespace(g[6..]))
  }

  /** The strings the pattern's first group matches. */
  predicate InGroup(p: Pattern, g: string) {
    match p
    case BearerHeader => StartsWithFold(g, "authorization:") && BearerTail(g[14..])
    case ApiKeyHeader => StartsWithFold(g, "x-api-key:") && Text.AllWhitespace(g[10..])
    case HfTokenEnv => g == "HF_TOKEN="
    case HfTokenFlag => "--hf-token" <= g && |g| > 10 && Text.AllWhitespace(g[10..])
  }

  /** The pattern matches at the start of `s` with the group `s[..j]` and
      the secret `s[j..k]`: a non-empty run of allowed characters which,
      the quantifier being greedy and last, runs as far as it can. */
  ghost predicate Matches(p: Pattern, s: string, j: int, k: int) {
    && 0 <= j < k <= |s|
    && InGroup(p, s[..j])
    && (forall i :: j <= i < k ==> !EndsSecret(p, s[i]))
    && (k == |s| || EndsSecret(p, s[k]))
  }

  // ---------------------------------------------------------------------
  // The scanner
  // ---------------------------------------------------------------------

  /** The length of the leading run of characters allowed in the secret. */
  function SecretRun(p: Pattern, s: string): (n: nat)
    ensures n <= |s|
    ensures forall i :: 0 <= i < n ==> !EndsSecret(p, s[i])
    ensures n < |s| ==> EndsSecret(p, s[n])
    decreases |s|
  {
    if |s| > 0 && !EndsSecret(p, s[0]) then 1 + SecretRun(p, s[1..]) else 0
  }

  /** Where `\s*bearer\s+` ends at the start of `t`, if it matches there. */
  function BearerTailEnd(t: string): (r: Option<nat>)
    ensures r.Some? ==> r.value <= |t|
    decreases |t|
  {
    if |t| > 0 && Text.IsWhitespace(t[0]) then
      match BearerTailEnd(t[1..])
      case None => None
      case Some(e) => Some(e + 1)
    else if StartsWithFold(t, "bearer") && Text.WsRun(t[6..]) > 0 then Some(6 + Text.WsRun(t[6..]))
    else None
  }

  /** Where the pattern's first group ends at the start of `s`, if it
      matches there. */
  function GroupEnd(p: Pattern, s: string): (r: Option<nat>)
    ensures r.Some? ==> r.value <= |s|
  {
    match p
    case BearerHeader =>
      if StartsWithFold(s, "authorization:") then
        match BearerTailEnd(s[14..])
        case None => None
        case Some(e) => Some(14 + e)
      else None
    case ApiKeyHeader =>
      if StartsWithFold(s, "x-api-key:") then Some(10 + Text.WsRun(s[10..])) else None
    case HfTokenEnv =>
      if "HF_TOKEN=" <= s then Some(9) else None
    case HfTokenFlag =>
      if "--hf-token" <= s && Text.WsRun(s[10..]) > 0 then Some(10 + Text.WsRun(s[10..])) else None
  }

  /** A match at the start of a string: the end of the kept group and of
      the secret. */
  datatype Match = Match(groupEnd: nat, secretEnd: nat)

  /** The pattern's match at the start of `s`, if any. A match has a
      non-empty secret that lies inside `s`, holds no character that ends a
      secret, and runs as far as it can. */
  function MatchAt(p: Pattern, s: string): (r: Option<Match>)
    ensures r.Some? ==> Fits(r.value, s)
    ensures r.Some? ==> forall i :: r.value.groupEnd <= i < r.value.secretEnd ==> !EndsSecret(p, s[i])
    ensures r.Some? && r.value.secretEnd < |s| ==> EndsSecret(p, s[r.value.secretEnd])
  {
    match GroupEnd(p, s)
    case None => None
    case Some(j) =>
      var n := SecretRun(p, s[j..]);
      if n > 0 then Some(Match(j, j + n)) else None
  }

  // ---------------------------------------------------------------------
  // The scanner agrees with the declarative semantics
  // ---------------------------------------------------------------------

  /** A letter of a keyword is never whitespace, in either case. */
  lemma FoldedLetterNotWhitespace(c: char, k: char)
    requires Text.LowerAscii(c) == k && 'a' <= k <= 'z'
    ensures !Text.IsWhitespace(c)
  {
  }

  lemma StartsWithFoldPrefix(s: string, kw: string, j: nat)
    requires |kw| <= j <= |s|
    ensures StartsWithFold(s[..j], kw) <==> StartsWithFold(s, kw)
  {
    assert forall i :: 0 <= i < |kw| ==> s[..j][i] == s[i];
  }

  /** A run of `n` whitespace characters followed by something else is
      exactly what `WsRun` measures. */
  lemma WsRunExact(s: string, n: nat)
    requires n <= |s| && (forall i :: 0 <= i < n ==> Text.IsWhitespace(s[i]))
    requires n == |s| || !Text.IsWhitespace(s[n])
    ensures Text.WsRun(s) == n
  {
  }

  /** `BearerTailEnd` finds `e` exactly when `t[..e]` is `\s*bearer\s+`
      and the whitespace after "bearer" is not cut short. */
  lemma {:induction false} BearerTailEndSpec(t: string, e: nat)
    ensures BearerTailEnd(t) == Some(e) <==>
              e <= |t| && BearerTail(t[..e]) && (e == |t| || !Text.IsWhitespace(t[e]))
    decreases |t|
  {
    if |t| > 0 && Text.IsWhitespace(t[0]) {
      if e > 0 {
        BearerTailEndSpec(t[1..], e - 1);
        if e <= |t| {
          var g := t[..e];
          assert g[1..] == t[1..][..e - 1];
          assert !StartsWithFold(g, "bearer") by {
            if StartsWithFold(g, "bearer") {
              FoldedLetterNotWhitespace(g[0], 'b');
            }
          }
        }
      } else {
        assert BearerTailEnd(t) != Some(0) by {
          match BearerTailEnd(t[1..])
          case None =>
          case Some(e1) =>
        }
      }
    } else if 6 < e <= |t| {
      var g := t[..e];
      StartsWithFoldPrefix(t, "bearer", e);
      if StartsWithFold(t, "bearer") {
        assert g[6..] == t[6..][..e - 6];
        assert Text.AllWhitespace(g[6..]) && (e == |t| || !Text.IsWhitespace(t[e])) ==> Text.WsRun(t[6..]) == e - 6 by {
          if Text.AllWhitespace(g[6..]) && (e == |t| || !Text.IsWhitespace(t[e])) {
            WsRunExact(t[6..], e - 6);
          }
        }
        if BearerTailEnd(t) == Some(e) {
          var w := Text.WsRun(t[6..]);
          assert forall i :: 0 <= i < |g[6..]| ==> g[6..][i] == t[6..][i];
        }
      }
    }
  }

  /** `GroupEnd` is sound: what it finds is a group of the pattern. */
  lemma GroupEndSound(p: Pattern, s: string)
    requires GroupEnd(p, s).Some?
    ensures InGroup(p, s[..GroupEnd(p, s).value])
  {
    var j := GroupEnd(p, s).value;
    match p
    case BearerHeader =>
      var e := j - 14;
      BearerTailEndSpec(s[14..], e);
      StartsWithFoldPrefix(s, "authorization:", j);
      assert s[..j][14..] == s[14..][..e];
    case ApiKeyHeader =>
      StartsWithFoldPrefix(s, "x-api-key:", j);
      assert forall i :: 0 <= i < |s[..j][10..]| ==> s[..j][10..][i] == s[10..][i];
    case HfTokenEnv =>
    case HfTokenFlag =>
      assert forall i :: 0 <= i < |s[..j][10..]| ==> s[..j][10..][i] == s[10..][i];
  }

  /** `GroupEnd` is complete: a group followed by a character that is not
      whitespace is the one it finds. */
  lemma GroupEndComplete(p: Pattern, s: string, j: nat)
    requires j < |s| && InGroup(p, s[..j]) && !Text.IsWhitespace(s[j])
    ensures GroupEnd(p, s) == Some(j)
  {
    var g := s[..j];
    match p
    case BearerHeader =>
      StartsWithFoldPrefix(s, "authorization:", j);
      assert g[14..] == s[14..][..j - 14];
      BearerTailEndSpec(s[14..], j - 14);
    case ApiKeyHeader =>
      StartsWithFoldPrefix(s, "x-api-key:", j);
      assert forall i :: 0 <= i < j - 10 ==> g[10..][i] == s[10..][i];
      WsRunExact(s[10..], j - 10);
    case HfTokenEnv =>
      assert "HF_TOKEN=" <= s;
    case HfTokenFlag =>
      assert "--hf-token" <= s;
      assert forall i :: 0 <= i < j - 10 ==> g[10..][i] == s[10..][i];
      WsRunExact(s[10..], j - 10);
  }

  /** The scanner finds a match exactly when the regular expression
      matches, and then the one it matches: the group and the secret are
      determined by the string. */
  lemma MatchAtSpec(p: Pattern, s: string, j: nat, k: nat)
    ensures MatchAt(p, s) == Some(Match(j, k)) <==> Matches(p, s, j, k)
  {
    if MatchAt(p, s) == Some(Match(j, k)) {
      GroupEndSound(p, s);
      assert forall i :: j <= i < k ==> s[i] == s[j..][i - j];
    }
    if Matches(p, s, j, k) {
      assert !EndsSecret(p, s[j]);
      GroupEndComplete(p, s, j);
      assert forall i :: 0 <= i < |s[j..]| ==> s[j..][i] == s[j + i];
    }
  }

  /** A match needs a non-empty secret: the keyword followed by the end of
      the string, by whitespace only, or (for the headers) by a quote is
      left alone. */
  lemma NoSecretNoMatch(p: Pattern, s: string, j: nat)
    requires j <= |s| && InGroup(p, s[..j])
    requires j == |s| || EndsSecret(p, s[j])
    requires forall i :: j < i <= |s| ==> !InGroup(p, s[..i])
    ensures MatchAt(p, s).None?
  {
    if MatchAt(p, s).Some? {
      var m := MatchAt(p, s).value;
      MatchAtSpec(p, s, m.groupEnd, m.secretEnd);
      if m.groupEnd < j {
        assert s[..j][..m.groupEnd] == s[..m.groupEnd];
        GroupPrefixFree(p, s[..j], m.groupEnd);
      }
    }
  }

  /** No group of a pattern is a proper prefix of another group followed
      only by secret characters: a group that is a prefix of a longer
      group is followed by whitespace. */
  lemma GroupPrefixFree(p: Pattern, g: string, i: nat)
    requires i < |g| && InGroup(p, g) && InGroup(p, g[..i])
    ensures Text.IsWhitespace(g[i])
  {
    match p
    case BearerHeader =>
      assert g[..i][14..] == g[14..][..i - 14];
      BearerTailEndSpec(g[14..], |g| - 14);
      assert g[14..][..|g| - 14] == g[14..];
      if !Text.IsWhitespace(g[i]) {
        BearerTailEndSpec(g[14..], i - 14);
      }
    case ApiKeyHeader =>
      assert g[i] == g[10..][i - 10];
    case HfTokenEnv =>
    case HfTokenFlag =>
      assert g[i] == g[10..][i - 10];
  }

  // ---------------------------------------------------------------------
  // Substitution
  // ---------------------------------------------------------------------

  /** The match reported for `s` lies inside it and has a non-empty
      secret. */
  predicate Fits(m: Match, s: string) {
    m.groupEnd < m.secretEnd <= |s|
  }

  /** The substitution loop of `re.sub` for a replacement that keeps the
      first group and appends `mask`, over any matcher: scanning left to
      right, each match keeps its group, has its secret replaced by
      `mask`, and scanning resumes after the secret; elsewhere characters
      are copied. A reported match that does not fit the string counts as
      no match (the pattern matchers never report one). */
  function Scan(f: string -> Option<Match>, mask: string, s: string): string
    decreases |s|
  {
    if |s| == 0 then []
    else match f(s)
      case Some(m) =>
        if Fits(m, s) then s[..m.groupEnd] + mask + Scan(f, mask, s[m.secretEnd..])
        else [s[0]] + Scan(f, mask, s[1..])
      case None => [s[0]] + Scan(f, mask, s[1..])
  }

  /** Where nothing matches, characters are copied one by one. */
  lemma {:induction false} ScanCopiesPrefix(f: string -> Option<Match>, mask: string, s: string, i: nat)
    requires i <= |s|
    requires forall i' :: 0 <= i' < i ==> f(s[i'..]).None?
    ensures Scan(f, mask, s) == s[..i] + Scan(f, mask, s[i..])
    decreases i
  {
    if i == 0 {
      assert s[0..] == s;
    } else {
      ScanCopiesPrefix(f, mask, s, i - 1);
      var u := s[i - 1..];
      assert f(u).None? && u[1..] == s[i..];
      assert s[..i] == s[..i - 1] + [s[i - 1]];
    }
  }

  /** Without a match anywhere, the scan changes nothing. */
  lemma ScanWithoutMatch(f: string -> Option<Match>, mask: string, s: string)
    requires forall i :: 0 <= i < |s| ==> f(s[i..]).None?
    ensures Scan(f, mask, s) == s
  {
    ScanCopiesPrefix(f, mask, s, |s|);
    assert s[..|s|] == s;
  }

  /** The leftmost match is the first replaced: everything before its
      secret is copied verbatim, the secret becomes the mask, and the rest
      is scanned on its own. */
  lemma ScanAtFirstMatch(f: string -> Option<Match>, mask: string, s: string, i: nat, g: nat, e: nat)
    requires i + e <= |s| && g < e && f(s[i..]) == Some(Match(g, e))
    requires forall i' :: 0 <= i' < i ==> f(s[i'..]).None?
    ensures Scan(f, mask, s) == s[..i + g] + mask + Scan(f, mask, s[i + e..])
  {
    var u := s[i..];
    var rest := Scan(f, mask, s[i + e..]);
    ScanCopiesPrefix(f, mask, s, i);
    assert u[e..] == s[i + e..];
    assert Scan(f, mask, u) == u[..g] + mask + rest;
    assert s[..i] + u[..g] == s[..i + g];
    AppendAssoc(s[..i], u[..g], mask, rest);
  }

  /** Regrouping a concatenation of four sequences. */
  lemma AppendAssoc<T>(a: seq<T>, b: seq<T>, c: seq<T>, d: seq<T>)
    ensures a + (b + c + d) == (a + b) + c + d
  {
  }

  /** The pattern's scanner as a matcher. */
  function Matcher(p: Pattern): (f: string -> Option<Match>)
    ensures forall s :: f(s) == MatchAt(p, s)
  {
    (s: string) => MatchAt(p, s)
  }

  /** `pat.sub(r"\1<REDACTED>", s)`. Without a match of the pattern
      anywhere, substitution changes nothing. */
  function Sub(p: Pattern, s: string): (r: string)
    ensures (forall i :: 0 <= i < |s| ==> MatchAt(p, s[i..]).None?) ==> r == s
  {
    var f := Matcher(p);
    assert (forall i :: 0 <= i < |s| ==> MatchAt(p, s[i..]).None?) ==> Scan(f, Mask, s) == s by {
      if forall i :: 0 <= i < |s| ==> MatchAt(p, s[i..]).None? {
        ScanWithoutMatch(f, Mask, s);
      }
    }
    Scan(f, Mask, s)
  }

  /** The leftmost match of the pattern is replaced first: the text before
      the secret is kept verbatim, the secret becomes "<REDACTED>", and
      substitution goes on after the secret. */
  lemma SubAtFirstMatch(p: Pattern, s: string, i: nat, g: nat, e: nat)
    requires i <= |s| && MatchAt(p, s[i..]) == Some(Match(g, e))
    requires forall i' :: 0 <= i' < i ==> MatchAt(p, s[i'..]).None?
    ensures Sub(p, s) == s[..i + g] + Mask + Sub(p, s[i + e..])
  {
    var f := Matcher(p);
    forall i' | 0 <= i' < i
      ensures f(s[i'..]).None?
    {
      assert f(s[i'..]) == MatchAt(p, s[i'..]);
    }
    assert f(s[i..]) == Some(Match(g, e));
    ScanAtFirstMatch(f, Mask, s, i, g, e);
  }

  /** In the terms of the regular expression: when the pattern first
      matches at position `i`, with group `s[i..i + j]` and secret
      `s[i + j..i + k]`, substitution keeps everything up to the secret,
      masks the secret and goes on after it. */
  lemma SubReplacesLeftmostMatch(p: Pattern, s: string, i: nat, j: nat, k: nat)
    requires i <= |s| && Matches(p, s[i..], j, k)
    requires forall i', j', k' :: 0 <= i' < i ==> !Matches(p, s[i'..], j', k')
    ensures Sub(p, s) == s[..i + j] + Mask + Sub(p, s[i + k..])
  {
    forall i' | 0 <= i' < i
      ensures MatchAt(p, s[i'..]).None?
    {
      if MatchAt(p, s[i'..]).Some? {
        var m := MatchAt(p, s[i'..]).value;
        MatchAtSpec(p, s[i'..], m.groupEnd, m.secretEnd);
      }
    }
    MatchAtSpec(p, s[i..], j, k);
    SubAtFirstMatch(p, s, i, j, k);
  }

  /** A string in which the pattern matches nowhere is left as it is. */
  lemma SubKeepsTextWithoutMatch(p: Pattern, s: string)
    requires forall i, j, k :: 0 <= i < |s| ==> !Matches(p, s[i..], j, k)
    ensures Sub(p, s) == s
  {
    forall i | 0 <= i < |s|
      ensures MatchAt(p, s[i..]).None?
    {
      if MatchAt(p, s[i..]).Some? {
        var m := MatchAt(p, s[i..]).value;
        MatchAtSpec(p, s[i..], m.groupEnd, m.secretEnd);
      }
    }
  }

  /** `redact`: each pattern in turn, on the output of the previous one. */
  function RedactWith(ps: seq<Pattern>, s: string): string
    decreases |ps|
  {
    if |ps| == 0 then s else RedactWith(ps[1..], Sub(ps[0], s))
  }

  /** `redact`. A line that mentions none of the four keywords is logged
      as it is. */
  function Redact(s: string): (r: string)
    ensures (forall p, i :: 0 <= i < |s| ==> !KeywordAt(p, s[i..])) ==> r == s
  {
    assert (forall p, i :: 0 <= i < |s| ==> !KeywordAt(p, s[i..])) ==> RedactWith(Patterns, s) == s by {
      if forall p, i :: 0 <= i < |s| ==> !KeywordAt(p, s[i..]) {
        forall p: Pattern
          ensures Sub(p, s) == s
        {
          forall i | 0 <= i < |s|
            ensures MatchAt(p, s[i..]).None?
          {
            assert !KeywordAt(p, s[i..]);
          }
        }
        var ps := Patterns;
        assert RedactWith(ps[1..], s) == RedactWith(ps[2..], s) == RedactWith(ps[3..], s) == RedactWith(ps[4..], s) == s;
      }
    }
    RedactWith(Patterns, s)
  }

  /** The four substitutions run in the order of the list, each on the
      output of the previous one. */
  lemma RedactInOrder(s: string)
    ensures Redact(s) == Sub(HfTokenFlag, Sub(HfTokenEnv, Sub(ApiKeyHeader, Sub(BearerHeader, s))))
  {
    var ps := Patterns;
    assert ps[1..][0] == ApiKeyHeader && ps[1..][1..] == ps[2..];
    assert ps[2..][0] == HfTokenEnv && ps[2..][1..] == ps[3..];
    assert ps[3..][0] == HfTokenFlag && ps[3..][1..] == [];
  }

  /** The pattern's keyword starts `s`. */
  predicate KeywordAt(p: Pattern, s: string) {
    match p
    case BearerHeader => StartsWithFold(s, "authorization:")
    case ApiKeyHeader => StartsWithFold(s, "x-api-key:")
    case HfTokenEnv => "HF_TOKEN=" <= s
    case HfTokenFlag => "--hf-token" <= s
  }
}

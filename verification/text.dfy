/** String helpers shared by the token store and the log redactor: Python's
    notion of whitespace, `str.strip`, `"\n".join`, `str.split` and the
    substring test `needle in hay`. */
module Text {
  import opened Wrappers

  /** The characters Python treats as whitespace in a `str`: those for
      which `str.isspace()` holds, which are also the characters the `\s`
      class of a `str` regular expression matches. */
  predicate IsWhitespace(c: char) {
    var n := c as int;
    || 9 <= n <= 13
    || 28 <= n <= 32
    || n == 0x85
    || n == 0xA0
    || n == 0x1680
    || 0x2000 <= n <= 0x200A
    || n == 0x2028
    || n == 0x2029
    || n == 0x202F
    || n == 0x205F
    || n == 0x3000
  }

  predicate AllWhitespace(s: string) {
    forall i :: 0 <= i < |s| ==> IsWhitespace(s[i])
  }

  /** The length of the leading whitespace of `s`. */
  function WsRun(s: string): (n: nat)
    ensures n <= |s|
    ensures forall i :: 0 <= i < n ==> IsWhitespace(s[i])
    ensures n < |s| ==> !IsWhitespace(s[n])
    decreases |s|
  {
    if |s| > 0 && IsWhitespace(s[0]) then 1 + WsRun(s[1..]) else 0
  }

  /** The length of the trailing whitespace of `s`. */
  function WsRunEnd(s: string): (n: nat)
    ensures n <= |s|
    ensures forall i :: |s| - n <= i < |s| ==> IsWhitespace(s[i])
    ensures n < |s| ==> !IsWhitespace(s[|s| - n - 1])
    decreases |s|
  {
    if |s| > 0 && IsWhitespace(s[|s| - 1]) then 1 + WsRunEnd(s[..|s| - 1]) else 0
  }

  /** Drops the leading whitespace of `s`. */
  function TrimStart(s: string): string {
    s[WsRun(s)..]
  }

  /** Drops the trailing whitespace of `s`. */
  function TrimEnd(s: string): string {
    s[..|s| - WsRunEnd(s)]
  }

  /** Python's `s.strip()` with no argument. */
  function Strip(s: string): string {
    TrimEnd(TrimStart(s))
  }

  /** `s.strip()` is empty exactly when every character of `s` is
      whitespace, which is how `not s.strip()` tests for a blank string. */
  lemma StripEmptyIffBlank(s: string)
    ensures Strip(s) == [] <==> AllWhitespace(s)
  {
    var n := WsRun(s);
    var t := TrimStart(s);
    if n < |s| {
      assert t[0] == s[n];
      assert WsRunEnd(t) < |t|;
    }
  }

  /** Python's `sep.join(xs)` for a one-character separator. */
  function Join(xs: seq<string>, sep: char): string
    decreases |xs|
  {
    if |xs| == 0 then ""
    else if |xs| == 1 then xs[0]
    else xs[0] + [sep] + Join(xs[1..], sep)
  }

  /** The position of the first `c` in `s`, if any. */
  function IndexOf(s: string, c: char): (r: Option<nat>)
    ensures r.Some? ==> r.value < |s| && s[r.value] == c && c !in s[..r.value]
    ensures r.None? ==> c !in s
    decreases |s|
  {
    if |s| == 0 then None
    else if s[0] == c then Some(0)
    else match IndexOf(s[1..], c)
      case None => None
      case Some(i) => Some(i + 1)
  }

  /** Python's `s.split(sep)` for a one-character separator: the pieces
      between consecutive separators, so `k` separators give `k + 1`
      pieces. */
  function Split(s: string, sep: char): seq<string>
    decreases |s|
  {
    match IndexOf(s, sep)
    case None => [s]
    case Some(i) => [s[..i]] + Split(s[i + 1..], sep)
  }

  /** Splitting undoes joining, provided no piece contains the separator
      (a single piece list is needed: `"".join([])` and `"".join([""])`
      coincide). */
  lemma {:induction false} SplitJoin(xs: seq<string>, sep: char)
    requires |xs| > 0
    requires forall i :: 0 <= i < |xs| ==> sep !in xs[i]
    ensures Split(Join(xs, sep), sep) == xs
    decreases |xs|
  {
    if |xs| == 1 {
      assert IndexOf(xs[0], sep).None?;
    } else {
      var s := Join(xs, sep);
      var rest := Join(xs[1..], sep);
      assert s == xs[0] + [sep] + rest;
      IndexOfAfterPiece(xs[0], sep, rest);
      assert s[..|xs[0]|] == xs[0];
      assert s[|xs[0]| + 1..] == rest;
      SplitJoin(xs[1..], sep);
      assert xs == [xs[0]] + xs[1..];
    }
  }

  lemma {:induction false} IndexOfAfterPiece(x: string, sep: char, rest: string)
    requires sep !in x
    ensures IndexOf(x + [sep] + rest, sep) == Some(|x|)
    decreases |x|
  {
    var s := x + [sep] + rest;
    if |x| == 0 {
      assert s[0] == sep;
    } else {
      assert s[0] == x[0];
      assert s[1..] == x[1..] + [sep] + rest;
      IndexOfAfterPiece(x[1..], sep, rest);
    }
  }

  /** Python's substring test `needle in hay`. */
  predicate Contains(hay: string, needle: string)
    decreases |hay|
  {
    needle <= hay || (|hay| > 0 && Contains(hay[1..], needle))
  }

  /** ASCII lower-casing, the case folding used for case-insensitive
      keyword matching. */
  function LowerAscii(c: char): char {
    if 'A' <= c <= 'Z' then (c as int + 32) as char else c
  }
}

/** String helpers with the exact behaviour of the JavaScript string
    operations the site uses. Strings are sequences of characters. */
module Text {
  import opened Options

  /** The characters that JavaScript's `trim()` removes and that `\s`
      matches in a regular expression: WhiteSpace and LineTerminator. */
  predicate IsWhitespace(c: char) {
    c == '\t' || c == '\n' || c == '\U{000B}' || c == '\U{000C}' || c == '\r' ||
    c == ' ' || c == '\U{00A0}' || c == '\U{1680}' || ('\U{2000}' <= c <= '\U{200A}') ||
    c == '\U{2028}' || c == '\U{2029}' || c == '\U{202F}' || c == '\U{205F}' ||
    c == '\U{3000}' || c == '\U{FEFF}'
  }

  /** Number of leading whitespace characters. */
  function LeadingWs(s: string): (n: nat)
    ensures n <= |s|
    ensures forall k :: 0 <= k < n ==> IsWhitespace(s[k])
    ensures n == |s| || !IsWhitespace(s[n])
  {
    if s == [] || !IsWhitespace(s[0]) then 0 else 1 + LeadingWs(s[1..])
  }

  /** Number of trailing whitespace characters. */
  function TrailingWs(s: string): (n: nat)
    ensures n <= |s|
    ensures forall k :: |s| - n <= k < |s| ==> IsWhitespace(s[k])
    ensures n == |s| || !IsWhitespace(s[|s| - 1 - n])
  {
    if s == [] || !IsWhitespace(s[|s| - 1]) then 0 else 1 + TrailingWs(s[..|s| - 1])
  }

  /** `s.trim()`: the substring without leading and trailing whitespace.
      Everything before it is whitespace (the leading run) and so is
      everything after it, and it neither starts nor ends with whitespace. */
  function Trim(s: string): (r: string)
    ensures |r| <= |s|
    ensures r == [] || (!IsWhitespace(r[0]) && !IsWhitespace(r[|r| - 1]))
    ensures LeadingWs(s) + |r| <= |s| && r == s[LeadingWs(s)..LeadingWs(s) + |r|]
    ensures forall k :: LeadingWs(s) + |r| <= k < |s| ==> IsWhitespace(s[k])
    ensures forall c :: c in r ==> c in s
  {
    var t := s[LeadingWs(s)..];
    var u := t[..|t| - TrailingWs(t)];
    assert u == s[LeadingWs(s)..LeadingWs(s) + |u|];
    assert forall k :: LeadingWs(s) + |u| <= k < |s| ==> s[k] == t[k - LeadingWs(s)];
    u
  }

  /** Trimming keeps a first character that is not whitespace. */
  lemma TrimFirst(r: string)
    requires r != [] && !IsWhitespace(r[0])
    ensures Trim(r) != [] && Trim(r)[0] == r[0]
  {
    assert LeadingWs(r) == 0;
    assert r[0..] == r;
    assert TrailingWs(r) < |r|;
  }

  /** Text without surrounding whitespace is left as it is. */
  lemma TrimPlain(s: string)
    requires s != [] && !IsWhitespace(s[0]) && !IsWhitespace(s[|s| - 1])
    ensures Trim(s) == s
  {
    assert LeadingWs(s) == 0;
    assert s[0..] == s;
    assert TrailingWs(s) == 0;
  }

  predicate StartsWith(s: string, p: string) {
    |p| <= |s| && s[..|p|] == p
  }

  predicate EndsWith(s: string, p: string) {
    |p| <= |s| && s[|s| - |p|..] == p
  }

  /** ASCII lower-casing: a case-insensitive regular expression without the
      `u` flag only relates ASCII letters to ASCII letters. */
  function LowerChar(c: char): char {
    if 'A' <= c <= 'Z' then (c as int + 32) as char else c
  }

  function Lower(s: string): (r: string)
    ensures |r| == |s|
    ensures forall k :: 0 <= k < |s| ==> r[k] == LowerChar(s[k])
  {
    seq(|s|, k requires 0 <= k < |s| => LowerChar(s[k]))
  }

  /** `p` occurs at position `i` of `s`, ignoring ASCII case. */
  predicate MatchesAtCI(s: string, i: nat, p: string) {
    i + |p| <= |s| && Lower(s[i..i + |p|]) == Lower(p)
  }

  predicate StartsWithCI(s: string, p: string) {
    MatchesAtCI(s, 0, p)
  }

  predicate EndsWithCI(s: string, p: string) {
    |p| <= |s| && MatchesAtCI(s, |s| - |p|, p)
  }

  /** First index `k >= from` with `s[k] == c`. */
  function IndexOfChar(s: string, c: char, from: nat): (r: Option<nat>)
    decreases |s| - from
    ensures r.Some? ==> from <= r.value < |s| && s[r.value] == c
    ensures r.Some? ==> forall k :: from <= k < r.value ==> s[k] != c
    ensures r.None? ==> forall k :: from <= k < |s| ==> s[k] != c
  {
    if from >= |s| then None
    else if s[from] == c then Some(from)
    else IndexOfChar(s, c, from + 1)
  }

  /** First index `k >= from` where `p` occurs, ignoring ASCII case. */
  function IndexOfCI(s: string, p: string, from: nat): (r: Option<nat>)
    decreases |s| - from
    ensures r.Some? ==> from <= r.value && MatchesAtCI(s, r.value, p)
    ensures r.Some? ==> forall k :: from <= k < r.value ==> !MatchesAtCI(s, k, p)
    ensures r.None? ==> forall k :: from <= k ==> !MatchesAtCI(s, k, p)
  {
    if from + |p| > |s| then None
    else if MatchesAtCI(s, from, p) then Some(from)
    else IndexOfCI(s, p, from + 1)
  }

  /** `p` occurs at position `i` of `s`. */
  predicate MatchesAt(s: string, i: nat, p: string) {
    i + |p| <= |s| && s[i..i + |p|] == p
  }

  /** First index where `p` occurs exactly. */
  function IndexOf(s: string, p: string): (r: Option<nat>)
    ensures r.Some? ==> MatchesAt(s, r.value, p)
    ensures r.Some? ==> forall k :: 0 <= k < r.value ==> !MatchesAt(s, k, p)
    ensures r.None? ==> forall k :: 0 <= k ==> !MatchesAt(s, k, p)
  {
    IndexOfFrom(s, p, 0)
  }

  function IndexOfFrom(s: string, p: string, from: nat): (r: Option<nat>)
    decreases |s| - from
    ensures r.Some? ==> from <= r.value && MatchesAt(s, r.value, p)
    ensures r.Some? ==> forall k :: from <= k < r.value ==> !MatchesAt(s, k, p)
    ensures r.None? ==> forall k :: from <= k ==> !MatchesAt(s, k, p)
  {
    if from + |p| > |s| then None
    else if MatchesAt(s, from, p) then Some(from)
    else IndexOfFrom(s, p, from + 1)
  }

  /** The first position from which `p` occurs is what IndexOfFrom
      returns. */
  lemma {:induction false} IndexOfFromFirst(s: string, p: string, from: nat, i: nat)
    requires from <= i && MatchesAt(s, i, p)
    requires forall k :: from <= k < i ==> !MatchesAt(s, k, p)
    ensures IndexOfFrom(s, p, from) == Some(i)
    decreases i - from
  {
    if from < i {
      IndexOfFromFirst(s, p, from + 1, i);
    }
  }

  /** The first position from which `p` occurs, ignoring case, is what
      IndexOfCI returns. */
  lemma {:induction false} IndexOfCIFirst(s: string, p: string, from: nat, i: nat)
    requires from <= i && MatchesAtCI(s, i, p)
    requires forall k :: from <= k < i ==> !MatchesAtCI(s, k, p)
    ensures IndexOfCI(s, p, from) == Some(i)
    decreases i - from
  {
    if from < i {
      IndexOfCIFirst(s, p, from + 1, i);
    }
  }

  /** `s.replace(p, w)` with a string pattern: only the first occurrence is
      replaced (the replacement strings used here hold no `$`). */
  function ReplaceFirst(s: string, p: string, w: string): (r: string)
    ensures IndexOf(s, p).None? ==> r == s
    ensures IndexOf(s, p).Some? ==>
      var i := IndexOf(s, p).value; r == s[..i] + w + s[i + |p|..]
  {
    match IndexOf(s, p)
    case None => s
    case Some(i) => s[..i] + w + s[i + |p|..]
  }

  /** The first element of `s.split(c)`: the text before the first `c`. */
  function BeforeChar(s: string, c: char): (r: string)
    ensures c !in r
    ensures StartsWith(s, r)
    ensures c !in s ==> r == s
    ensures c in s ==> |r| < |s| && s[|r|] == c
  {
    match IndexOfChar(s, c, 0)
    case None => s
    case Some(i) => s[..i]
  }

  /** The second element of `s.split(c)`, or `''` when `c` does not occur:
      the text between the first and the second `c`. */
  function SecondPiece(s: string, c: char): (r: string)
    ensures c !in r
    ensures c !in s ==> r == ""
    ensures c in s ==> StartsWith(s[|BeforeChar(s, c)| + 1..], r)
    ensures c in s ==> var e := |BeforeChar(s, c)| + 1 + |r|; e == |s| || s[e] == c
  {
    match IndexOfChar(s, c, 0)
    case None => ""
    case Some(i) => BeforeChar(s[i + 1..], c)
  }

  /** `s.split(c)` with a one-character separator: the pieces between the
      occurrences of `c`, empty ones included. */
  function Split(s: string, c: char): (r: seq<string>)
    decreases |s|
    ensures |r| >= 1
    ensures forall k :: 0 <= k < |r| ==> c !in r[k]
    ensures r[0] == BeforeChar(s, c)
    ensures Join(r, c) == s
  {
    match IndexOfChar(s, c, 0)
    case None => [s]
    case Some(i) =>
      var rest := Split(s[i + 1..], c);
      assert s == s[..i] + [c] + s[i + 1..];
      assert ([s[..i]] + rest)[1..] == rest;
      [s[..i]] + rest
  }

  /** `pieces.join(c)`: the pieces with one `c` between neighbours. */
  function Join(pieces: seq<string>, c: char): string
    requires |pieces| >= 1
  {
    if |pieces| == 1 then pieces[0] else pieces[0] + [c] + Join(pieces[1..], c)
  }

  /** `xs.filter(Boolean)` on strings: the non-empty ones, in order. */
  function NonEmpty(xs: seq<string>): (r: seq<string>)
    ensures |r| <= |xs|
    ensures forall x :: x in r <==> x in xs && x != ""
    ensures xs != [] && xs[0] != "" ==> r != [] && r[0] == xs[0]
    ensures xs != [] && xs[0] == "" ==> r == NonEmpty(xs[1..])
  {
    if xs == [] then [] else (if xs[0] != "" then [xs[0]] else []) + NonEmpty(xs[1..])
  }

  /** Filtering distributes over concatenation, so the kept strings stay in
      their order. */
  lemma {:induction false} NonEmptyAppend(a: seq<string>, b: seq<string>)
    ensures NonEmpty(a + b) == NonEmpty(a) + NonEmpty(b)
  {
    if a == [] {
      assert a + b == b;
    } else {
      assert (a + b)[0] == a[0];
      assert (a + b)[1..] == a[1..] + b;
      NonEmptyAppend(a[1..], b);
    }
  }

  /** `s.split('/').filter(Boolean)`: the path segments. */
  function Segments(s: string): seq<string> {
    NonEmpty(Split(s, '/'))
  }

  /** The first segment of `/seg` or `/seg/…` is `seg`. */
  lemma FirstSegment(seg: string, rest: string)
    requires seg != "" && '/' !in seg
    requires rest == "" || rest[0] == '/'
    ensures Segments("/" + seg + rest) != [] && Segments("/" + seg + rest)[0] == seg
  {
    var s := "/" + seg + rest;
    assert s[0] == '/';
    assert s[1..] == seg + rest;
    assert Split(s, '/') == [""] + Split(seg + rest, '/');
    var t := seg + rest;
    assert t[..|seg|] == seg;
    if rest != "" {
      assert t[|seg|] == '/';
    }
    assert forall k :: 0 <= k < |seg| ==> t[k] == seg[k];
    assert BeforeChar(t, '/') == seg;
  }

  function DigitChar(d: nat): (c: char)
    requires d < 10
    ensures '0' <= c <= '9'
  {
    ('0' as int + d) as char
  }

  /** The number a string of decimal digits denotes. */
  function DigitsValue(s: string): nat
    requires forall k :: 0 <= k < |s| ==> '0' <= s[k] <= '9'
  {
    if s == [] then 0 else 10 * DigitsValue(s[..|s| - 1]) + (s[|s| - 1] as int - '0' as int)
  }

  /** `n.toString()` for a non-negative integer: a string of decimal digits
      (DecimalValue: the digits denote `n`, without a leading zero). */
  function Decimal(n: nat): (r: string)
    ensures |r| >= 1 && (|r| == 1 <==> n < 10)
    ensures forall k :: 0 <= k < |r| ==> '0' <= r[k] <= '9'
  {
    if n < 10 then [DigitChar(n)]
    else
      var d := Decimal(n / 10);
      var r := d + [DigitChar(n % 10)];
      assert r[..|r| - 1] == d;
      r
  }

  /** The numeral denotes `n` and has no leading zero. */
  lemma {:induction false} DecimalValue(n: nat)
    ensures DigitsValue(Decimal(n)) == n
    ensures Decimal(n)[0] == '0' ==> n == 0
  {
    if n >= 10 {
      DecimalValue(n / 10);
      var d := Decimal(n / 10);
      var r := Decimal(n);
      assert r[..|r| - 1] == d;
      assert r[0] == d[0];
    }
  }

  lemma {:induction false} DecimalInjective(m: nat, n: nat)
    requires Decimal(m) == Decimal(n)
    ensures m == n
  {
    var dm, dn := Decimal(m), Decimal(n);
    if m >= 10 && n >= 10 {
      assert dm[..|dm| - 1] == Decimal(m / 10);
      assert dn[..|dn| - 1] == Decimal(n / 10);
      DecimalInjective(m / 10, n / 10);
      assert DigitChar(m % 10) == dm[|dm| - 1] == dn[|dn| - 1] == DigitChar(n % 10);
    }
  }

  /** No value occurs twice. */
  predicate NoDup<T(==)>(s: seq<T>) {
    forall i, j :: 0 <= i < j < |s| ==> s[i] != s[j]
  }
}

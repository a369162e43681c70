/**
 * The `Authorization: Bearer <token>` header scheme of section 2.1 of
 * RFC 6750, as the service parses it: the header is split on single spaces
 * like a JavaScript `split(' ')`, and only the first two parts are looked at.
 */
module Tokens {
  import opened Schemas

  /** The position of the first `c` in `s`, or |s| when there is none. */
  function FirstIndex(s: string, c: char): (r: nat)
    ensures r <= |s|
    ensures r < |s| ==> s[r] == c
    ensures forall i :: 0 <= i < r ==> s[i] != c
  {
    if s == [] then 0
    else if s[0] == c then 0
    else 1 + FirstIndex(s[1..], c)
  }

  /**
   * `s.split(sep)`: the maximal runs between separators, so two adjacent
   * separators give an empty part and there is always at least one part.
   */
  function Split(s: string, sep: char): (parts: seq<string>)
    ensures |parts| >= 1
    ensures forall i :: 0 <= i < |parts| ==> sep !in parts[i]
    decreases |s|
  {
    var k := FirstIndex(s, sep);
    if k == |s| then [s]
    else [s[..k]] + Split(s[k + 1..], sep)
  }

  /** `parts.join(sep)`, the inverse of `Split`. */
  function Join(parts: seq<string>, sep: char): string
    requires |parts| >= 1
  {
    if |parts| == 1 then parts[0]
    else parts[0] + [sep] + Join(parts[1..], sep)
  }

  lemma JoinCons(a: string, rest: seq<string>, sep: char)
    requires |rest| >= 1
    ensures Join([a] + rest, sep) == a + [sep] + Join(rest, sep)
  {
    assert ([a] + rest)[1..] == rest;
  }

  lemma {:induction false} JoinSplit(s: string, sep: char)
    ensures Join(Split(s, sep), sep) == s
    decreases |s|
  {
    var k := FirstIndex(s, sep);
    if k < |s| {
      SplitAt(s, sep, k);
      JoinSplit(s[k + 1..], sep);
      JoinCons(s[..k], Split(s[k + 1..], sep), sep);
      assert s == s[..k] + [sep] + s[k + 1..];
    }
  }

  lemma {:induction false} SplitJoin(parts: seq<string>, sep: char)
    requires |parts| >= 1
    requires forall i :: 0 <= i < |parts| ==> sep !in parts[i]
    ensures Split(Join(parts, sep), sep) == parts
    decreases |parts|
  {
    if |parts| == 1 {
      assert FirstIndex(parts[0], sep) == |parts[0]|;
    } else {
      SplitJoinHead(parts, sep);
      SplitJoin(parts[1..], sep);
      assert parts == [parts[0]] + parts[1..];
    }
  }

  /** Splitting a join peels off its first part. */
  lemma SplitJoinHead(parts: seq<string>, sep: char)
    requires |parts| >= 2 && sep !in parts[0]
    ensures Split(Join(parts, sep), sep) == [parts[0]] + Split(Join(parts[1..], sep), sep)
  {
    var s := Join(parts, sep);
    var a, rest := parts[0], Join(parts[1..], sep);
    assert s == a + [sep] + rest;
    assert forall i :: 0 <= i < |a| ==> s[i] == a[i];
    SplitAt(s, sep, |a|);
    assert s[..|a|] == a;
    assert s[|a| + 1..] == rest;
  }

  /** The first `c` of a + b lies in b when a holds none. */
  lemma {:induction false} FirstIndexAfterFreeRun(a: string, c: char, b: string)
    requires c !in a && |b| > 0 && b[0] == c
    ensures FirstIndex(a + b, c) == |a|
    decreases |a|
  {
    if a != [] {
      assert (a + b)[1..] == a[1..] + b;
      FirstIndexAfterFreeRun(a[1..], c, b);
    }
  }

  /**
   * `getToken`: a missing or empty header is refused as "Token is required";
   * otherwise the first part must be exactly "Bearer" and the second must
   * exist and be non-empty, or the header is refused as "Invalid token".
   */
  function GetToken(authorization: Option<string>): (r: Result<string>)
    ensures authorization.None? || authorization.value == "" ==> r == Err(Error(Unauthorized, TokenRequired))
    ensures r.Err? ==> r.error.kind == Unauthorized
    ensures authorization.Some? && authorization.value != "" && r.Err? ==> r.error == Error(Unauthorized, InvalidToken)
    ensures r.Ok? ==> r.value != "" && ' ' !in r.value
  {
    if authorization.None? || authorization.value == "" then Err(Error(Unauthorized, TokenRequired))
    else
      var parts := Split(authorization.value, ' ');
      if parts[0] != "Bearer" || |parts| < 2 || parts[1] == "" then Err(Error(Unauthorized, InvalidToken))
      else Ok(parts[1])
  }

  const Scheme := "Bearer "

  /** `h` is "Bearer ", then `v`, then the end of the header or another space. */
  predicate CarriesToken(h: string, v: string) {
    && |h| >= |Scheme| + |v|
    && h[..|Scheme| + |v|] == Scheme + v
    && (|h| == |Scheme| + |v| || h[|Scheme| + |v|] == ' ')
  }

  /** The first two parts of a split, in terms of the string. */
  lemma SplitHead(s: string, sep: char)
    ensures var k := FirstIndex(s, sep); var parts := Split(s, sep);
      && parts[0] == s[..k]
      && (|parts| >= 2 <==> k < |s|)
      && (k < |s| ==> parts[1] == s[k + 1..][..FirstIndex(s[k + 1..], sep)])
  {
    var k := FirstIndex(s, sep);
    if k < |s| {
      var rest := s[k + 1..];
      assert Split(s, sep) == [s[..k]] + Split(rest, sep);
    }
  }

  /** What `getToken` returns is the token of a "Bearer " header. */
  lemma GetTokenSound(h: string, v: string)
    requires GetToken(Some(h)) == Ok(v)
    ensures CarriesToken(h, v)
  {
    SplitHead(h, ' ');
    var k := FirstIndex(h, ' ');
    assert h[..k] == "Bearer";
    var rest := h[k + 1..];
    SplitHead(rest, ' ');
    var m := FirstIndex(rest, ' ');
    assert v == rest[..m];
    assert h[..7 + |v|] == h[..7] + rest[..m];
  }

  /** A split whose first separator is at `k`. */
  lemma SplitAt(s: string, sep: char, k: nat)
    requires k < |s| && s[k] == sep && forall i :: 0 <= i < k ==> s[i] != sep
    ensures Split(s, sep) == [s[..k]] + Split(s[k + 1..], sep)
  {
    FirstIndexIs(s, sep, k);
  }

  lemma FirstIndexIs(s: string, c: char, k: nat)
    requires k < |s| && s[k] == c && forall i :: 0 <= i < k ==> s[i] != c
    ensures FirstIndex(s, c) == k
  {
  }

  /** The characters of a "Bearer " prefix. */
  lemma SchemeChars(h: string)
    requires |h| >= |Scheme| && h[..|Scheme|] == Scheme
    ensures h[..6] == "Bearer" && h[6] == ' '
    ensures forall i :: 0 <= i < 6 ==> h[i] != ' '
  {
    assert h[..6] == h[..|Scheme|][..6];
    assert forall i :: 0 <= i < 6 ==> h[i] == h[..6][i];
  }

  /** A header that starts with "Bearer " splits into "Bearer" and the parts of the rest. */
  lemma SchemeSplit(h: string)
    requires |h| >= |Scheme| && h[..|Scheme|] == Scheme
    ensures Split(h, ' ') == ["Bearer"] + Split(h[|Scheme|..], ' ')
  {
    SchemeChars(h);
    SplitAt(h, ' ', 6);
  }

  /** A string that starts with a space-free `v`, followed by a space or nothing, has `v` as its first part. */
  lemma FirstPart(rest: string, v: string)
    requires ' ' !in v && |rest| >= |v| && rest[..|v|] == v && (|rest| == |v| || rest[|v|] == ' ')
    ensures Split(rest, ' ')[0] == v
  {
    SplitHead(rest, ' ');
    if |rest| == |v| {
      assert rest == v;
    } else {
      assert rest == v + rest[|v|..];
      FirstIndexAfterFreeRun(v, ' ', rest[|v|..]);
    }
  }

  /** How a "Bearer " header splits. */
  lemma BearerParts(h: string, v: string)
    requires v != "" && ' ' !in v && CarriesToken(h, v)
    ensures var parts := Split(h, ' ');
      |parts| >= 2 && parts[0] == "Bearer" && parts[1] == v
  {
    assert h[..|Scheme|] == Scheme by {
      assert h[..|Scheme|] == h[..|Scheme| + |v|][..|Scheme|];
    }
    SchemeSplit(h);
    var rest := h[|Scheme|..];
    assert rest[..|v|] == v by {
      assert rest[..|v|] == h[..|Scheme| + |v|][|Scheme|..];
    }
    FirstPart(rest, v);
  }

  /** A "Bearer " header with a non-empty token without spaces yields that token. */
  lemma GetTokenComplete(h: string, v: string)
    requires v != "" && ' ' !in v && CarriesToken(h, v)
    ensures GetToken(Some(h)) == Ok(v)
  {
    BearerParts(h, v);
  }

  /**
   * Exactly the headers "Bearer <v>", possibly followed by a space and
   * anything, yield `v`, for a non-empty `v` without spaces.
   */
  lemma GetTokenAccepts(h: string, v: string)
    ensures GetToken(Some(h)) == Ok(v) <==> v != "" && ' ' !in v && CarriesToken(h, v)
  {
    if GetToken(Some(h)) == Ok(v) {
      GetTokenSound(h, v);
    }
    if v != "" && ' ' !in v && CarriesToken(h, v) {
      GetTokenComplete(h, v);
    }
  }

  /** Extra parts after the token are ignored. */
  lemma GetTokenIgnoresExtraParts(v: string, extra: string)
    requires v != "" && ' ' !in v
    ensures GetToken(Some(Scheme + v + " " + extra)) == Ok(v)
  {
    var h := Scheme + v + " " + extra;
    assert h[..|Scheme| + |v|] == Scheme + v;
    assert h[|Scheme| + |v|] == ' ';
    GetTokenAccepts(h, v);
  }
}

/** The JavaScript string primitives the editor relies on: `String.prototype.includes`,
    the first match of the small regular expressions it uses (`/p(.*?)c/` and
    `/p([a-zA-Z0-9-]+)/`), `split` on one character and the decimal rendering of an
    integer inside a template string. */
module Text {
  import opened Wrappers

  /** The characters that the regular-expression `.` does not match. */
  predicate IsLineTerminator(c: char) {
    c == '\n' || c == '\r' || c == '\U{2028}' || c == '\U{2029}'
  }

  /** The character class `[a-zA-Z0-9-]`. */
  predicate IsTokenChar(c: char) {
    ('a' <= c <= 'z') || ('A' <= c <= 'Z') || ('0' <= c <= '9') || c == '-'
  }

  predicate IsTokenString(s: string) {
    forall k :: 0 <= k < |s| ==> IsTokenChar(s[k])
  }

  /** ASCII lower-casing of one character: a capital letter becomes its small
      letter, every other character is kept. */
  function LowerAscii(c: char): (r: char)
    ensures 'A' <= c <= 'Z' ==> r as int == c as int + 32
    ensures !('A' <= c <= 'Z') ==> r == c
  {
    if 'A' <= c <= 'Z' then (c as int + 32) as char else c
  }

  // ---------------------------------------------------------------------------
  // Occurrence of a pattern

  /** The suffix p[k..] of p occurs in s at index i + k (compared one character at a time). */
  predicate MatchesFrom(s: string, p: string, i: nat, k: nat)
    decreases |p| - k
  {
    k >= |p| || (i + k < |s| && s[i + k] == p[k] && MatchesFrom(s, p, i, k + 1))
  }

  /** p occurs in s starting at index i. */
  predicate OccursAt(s: string, p: string, i: nat) {
    i + |p| <= |s| && MatchesFrom(s, p, i, 0)
  }

  lemma {:induction false} MatchesFromSlice(s: string, p: string, i: nat, k: nat)
    requires i + |p| <= |s| && k <= |p|
    ensures MatchesFrom(s, p, i, k) <==> s[i + k..i + |p|] == p[k..]
    decreases |p| - k
  {
    if k < |p| {
      MatchesFromSlice(s, p, i, k + 1);
      assert s[i + k..i + |p|] == [s[i + k]] + s[i + k + 1..i + |p|];
      assert p[k..] == [p[k]] + p[k + 1..];
    }
  }

  /** Occurrence is slice equality. */
  lemma OccursAtSlice(s: string, p: string, i: nat)
    ensures OccursAt(s, p, i) <==> i + |p| <= |s| && s[i..i + |p|] == p
  {
    if i + |p| <= |s| {
      MatchesFromSlice(s, p, i, 0);
    }
  }

  /** An occurrence fixes every character of the window it covers. */
  lemma OccursAtChar(s: string, p: string, i: nat, q: nat)
    requires OccursAt(s, p, i) && q < |p|
    ensures s[i + q] == p[q]
  {
    OccursAtSlice(s, p, i);
    assert s[i..i + |p|][q] == p[q];
  }

  /** Characters that cannot be part of a pattern's occurrence. */
  lemma NotOccursAt(s: string, p: string, j: nat, q: nat)
    requires q < |p| && (j + q >= |s| || s[j + q] != p[q])
    ensures !OccursAt(s, p, j)
  {
    if OccursAt(s, p, j) {
      OccursAtChar(s, p, j, q);
    }
  }

  /** A pattern found in a prefix of a string is found in the string at the same index. */
  lemma OccursInPrefix(a: string, b: string, p: string, i: nat)
    ensures OccursAt(a, p, i) ==> OccursAt(a + b, p, i)
    ensures i + |p| <= |a| ==> (OccursAt(a + b, p, i) <==> OccursAt(a, p, i))
  {
    OccursAtSlice(a, p, i);
    OccursAtSlice(a + b, p, i);
    if i + |p| <= |a| {
      assert (a + b)[i..i + |p|] == a[i..i + |p|];
    }
  }

  /** An occurrence of p + q is an occurrence of p. */
  lemma OccursAtPrefixOfPattern(s: string, p: string, q: string, i: nat)
    requires OccursAt(s, p + q, i)
    ensures OccursAt(s, p, i)
  {
    OccursAtSlice(s, p + q, i);
    OccursAtSlice(s, p, i);
    assert s[i..i + |p|] == s[i..i + |p + q|][..|p|];
    assert (p + q)[..|p|] == p;
  }

  /** The middle piece of a concatenation occurs where it was put. */
  lemma OccursAtJoin(x: string, y: string, z: string)
    ensures OccursAt(x + y + z, y, |x|)
  {
    OccursAtSlice(x + y + z, y, |x|);
    assert (x + y + z)[|x|..|x| + |y|] == y;
  }

  /** A string that begins with p contains p. */
  lemma ContainsFront(p: string, x: string, y: string, z: string)
    ensures Contains(p + x + y + z, p)
  {
    OccursAtJoin([], p, x + y + z);
    assert [] + p + (x + y + z) == p + x + y + z;
    ContainsIff(p + x + y + z, p, 0);
  }

  /** The index of the first occurrence of p in s at or after `from`. */
  function IndexOf(s: string, p: string, from: nat): (r: Option<nat>)
    decreases |s| - from
    ensures r.Some? ==> from <= r.value && OccursAt(s, p, r.value)
    ensures r.Some? ==> forall j :: from <= j < r.value ==> !OccursAt(s, p, j)
    ensures r.None? ==> forall j :: from <= j ==> !OccursAt(s, p, j)
  {
    if from + |p| > |s| then None
    else if OccursAt(s, p, from) then Some(from)
    else IndexOf(s, p, from + 1)
  }

  /** `s.includes(p)`. */
  predicate Contains(s: string, p: string) {
    IndexOf(s, p, 0).Some?
  }

  /** `includes` holds exactly when the pattern occurs somewhere. */
  lemma ContainsIff(s: string, p: string, i: nat)
    ensures OccursAt(s, p, i) ==> Contains(s, p)
    ensures Contains(s, p) ==> OccursAt(s, p, IndexOf(s, p, 0).value)
  {
  }

  /** A string that lacks one of the pattern's characters does not contain the pattern. */
  lemma MissingCharNotContained(s: string, p: string, q: nat)
    requires q < |p| && p[q] !in s
    ensures !Contains(s, p)
  {
    if Contains(s, p) {
      var i := IndexOf(s, p, 0).value;
      OccursAtChar(s, p, i, q);
    }
  }

  /** A string in which two adjacent characters of the pattern never stand side by
      side does not contain the pattern. */
  lemma MissingPairNotContained(s: string, p: string, q: nat)
    requires q + 1 < |p|
    requires forall m :: 0 <= m < |s| - 1 ==> s[m] != p[q] || s[m + 1] != p[q + 1]
    ensures !Contains(s, p)
  {
    if Contains(s, p) {
      var i := IndexOf(s, p, 0).value;
      OccursAtChar(s, p, i, q);
      OccursAtChar(s, p, i, q + 1);
    }
  }

  /** Whoever contains p + q contains p. */
  lemma ContainsPrefixOfPattern(s: string, p: string, q: string)
    requires Contains(s, p + q)
    ensures Contains(s, p)
  {
    OccursAtPrefixOfPattern(s, p, q, IndexOf(s, p + q, 0).value);
  }

  // ---------------------------------------------------------------------------
  // The first match of /open(.*?)close/

  /** No `close` and no line terminator in s[a..b]. */
  predicate Clean(s: string, close: char, a: nat, b: nat)
    requires b <= |s|
  {
    forall m :: a <= m < b ==> s[m] != close && !IsLineTerminator(s[m])
  }

  /** Where a lazy group `(.*?)close` that starts at k ends: the first `close` at or
      after k, provided no line terminator comes first. */
  function CloseIndex(s: string, close: char, k: nat): (r: Option<nat>)
    decreases |s| - k
    ensures r.Some? ==> k <= r.value < |s| && s[r.value] == close && Clean(s, close, k, r.value)
    ensures r.None? ==> forall j :: k <= j < |s| && s[j] == close ==> !Clean(s, close, k, j)
  {
    if k >= |s| then None
    else if s[k] == close then Some(k)
    else if IsLineTerminator(s[k]) then None
    else CloseIndex(s, close, k + 1)
  }

  /** The lazy pattern matches at i. */
  predicate LazyMatchAt(s: string, open: string, close: char, i: nat) {
    OccursAt(s, open, i) && CloseIndex(s, close, i + |open|).Some?
  }

  /** The index of the first match of /open(.*?)close/ at or after `from`. */
  function LazyMatch(s: string, open: string, close: char, from: nat): (r: Option<nat>)
    decreases |s| - from
    ensures r.Some? ==> from <= r.value && LazyMatchAt(s, open, close, r.value)
    ensures r.Some? ==> forall j :: from <= j < r.value ==> !LazyMatchAt(s, open, close, j)
    ensures r.None? ==> forall j :: from <= j ==> !LazyMatchAt(s, open, close, j)
  {
    if from + |open| > |s| then None
    else if LazyMatchAt(s, open, close, from) then Some(from)
    else LazyMatch(s, open, close, from + 1)
  }

  /** `s.match(/open(.*?)close/)?.[1]`: the captured text of the first match. */
  function LazyGroup(s: string, open: string, close: char): (r: Option<string>)
    ensures r.None? <==> forall j :: !LazyMatchAt(s, open, close, j)
    ensures r.Some? ==> close !in r.value && forall m :: 0 <= m < |r.value| ==> !IsLineTerminator(r.value[m])
  {
    match LazyMatch(s, open, close, 0)
    case None => None
    case Some(i) =>
      var e := CloseIndex(s, close, i + |open|).value;
      var g := s[i + |open|..e];
      assert forall m :: 0 <= m < |g| ==> g[m] == s[i + |open| + m];
      Some(g)
  }

  /** A close character reached through clean text is where the lazy group ends. */
  lemma {:induction false} CloseIndexAt(s: string, close: char, k: nat, j: nat)
    requires k <= j < |s| && s[j] == close && Clean(s, close, k, j)
    ensures CloseIndex(s, close, k) == Some(j)
    decreases j - k
  {
    if k < j {
      CloseIndexAt(s, close, k + 1, j);
    }
  }

  /** The first place where the lazy pattern matches is the match `LazyMatch` finds. */
  lemma LazyMatchFirst(s: string, open: string, close: char, i: nat)
    requires LazyMatchAt(s, open, close, i)
    requires forall j: nat :: j < i ==> !OccursAt(s, open, j)
    ensures LazyMatch(s, open, close, 0) == Some(i)
  {
  }

  /** The group of a match is the text between the opening pattern and the close character. */
  lemma LazyGroupAt(s: string, open: string, close: char, i: nat, e: nat)
    requires OccursAt(s, open, i) && i + |open| <= e < |s| && s[e] == close
    requires Clean(s, close, i + |open|, e)
    requires forall j: nat :: j < i ==> !OccursAt(s, open, j)
    ensures LazyGroup(s, open, close) == Some(s[i + |open|..e])
  {
    CloseIndexAt(s, close, i + |open|, e);
    LazyMatchFirst(s, open, close, i);
  }

  /** A lazy group right at the front of the string captures the text up to the close character. */
  lemma LazyGroupFront(open: string, c: string, close: char, rest: string)
    requires close !in c && forall m :: 0 <= m < |c| ==> !IsLineTerminator(c[m])
    ensures LazyGroup(open + c + [close] + rest, open, close) == Some(c)
  {
    var v := open + c + [close] + rest;
    OccursAtSlice(v, open, 0);
    assert v[0..|open|] == open;
    forall m | |open| <= m < |open| + |c| ensures v[m] != close && !IsLineTerminator(v[m]) {
      assert v[m] == c[m - |open|];
    }
    LazyGroupAt(v, open, close, 0, |open| + |c|);
    assert v[|open|..|open| + |c|] == c;
  }

  /** Without any close character there is no lazy match. */
  lemma LazyGroupUnclosed(s: string, open: string, close: char)
    requires close !in s
    ensures LazyGroup(s, open, close).None?
  {
    forall j: nat ensures !LazyMatchAt(s, open, close, j) {
      assert forall k :: 0 <= k < |s| ==> s[k] != close;
    }
  }

  // ---------------------------------------------------------------------------
  // The first match of /open([a-zA-Z0-9-]+)/

  /** The end of the longest run of token characters that starts at k. */
  function TokenRunEnd(s: string, k: nat): (r: nat)
    requires k <= |s|
    decreases |s| - k
    ensures k <= r <= |s|
    ensures forall m :: k <= m < r ==> IsTokenChar(s[m])
    ensures r == |s| || !IsTokenChar(s[r])
  {
    if k == |s| || !IsTokenChar(s[k]) then k else TokenRunEnd(s, k + 1)
  }

  /** The greedy token pattern matches at i. */
  predicate TokenMatchAt(s: string, open: string, i: nat) {
    OccursAt(s, open, i) && i + |open| < |s| && IsTokenChar(s[i + |open|])
  }

  /** The index of the first match of /open([a-zA-Z0-9-]+)/ at or after `from`. */
  function TokenMatch(s: string, open: string, from: nat): (r: Option<nat>)
    decreases |s| - from
    ensures r.Some? ==> from <= r.value && TokenMatchAt(s, open, r.value)
    ensures r.Some? ==> forall j :: from <= j < r.value ==> !TokenMatchAt(s, open, j)
    ensures r.None? ==> forall j :: from <= j ==> !TokenMatchAt(s, open, j)
  {
    if from + |open| >= |s| then None
    else if TokenMatchAt(s, open, from) then Some(from)
    else TokenMatch(s, open, from + 1)
  }

  /** `s.match(/open([a-zA-Z0-9-]+)/)?.[1]`: the captured run of the first match. */
  function TokenGroup(s: string, open: string): (r: Option<string>)
    ensures r.None? <==> forall j :: !TokenMatchAt(s, open, j)
    ensures r.Some? ==> |r.value| > 0 && IsTokenString(r.value)
  {
    match TokenMatch(s, open, 0)
    case None => None
    case Some(i) =>
      var g := s[i + |open|..TokenRunEnd(s, i + |open|)];
      assert forall m :: 0 <= m < |g| ==> g[m] == s[i + |open| + m];
      Some(g)
  }

  /** A token run that ends at a non-token character or at the end is what the group captures. */
  lemma {:induction false} TokenRunEndAt(s: string, k: nat, e: nat)
    requires k <= e <= |s|
    requires forall m :: k <= m < e ==> IsTokenChar(s[m])
    requires e == |s| || !IsTokenChar(s[e])
    ensures TokenRunEnd(s, k) == e
    decreases e - k
  {
    if k < e {
      TokenRunEndAt(s, k + 1, e);
    }
  }

  lemma TokenGroupAt(s: string, open: string, i: nat, e: nat)
    requires OccursAt(s, open, i) && i + |open| < e <= |s|
    requires forall m :: i + |open| <= m < e ==> IsTokenChar(s[m])
    requires e == |s| || !IsTokenChar(s[e])
    requires forall j: nat :: j < i ==> !OccursAt(s, open, j)
    ensures TokenGroup(s, open) == Some(s[i + |open|..e])
  {
    TokenRunEndAt(s, i + |open|, e);
    assert TokenMatchAt(s, open, i) by {
      assert IsTokenChar(s[i + |open|]);
    }
  }

  // ---------------------------------------------------------------------------
  // split on one character

  /** `s.split(sep)`: the pieces between occurrences of the separator, in order. */
  function Split(s: string, sep: char): (r: seq<string>)
    decreases |s|
    ensures |r| >= 1
    ensures forall k :: 0 <= k < |r| ==> sep !in r[k]
  {
    if |s| == 0 then [""]
    else
      var rest := Split(s[1..], sep);
      if s[0] == sep then [""] + rest
      else [[s[0]] + rest[0]] + rest[1..]
  }

  /** `parts.join(sep)`. */
  function Join(parts: seq<string>, sep: char): string
    requires |parts| >= 1
    decreases |parts|
  {
    if |parts| == 1 then parts[0] else parts[0] + [sep] + Join(parts[1..], sep)
  }

  lemma JoinConsHead(parts: seq<string>, c: char, sep: char)
    requires |parts| >= 1
    ensures Join([[c] + parts[0]] + parts[1..], sep) == [c] + Join(parts, sep)
  {
    var ps := [[c] + parts[0]] + parts[1..];
    assert ps[1..] == parts[1..];
  }

  /** Joining the pieces with the separator gives the string back. */
  lemma {:induction false} JoinSplit(s: string, sep: char)
    ensures Join(Split(s, sep), sep) == s
    decreases |s|
  {
    if |s| > 0 {
      var rest := Split(s[1..], sep);
      JoinSplit(s[1..], sep);
      if s[0] == sep {
        assert ([""] + rest)[1..] == rest;
      } else {
        JoinConsHead(rest, s[0], sep);
      }
      assert s == [s[0]] + s[1..];
    }
  }

  /** A leading non-separator character joins the first piece. */
  lemma SplitCons(c: char, u: string, sep: char)
    requires c != sep
    ensures Split([c] + u, sep) == [[c] + Split(u, sep)[0]] + Split(u, sep)[1..]
  {
    assert ([c] + u)[1..] == u;
  }

  /** A piece without separator is carried whole into the first piece of the split. */
  lemma {:induction false} SplitPrefix(a: string, t: string, sep: char)
    requires sep !in a
    ensures Split(a + t, sep) == [a + Split(t, sep)[0]] + Split(t, sep)[1..]
    decreases |a|
  {
    var r := Split(t, sep);
    if |a| > 0 {
      var u := a[1..] + t;
      assert a + t == [a[0]] + u;
      SplitCons(a[0], u, sep);
      SplitPrefix(a[1..], t, sep);
      assert [a[0]] + (a[1..] + r[0]) == a + r[0];
    } else {
      assert a + t == t && a + r[0] == r[0];
      assert r == [r[0]] + r[1..];
    }
  }

  /** Splitting the join of separator-free pieces gives the pieces back. */
  lemma {:induction false} SplitJoin(parts: seq<string>, sep: char)
    requires |parts| >= 1
    requires forall k :: 0 <= k < |parts| ==> sep !in parts[k]
    ensures Split(Join(parts, sep), sep) == parts
    decreases |parts|
  {
    if |parts| == 1 {
      SplitPrefix(parts[0], "", sep);
      assert parts[0] + "" == parts[0];
    } else {
      var t := [sep] + Join(parts[1..], sep);
      SplitJoin(parts[1..], sep);
      assert Split(t, sep) == [""] + parts[1..] by {
        assert t[1..] == Join(parts[1..], sep);
      }
      SplitPrefix(parts[0], t, sep);
      assert parts[0] + [sep] + Join(parts[1..], sep) == parts[0] + t;
      assert Split(t, sep)[0] == "" && Split(t, sep)[1..] == parts[1..];
      assert parts[0] + "" == parts[0];
      assert parts == [parts[0]] + parts[1..];
    }
  }

  // ---------------------------------------------------------------------------
  // Decimal rendering of integers, as in `${n}` for an integral number

  predicate IsDigit(c: char) {
    '0' <= c <= '9'
  }

  predicate IsDigits(s: string) {
    forall k :: 0 <= k < |s| ==> IsDigit(s[k])
  }

  function DigitChar(d: nat): (c: char)
    requires d < 10
    ensures IsDigit(c) && c as int - '0' as int == d
  {
    ('0' as int + d) as char
  }

  /** The decimal digits of n, without leading zeros. */
  function NatToString(n: nat): (r: string)
    decreases n
    ensures |r| >= 1 && IsDigits(r)
    ensures r[0] == '0' ==> n == 0
  {
    if n < 10 then [DigitChar(n)] else NatToString(n / 10) + [DigitChar(n % 10)]
  }

  /** The number a string of decimal digits denotes. */
  function DigitsValue(ds: string): nat
    requires IsDigits(ds)
    decreases |ds|
  {
    if |ds| == 0 then 0
    else DigitsValue(ds[..|ds| - 1]) * 10 + (ds[|ds| - 1] as int - '0' as int)
  }

  lemma {:induction false} NatToStringValue(n: nat)
    ensures DigitsValue(NatToString(n)) == n
    decreases n
  {
    if n >= 10 {
      NatToStringValue(n / 10);
      var r := NatToString(n);
      assert r[..|r| - 1] == NatToString(n / 10);
    }
  }

  /** `${n}` for an integer n. */
  function IntToString(n: int): (r: string)
    ensures |r| >= 1
  {
    if n < 0 then "-" + NatToString(-n) else NatToString(n)
  }

  /** The integer a decimal numeral with an optional minus sign denotes. */
  function DecimalValue(s: string): Option<int> {
    if |s| >= 2 && s[0] == '-' && IsDigits(s[1..]) then Some(-(DigitsValue(s[1..]) as int))
    else if |s| >= 1 && IsDigits(s) then Some(DigitsValue(s))
    else None
  }

  /** The rendering of an integer reads back as that integer. */
  lemma IntToStringRoundTrip(n: int)
    ensures DecimalValue(IntToString(n)) == Some(n)
  {
    if n < 0 {
      var r := IntToString(n);
      assert r[1..] == NatToString(-n);
      NatToStringValue(-n);
    } else {
      NatToStringValue(n);
    }
  }
}

/** String primitives of Python and JavaScript as the source uses them:
    `str.strip`/`String.trim`, `startswith`/`endswith`, `in`, slicing with
    negative indices, `split`/`join` on a separator, and `replace`/`replaceAll`
    with a literal pattern. Strings are sequences of code points. */
module Strings {
  import opened Wrappers

  // ---------------------------------------------------------------------------
  // Whitespace

  /** Characters for which Python's `str.isspace()` holds. */
  predicate IsPySpace(c: char) {
    c == ' ' || ('\t' <= c <= '\r') || ('\U{1c}' <= c <= '\U{1f}') || c == '\U{85}' ||
    c == '\U{a0}' || c == '\U{1680}' || ('\U{2000}' <= c <= '\U{200a}') ||
    c == '\U{2028}' || c == '\U{2029}' || c == '\U{202f}' || c == '\U{205f}' || c == '\U{3000}'
  }

  /** Characters JavaScript's `String.prototype.trim` removes (WhiteSpace and
      LineTerminator of ECMA-262): unlike Python it keeps U+001C..U+001F and
      U+0085 and removes U+FEFF. */
  predicate IsJsSpace(c: char) {
    c == ' ' || ('\t' <= c <= '\r') || c == '\U{a0}' || c == '\U{1680}' ||
    ('\U{2000}' <= c <= '\U{200a}') || c == '\U{2028}' || c == '\U{2029}' || c == '\U{202f}' ||
    c == '\U{205f}' || c == '\U{3000}' || c == '\U{feff}'
  }

  /** Which language's notion of whitespace a trim uses. */
  datatype Flavour = Py | Js

  predicate IsSpace(c: char, f: Flavour) {
    if f == Py then IsPySpace(c) else IsJsSpace(c)
  }

  ghost predicate AllSpace(s: string, sp: Flavour) {
    forall i :: 0 <= i < |s| ==> IsSpace(s[i], sp)
  }

  /** Drops leading characters satisfying `sp`: the result is the suffix that
      starts at the first other character. */
  function TrimStartBy(s: string, sp: Flavour): string {
    if s == [] || !IsSpace(s[0], sp) then s else TrimStartBy(s[1..], sp)
  }

  /** `TrimStartBy` keeps the suffix that starts at the first other
      character. */
  lemma {:induction false} TrimStartShape(s: string, sp: Flavour)
    ensures var r := TrimStartBy(s, sp);
      |r| <= |s| && r == s[|s| - |r|..] && (r == [] || !IsSpace(r[0], sp)) &&
      AllSpace(s[..|s| - |r|], sp)
  {
    if s != [] && IsSpace(s[0], sp) {
      TrimStartShape(s[1..], sp);
      var r := TrimStartBy(s, sp);
      assert s[..|s| - |r|] == [s[0]] + s[1..][..|s| - 1 - |r|];
    }
  }

  /** Drops trailing characters satisfying `sp`: the result is the prefix that
      ends at the last other character. */
  function TrimEndBy(s: string, sp: Flavour): string {
    if s == [] || !IsSpace(s[|s| - 1], sp) then s else TrimEndBy(s[..|s| - 1], sp)
  }

  /** `TrimEndBy` keeps the prefix that ends at the last other character. */
  lemma {:induction false} TrimEndShape(s: string, sp: Flavour)
    ensures var r := TrimEndBy(s, sp);
      |r| <= |s| && r == s[..|r|] && (r == [] || !IsSpace(r[|r| - 1], sp)) &&
      AllSpace(s[|r|..], sp)
  {
    if s != [] && IsSpace(s[|s| - 1], sp) {
      TrimEndShape(s[..|s| - 1], sp);
      var r := TrimEndBy(s, sp);
      assert s[|r|..] == s[..|s| - 1][|r|..] + [s[|s| - 1]];
    }
  }

  function StripBy(s: string, sp: Flavour): string {
    TrimEndBy(TrimStartBy(s, sp), sp)
  }

  /** Python's `str.strip()` with no argument. */
  function Strip(s: string): string { StripBy(s, Py) }

  /** JavaScript's `String.prototype.trim()`. */
  function JsTrim(s: string): string { StripBy(s, Js) }

  /** Every element stripped, as a list comprehension does it. */
  function StripAll(vals: seq<string>): (r: seq<string>)
    ensures |r| == |vals| && forall i :: 0 <= i < |vals| ==> r[i] == Strip(vals[i])
  {
    if vals == [] then [] else [Strip(vals[0])] + StripAll(vals[1..])
  }

  /** Stripping leaves nothing exactly when every character is whitespace. */
  lemma StripEmptyIff(s: string, sp: Flavour)
    ensures StripBy(s, sp) == [] <==> AllSpace(s, sp)
  {
    var t := TrimStartBy(s, sp);
    TrimStartShape(s, sp);
    TrimEndShape(t, sp);
    if t != [] {
      assert !IsSpace(t[0], sp) && s[|s| - |t|] == t[0];
    } else {
      assert s[..|s|] == s;
    }
  }

  /** The stripped string is a contiguous piece of the input with no
      whitespace at either end. */
  lemma StripShape(s: string, sp: Flavour)
    ensures var r := StripBy(s, sp);
      (exists k :: OccursAt(s, r, k)) &&
      (r == [] || (!IsSpace(r[0], sp) && !IsSpace(r[|r| - 1], sp)))
  {
    var t := TrimStartBy(s, sp);
    var r := TrimEndBy(t, sp);
    TrimStartShape(s, sp);
    TrimEndShape(t, sp);
    var k := |s| - |t|;
    assert s[k..k + |r|] == r;
    assert OccursAt(s, r, k);
    assert StripBy(s, sp) == r;
    if r != [] {
      assert r[0] == t[0];
    }
  }

  /** A string already free of whitespace at both ends strips to itself. */
  lemma StripNoop(s: string, sp: Flavour)
    requires s == [] || (!IsSpace(s[0], sp) && !IsSpace(s[|s| - 1], sp))
    ensures StripBy(s, sp) == s
  {
  }

  /** Stripping is idempotent. */
  lemma StripIdempotent(s: string, sp: Flavour)
    ensures StripBy(StripBy(s, sp), sp) == StripBy(s, sp)
  {
    StripShape(s, sp);
    StripNoop(StripBy(s, sp), sp);
  }

  /** Trailing whitespace never survives `TrimEndBy`. */
  lemma TrimEndAppendSpace(s: string, w: string, sp: Flavour)
    requires AllSpace(w, sp)
    ensures TrimEndBy(s + w, sp) == TrimEndBy(s, sp)
    decreases |w|
  {
    if w != [] {
      assert (s + w)[..|s + w| - 1] == s + w[..|w| - 1];
      assert (s + w)[|s + w| - 1] == w[|w| - 1] && IsSpace(w[|w| - 1], sp);
      assert AllSpace(w[..|w| - 1], sp);
      TrimEndAppendSpace(s, w[..|w| - 1], sp);
    } else {
      assert s + w == s;
    }
  }

  /** Stripping text that ends in `w` and then whitespace keeps `w`, whose
      first and last characters are not whitespace, at the end. */
  lemma StripEndsWith(s: string, w: string, ws: string, sp: Flavour)
    requires w != [] && !IsSpace(w[0], sp) && !IsSpace(w[|w| - 1], sp) && AllSpace(ws, sp)
    ensures EndsWith(StripBy(s + w + ws, sp), w)
  {
    var x := s + w + ws;
    var t := TrimStartBy(x, sp);
    TrimStartShape(x, sp);
    var d := |x| - |t|;
    assert !IsSpace(x[|s|], sp);
    assert forall i :: 0 <= i < d ==> IsSpace(x[i], sp) by {
      assert forall i :: 0 <= i < d ==> x[..d][i] == x[i];
    }
    assert d <= |s|;
    var u := s[d..] + w;
    assert t == u + ws;
    TrimEndAppendSpace(u, ws, sp);
    assert u[|u| - 1] == w[|w| - 1];
    assert TrimEndBy(u, sp) == u;
    TrimEndShape(u, sp);
    assert StripBy(x, sp) == u;
    assert u[|u| - |w|..] == w;
    assert EndsWith(u, w);
  }

  // ---------------------------------------------------------------------------
  // Case

  /** ASCII lowercasing (A-Z to a-z); other characters are unchanged. */
  function LowerChar(c: char): char {
    if 'A' <= c <= 'Z' then (c as int + 32) as char else c
  }

  function Lower(s: string): (r: string)
    ensures |r| == |s|
    ensures forall i :: 0 <= i < |s| ==> r[i] == LowerChar(s[i])
  {
    if s == [] then [] else [LowerChar(s[0])] + Lower(s[1..])
  }

  // ---------------------------------------------------------------------------
  // Prefixes, suffixes, occurrences

  predicate StartsWith(s: string, p: string) { p <= s }

  predicate EndsWith(s: string, p: string) {
    |p| <= |s| && s[|s| - |p|..] == p
  }

  /** `p` occurs in `s` at index `k`. */
  ghost predicate OccursAt(s: string, p: string, k: int) {
    0 <= k && k + |p| <= |s| && s[k..k + |p|] == p
  }

  /** Python's `p in s` and JavaScript's `s.includes(p)`. */
  function Contains(s: string, p: string): bool
    decreases |s|
  {
    p <= s || (s != [] && Contains(s[1..], p))
  }

  lemma ContainsIff(s: string, p: string)
    ensures Contains(s, p) <==> exists k :: OccursAt(s, p, k)
    decreases |s|
  {
    if p <= s {
      assert OccursAt(s, p, 0);
    } else if s != [] {
      ContainsIff(s[1..], p);
      if Contains(s[1..], p) {
        var k :| OccursAt(s[1..], p, k);
        assert s[k + 1..k + 1 + |p|] == s[1..][k..k + |p|];
        assert OccursAt(s, p, k + 1);
      }
      if k :| OccursAt(s, p, k) {
        assert k != 0;
        assert s[1..][k - 1..k - 1 + |p|] == s[k..k + |p|];
        assert OccursAt(s[1..], p, k - 1);
      }
    }
  }

  /** Position of the first occurrence of character `c`. */
  function IndexOf(s: string, c: char): (r: Option<nat>)
    ensures r.Some? ==> r.value < |s| && s[r.value] == c && c !in s[..r.value]
    ensures r.None? ==> c !in s
  {
    if s == [] then None
    else if s[0] == c then Some(0)
    else match IndexOf(s[1..], c)
      case Some(k) => assert s[..k + 1] == [s[0]] + s[1..][..k]; Some(k + 1)
      case None => None
  }

  // ---------------------------------------------------------------------------
  // Slicing

  /** Python's bound normalisation for a slice index over length `n`. */
  function PyBound(i: int, n: nat): (r: nat)
    ensures r <= n
    ensures 0 <= i <= n ==> r == i
  {
    if i < 0 then (if i + n < 0 then 0 else i + n) else if i > n then n else i
  }

  /** Python's `s[a:b]` for integer `a` and `b`, negative ones counting from the
      end, out-of-range ones clamped; an inverted range is empty. */
  function PySlice(s: string, a: int, b: int): (r: string)
    ensures |r| <= |s|
    ensures 0 <= a <= b <= |s| ==> r == s[a..b]
  {
    var i, j := PyBound(a, |s|), PyBound(b, |s|);
    if i < j then s[i..j] else []
  }

  // ---------------------------------------------------------------------------
  // Split, join, replace

  /** Python's `s.split(sep)` for a non-empty separator. */
  function Split(s: string, sep: string): (r: seq<string>)
    requires sep != []
    ensures |r| >= 1
    decreases |s|
  {
    if |s| < |sep| then [s]
    else if sep <= s then [[]] + Split(s[|sep|..], sep)
    else
      var rest := Split(s[1..], sep);
      [[s[0]] + rest[0]] + rest[1..]
  }

  /** Python's `sep.join(parts)` and JavaScript's `parts.join(sep)`. */
  function Join(parts: seq<string>, sep: string): string {
    if parts == [] then []
    else if |parts| == 1 then parts[0]
    else parts[0] + sep + Join(parts[1..], sep)
  }

  lemma JoinCons(x: string, rest: seq<string>, sep: string)
    requires rest != []
    ensures Join([x] + rest, sep) == x + sep + Join(rest, sep)
  {
    assert ([x] + rest)[1..] == rest;
  }

  /** Prepending a character to the first piece prepends it to the join. */
  lemma JoinExtendHead(c: char, parts: seq<string>, sep: string)
    requires parts != []
    ensures Join([[c] + parts[0]] + parts[1..], sep) == [c] + Join(parts, sep)
  {
    if |parts| > 1 {
      JoinCons([c] + parts[0], parts[1..], sep);
      JoinCons(parts[0], parts[1..], sep);
      assert [parts[0]] + parts[1..] == parts;
    }
  }

  /** Joining the first `k` pieces gives a prefix of joining them all. */
  lemma {:induction false} JoinTakePrefix(parts: seq<string>, k: nat, sep: string)
    requires k <= |parts|
    ensures Join(parts[..k], sep) <= Join(parts, sep)
  {
    if k > 0 && |parts| > 1 {
      if k == 1 {
        assert parts[..1] == [parts[0]];
      } else {
        JoinTakePrefix(parts[1..], k - 1, sep);
        assert parts[..k][1..] == parts[1..][..k - 1];
        assert parts[..k] == [parts[0]] + parts[..k][1..];
        JoinCons(parts[0], parts[..k][1..], sep);
      }
    } else if k == 1 {
      assert parts[..k] == parts;
    }
  }

  /** Python's `s.count(p)`: the occurrences of `p` found scanning left to
      right without overlap. */
  function Occurrences(s: string, p: string): nat
    requires p != []
    decreases |s|
  {
    if |s| < |p| then 0
    else if p <= s then 1 + Occurrences(s[|p|..], p)
    else Occurrences(s[1..], p)
  }

  /** `head` is a prefix of `s` holding `c` separators; when `more`, the
      next separator of `s` starts right after `head`, and otherwise `head`
      is the whole of `s`. */
  ghost predicate CutAt(s: string, sep: string, head: string, c: nat, more: bool)
    requires sep != []
  {
    head <= s && Occurrences(head, sep) == c &&
    (more ==> OccursAt(s, sep, |head|)) &&
    (!more ==> head == s)
  }

  /** Python's `sep.join(s.split(sep)[:k])` for `k >= 1`: rejoining the first
      `m` pieces gives a prefix of `s` holding `m - 1` separators; either the
      pieces run out and it is the whole of `s`, or the next separator starts
      right after it. */
  ghost predicate TakeCut(s: string, sep: string, k: nat)
    requires sep != [] && 1 <= k
  {
    var parts := Split(s, sep);
    var m := if |parts| < k then |parts| else k;
    CutAt(s, sep, Join(parts[..m], sep), m - 1, m < |parts|)
  }

  lemma {:induction false} SplitTakeHead(s: string, sep: string, k: nat)
    requires sep != [] && 1 <= k
    ensures TakeCut(s, sep, k)
    decreases |s|
  {
    if |s| < |sep| {
      TakeCutShort(s, sep, k);
    } else if sep <= s {
      if k == 1 {
        TakeCutFirst(s, sep);
      } else {
        SplitTakeHead(s[|sep|..], sep, k - 1);
        TakeCutAtSep(s, sep, k);
      }
    } else {
      SplitTakeHead(s[1..], sep, k);
      TakeCutAtChar(s, sep, k);
    }
  }

  lemma {:induction false} TakeCutShort(s: string, sep: string, k: nat)
    requires sep != [] && 1 <= k && |s| < |sep|
    ensures TakeCut(s, sep, k)
  {
    assert Split(s, sep) == [s];
    assert [s][..1] == [s];
  }

  lemma {:induction false} TakeCutFirst(s: string, sep: string)
    requires sep != [] && |s| >= |sep| && sep <= s
    ensures TakeCut(s, sep, 1)
  {
    var parts := Split(s, sep);
    assert parts == [[]] + Split(s[|sep|..], sep);
    assert parts[..1] == [[]];
    assert OccursAt(s, sep, 0);
  }

  lemma {:induction false} TakeCutAtSep(s: string, sep: string, k: nat)
    requires sep != [] && 2 <= k && |s| >= |sep| && sep <= s
    requires TakeCut(s[|sep|..], sep, k - 1)
    ensures TakeCut(s, sep, k)
  {
    var s' := s[|sep|..];
    var rest := Split(s', sep);
    assert Split(s, sep) == [[]] + rest;
    var m := if |rest| < k - 1 then |rest| else k - 1;
    JoinAfterEmpty(rest, m, sep);
    assert s == sep + s';
    CutAfterSep(s', sep, Join(rest[..m], sep), m - 1, m < |rest|);
  }

  lemma {:induction false} TakeCutAtChar(s: string, sep: string, k: nat)
    requires sep != [] && 1 <= k && |s| >= |sep| && !(sep <= s)
    requires TakeCut(s[1..], sep, k)
    ensures TakeCut(s, sep, k)
  {
    var rest := Split(s[1..], sep);
    var parts := Split(s, sep);
    assert parts == [[s[0]] + rest[0]] + rest[1..];
    var m := if |rest| < k then |rest| else k;
    assert parts[..m] == [[s[0]] + rest[..m][0]] + rest[..m][1..];
    JoinExtendHead(s[0], rest[..m], sep);
    CutAfterChar(s, sep, Join(rest[..m], sep), m - 1, m < |rest|);
  }

  lemma JoinAfterEmpty(rest: seq<string>, m: nat, sep: string)
    requires 1 <= m <= |rest|
    ensures Join(([[]] + rest)[..m + 1], sep) == sep + Join(rest[..m], sep)
  {
    assert ([[]] + rest)[..m + 1] == [[]] + rest[..m];
    JoinCons([], rest[..m], sep);
  }

  /** A cut of `s'` moves past a separator put in front of `s'`. */
  lemma {:induction false} CutAfterSep(s': string, sep: string, head': string, c: nat, more: bool)
    requires sep != [] && CutAt(s', sep, head', c, more)
    ensures CutAt(sep + s', sep, sep + head', c + 1, more)
  {
    var s, head := sep + s', sep + head';
    assert head[..|sep|] == sep && head[|sep|..] == head';
    assert s[..|head|] == head;
    if more {
      assert s[|head|..|head| + |sep|] == s'[|head'|..|head'| + |sep|];
    }
  }

  /** A cut of `s[1..]` extends to `s` when no separator starts `s`. */
  lemma {:induction false} CutAfterChar(s: string, sep: string, head': string, c: nat, more: bool)
    requires sep != [] && |s| >= |sep| && !(sep <= s) && CutAt(s[1..], sep, head', c, more)
    ensures CutAt(s, sep, [s[0]] + head', c, more)
  {
    var head := [s[0]] + head';
    assert s == [s[0]] + s[1..];
    assert s[..|head|] == head;
    if |head| >= |sep| {
      assert head[..|sep|] == s[..|sep|];
      assert head[1..] == head';
    }
    if more {
      assert s[|head|..|head| + |sep|] == s[1..][|head'|..|head'| + |sep|];
    }
  }

  /** Joining the pieces of a split with the same separator gives back the input. */
  lemma {:induction false} JoinSplit(s: string, sep: string)
    requires sep != []
    ensures Join(Split(s, sep), sep) == s
    decreases |s|
  {
    if |s| < |sep| {
    } else if sep <= s {
      JoinSplit(s[|sep|..], sep);
      JoinCons([], Split(s[|sep|..], sep), sep);
      assert s == sep + s[|sep|..];
    } else {
      JoinSplit(s[1..], sep);
      JoinExtendHead(s[0], Split(s[1..], sep), sep);
      assert s == [s[0]] + s[1..];
    }
  }

  /** A string with no occurrence of the separator splits into itself alone. */
  lemma {:induction false} SplitNoSep(s: string, sep: string)
    requires sep != [] && !Contains(s, sep)
    ensures Split(s, sep) == [s]
    decreases |s|
  {
    if |s| >= |sep| {
      SplitNoSep(s[1..], sep);
      assert [s[0]] + s[1..] == s;
    }
  }

  /** Splitting on a character the string does not hold gives the string. */
  lemma {:induction false} SplitNoSepChar(s: string, c: char)
    requires c !in s
    ensures Split(s, [c]) == [s]
    decreases |s|
  {
    if s != [] {
      assert s[0] != c;
      SplitNoSepChar(s[1..], c);
      assert [s[0]] + s[1..] == s;
    }
  }

  /** Python's `s.replace(p, r)` for a non-empty literal pattern: left to
      right, non-overlapping, `r` inserted as it is. JavaScript's
      `replaceAll` agrees with it only when `r` has no `$`
      (`JsReplaceLiteral`). */
  function ReplaceAll(s: string, p: string, r: string): string
    requires p != []
    decreases |s|
  {
    if |s| < |p| then s
    else if p <= s then r + ReplaceAll(s[|p|..], p, r)
    else [s[0]] + ReplaceAll(s[1..], p, r)
  }

  /** The text JavaScript's `replaceAll` inserts for one match of a string
      pattern (`GetSubstitution` with no capture groups): `$$` gives `$`,
      `$&` the match, `` $` `` the text before the match and `$'` the text
      after it; any other `$` stands for itself. */
  function Expand(r: string, matched: string, before: string, after: string): string
    decreases |r|
  {
    if r == [] then []
    else if |r| >= 2 && r[0] == '$' && r[1] == '$' then "$" + Expand(r[2..], matched, before, after)
    else if |r| >= 2 && r[0] == '$' && r[1] == '&' then matched + Expand(r[2..], matched, before, after)
    else if |r| >= 2 && r[0] == '$' && r[1] == '`' then before + Expand(r[2..], matched, before, after)
    else if |r| >= 2 && r[0] == '$' && r[1] == '\'' then after + Expand(r[2..], matched, before, after)
    else [r[0]] + Expand(r[1..], matched, before, after)
  }

  /** JavaScript's `s.replaceAll(p, r)` for a non-empty string pattern, from
      position `k` of `s` on: the matches are found left to right without
      overlap, and each is replaced by `r` expanded for that match. */
  function JsReplaceFrom(s: string, k: nat, p: string, r: string): string
    requires p != [] && k <= |s|
    decreases |s| - k
  {
    if |s| - k < |p| then s[k..]
    else if p <= s[k..] then Expand(r, p, s[..k], s[k + |p|..]) + JsReplaceFrom(s, k + |p|, p, r)
    else [s[k]] + JsReplaceFrom(s, k + 1, p, r)
  }

  function JsReplaceAll(s: string, p: string, r: string): string
    requires p != []
  {
    JsReplaceFrom(s, 0, p, r)
  }

  /** A replacement without `$` is inserted as it is. */
  lemma {:induction false} ExpandLiteral(r: string, matched: string, before: string, after: string)
    requires '$' !in r
    ensures Expand(r, matched, before, after) == r
    decreases |r|
  {
    if r != [] {
      assert r[0] != '$';
      assert '$' !in r[1..] by {
        forall i | 0 <= i < |r[1..]| ensures r[1..][i] != '$' {
          assert r[1..][i] == r[i + 1];
        }
      }
      ExpandLiteral(r[1..], matched, before, after);
      assert r == [r[0]] + r[1..];
    }
  }

  /** With a replacement free of `$`, JavaScript's `replaceAll` is Python's
      `replace`. */
  lemma {:induction false} JsReplaceFromLiteral(s: string, k: nat, p: string, r: string)
    requires p != [] && k <= |s| && '$' !in r
    ensures JsReplaceFrom(s, k, p, r) == ReplaceAll(s[k..], p, r)
    decreases |s| - k
  {
    if |s| - k < |p| {
    } else if p <= s[k..] {
      ExpandLiteral(r, p, s[..k], s[k + |p|..]);
      JsReplaceFromLiteral(s, k + |p|, p, r);
      assert s[k..][|p|..] == s[k + |p|..];
    } else {
      JsReplaceFromLiteral(s, k + 1, p, r);
      assert s[k..][1..] == s[k + 1..];
    }
  }

  lemma JsReplaceLiteral(s: string, p: string, r: string)
    requires p != [] && '$' !in r
    ensures JsReplaceAll(s, p, r) == ReplaceAll(s, p, r)
  {
    JsReplaceFromLiteral(s, 0, p, r);
    assert s[0..] == s;
  }

  /** `"[x]".replaceAll("[x]", "$&")` keeps the match, where Python's
      `replace` inserts "$&". */
  lemma JsReplaceKeepsMatch()
    ensures JsReplaceAll("[x]", "[x]", "$&") == "[x]"
    ensures ReplaceAll("[x]", "[x]", "$&") == "$&"
  {
    assert "[x]"[3..] == [];
    assert JsReplaceFrom("[x]", 3, "[x]", "$&") == [];
    assert Expand("$&"[2..], "[x]", [], []) == [];
    assert Expand("$&", "[x]", [], []) == "[x]";
    assert ReplaceAll("[x]"[3..], "[x]", "$&") == [];
  }

  /** Python's `s.replace("", r)`: `r` before every character and at the end. */
  function ReplaceEmpty(s: string, r: string): (out: string)
    ensures |out| == |s| + (|s| + 1) * |r|
  {
    if s == [] then r else r + [s[0]] + ReplaceEmpty(s[1..], r)
  }

  /** Python's `s.replace(p, r)` for any literal pattern. */
  function PyReplace(s: string, p: string, r: string): string {
    if p == [] then ReplaceEmpty(s, r) else ReplaceAll(s, p, r)
  }

  /** Replacing a pattern by itself changes nothing. */
  lemma {:induction false} ReplaceSelf(s: string, p: string)
    requires p != []
    ensures ReplaceAll(s, p, p) == s
    decreases |s|
  {
    if |s| < |p| {
    } else if p <= s {
      ReplaceSelf(s[|p|..], p);
      assert s == p + s[|p|..];
    } else {
      ReplaceSelf(s[1..], p);
      assert s == [s[0]] + s[1..];
    }
  }

  /** `replace` is the join of the split: every occurrence, one pass. */
  lemma {:induction false} ReplaceIsSplitJoin(s: string, p: string, r: string)
    requires p != []
    ensures ReplaceAll(s, p, r) == Join(Split(s, p), r)
    decreases |s|
  {
    if |s| < |p| {
    } else if p <= s {
      ReplaceIsSplitJoin(s[|p|..], p, r);
    } else {
      ReplaceIsSplitJoin(s[1..], p, r);
      var rest := Split(s[1..], p);
      if |rest| > 1 {
        assert Join(rest, r) == rest[0] + r + Join(rest[1..], r);
      }
    }
  }

  /** A prefix that does not contain the first character of the pattern
      passes through a replacement untouched. */
  lemma {:induction false} ReplaceSkipsPrefix(s: string, t: string, p: string, r: string)
    requires p != [] && p[0] !in s
    ensures ReplaceAll(s + t, p, r) == s + ReplaceAll(t, p, r)
    decreases |s|
  {
    if s != [] {
      assert s[0] in s;
      assert (s + t)[0] == s[0] != p[0];
      assert (s + t)[1..] == s[1..] + t;
      ReplaceSkipsPrefix(s[1..], t, p, r);
      assert s == [s[0]] + s[1..];
      if |s + t| < |p| {
        assert ReplaceAll(t, p, r) == t;
      } else {
        assert !(p <= s + t);
      }
    } else {
      assert s + t == t;
    }
  }

  /** A string missing one of the pattern's characters has no occurrence of
      the pattern: `replace` returns it unchanged. */
  lemma {:induction false} ReplaceAbsent(s: string, p: string, r: string, c: char)
    requires p != [] && c in p && c !in s
    ensures ReplaceAll(s, p, r) == s
    decreases |s|
  {
    if |s| >= |p| {
      ReplaceAbsent(s[1..], p, r, c);
      assert s == [s[0]] + s[1..];
    }
  }

  /** Python's `re.sub(r"\s+", "", s)`: every whitespace character removed. */
  function RemoveSpaces(s: string): (r: string)
    ensures forall i :: 0 <= i < |r| ==> !IsPySpace(r[i])
    ensures |r| <= |s|
  {
    if s == [] then []
    else if IsPySpace(s[0]) then RemoveSpaces(s[1..])
    else [s[0]] + RemoveSpaces(s[1..])
  }

  lemma {:induction false} RemoveSpacesNoop(s: string)
    requires forall i :: 0 <= i < |s| ==> !IsPySpace(s[i])
    ensures RemoveSpaces(s) == s
  {
    if s != [] {
      RemoveSpacesNoop(s[1..]);
    }
  }

  /** Python's `'x' * k`. */
  function Repeat(c: char, k: nat): (r: string)
    ensures |r| == k && forall i :: 0 <= i < k ==> r[i] == c
  {
    if k == 0 then [] else [c] + Repeat(c, k - 1)
  }

  // ---------------------------------------------------------------------------
  // Ordering

  /** Python's `<=` on strings: lexicographic by code point. */
  predicate StrLe(a: string, b: string) {
    a == [] || (b != [] && (a[0] < b[0] || (a[0] == b[0] && StrLe(a[1..], b[1..]))))
  }

  lemma {:induction false} StrLeTotal(a: string, b: string)
    ensures StrLe(a, b) || StrLe(b, a)
  {
    if a != [] && b != [] && a[0] == b[0] {
      StrLeTotal(a[1..], b[1..]);
    }
  }
}

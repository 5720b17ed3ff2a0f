/** Bracketed placeholder tokens `[name]` with `name` matching
    `[A-Za-z0-9_]+`, as the pattern `\[([a-zA-Z0-9_]+)\]` finds them in a
    template, and substitution of their values. Both the batch renderer and
    the web page scan templates this way; they differ only in how they
    collect the names and what they substitute. */
module Placeholders {
  import opened Wrappers
  import opened Strings

  predicate IsWordChar(c: char) {
    ('a' <= c <= 'z') || ('A' <= c <= 'Z') || ('0' <= c <= '9') || c == '_'
  }

  predicate IsName(n: string) {
    |n| > 0 && forall i :: 0 <= i < |n| ==> IsWordChar(n[i])
  }

  function Bracket(n: string): string { "[" + n + "]" }

  /** Length of the run of word characters at the front of `s`. */
  function WordRun(s: string): (k: nat)
    ensures k <= |s|
    ensures forall i :: 0 <= i < k ==> IsWordChar(s[i])
    ensures k < |s| ==> !IsWordChar(s[k])
  {
    if s == [] || !IsWordChar(s[0]) then 0 else 1 + WordRun(s[1..])
  }

  /** The token the pattern matches at the front of `s`, if any: `[`, the
      greedy run of word characters (at least one), then `]`. */
  function TokenAt(s: string): (r: Option<string>)
    ensures r.Some? ==> IsName(r.value) && |r.value| + 2 <= |s|
  {
    if s == [] || s[0] != '[' then None
    else
      var k := WordRun(s[1..]);
      if k > 0 && k + 1 < |s| && s[k + 1] == ']' then
        Some(s[1..k + 1])
      else None
  }

  /** The pattern matches at the front of `s` exactly when `s` starts with a
      bracketed name, and then it matches that name. */
  lemma TokenAtIff(s: string, n: string)
    ensures TokenAt(s) == Some(n) <==> IsName(n) && Bracket(n) <= s
  {
    if IsName(n) && Bracket(n) <= s {
      assert s[0] == '[';
      assert s[..|n| + 2] == Bracket(n);
      assert s[1..|n| + 1] == n;
      assert s[1..][..|n|] == n;
      assert s[|n| + 1] == ']';
      var t := s[1..];
      assert forall i :: 0 <= i < |n| ==> t[i] == n[i];
      assert t[|n|] == ']';
      assert WordRun(t) == |n|;
    }
  }

  /** Inside a matched token there is no `[` after the opening one. */
  lemma NoBracketInsideToken(s: string)
    requires TokenAt(s).Some?
    ensures forall i :: 0 < i < |TokenAt(s).value| + 2 ==> s[i] != '['
  {
    var n := TokenAt(s).value;
    assert s[..|n| + 2] == Bracket(n);
    assert forall i :: 0 < i < |n| + 2 ==> s[i] == Bracket(n)[i];
  }

  // ---------------------------------------------------------------------------
  // A template as a sequence of pieces

  datatype Piece = Lit(c: char) | Tok(name: string)

  function PieceText(p: Piece): string {
    match p
    case Lit(c) => [c]
    case Tok(n) => Bracket(n)
  }

  function Flatten(ps: seq<Piece>): string {
    if ps == [] then [] else PieceText(ps[0]) + Flatten(ps[1..])
  }

  lemma FlattenAppend(a: seq<Piece>, b: seq<Piece>)
    ensures Flatten(a + b) == Flatten(a) + Flatten(b)
  {
    if a == [] {
      assert a + b == b;
    } else {
      assert (a + b)[1..] == a[1..] + b;
      FlattenAppend(a[1..], b);
    }
  }

  /** Left-to-right, non-overlapping tokenisation: each token the pattern
      matches, and every other character as a literal. */
  function Parse(s: string): seq<Piece>
    decreases |s|
  {
    if s == [] then []
    else match TokenAt(s)
      case Some(n) => [Tok(n)] + Parse(s[|n| + 2..])
      case None => [Lit(s[0])] + Parse(s[1..])
  }

  /** Tokenising loses nothing. */
  lemma {:induction false} FlattenParse(s: string)
    ensures Flatten(Parse(s)) == s
    decreases |s|
  {
    if s != [] {
      match TokenAt(s)
      case Some(n) =>
        TokenAtIff(s, n);
        FlattenParse(s[|n| + 2..]);
        assert ([Tok(n)] + Parse(s[|n| + 2..]))[1..] == Parse(s[|n| + 2..]);
        assert s == s[..|n| + 2] + s[|n| + 2..];
      case None =>
        FlattenParse(s[1..]);
        assert ([Lit(s[0])] + Parse(s[1..]))[1..] == Parse(s[1..]);
        assert s == [s[0]] + s[1..];
    }
  }

  /** Pieces in the form `Parse` produces when every `[` opens a token: no
      literal `[`, and every token a name. */
  ghost predicate Canonical(ps: seq<Piece>) {
    forall i :: 0 <= i < |ps| ==>
      (ps[i].Lit? ==> ps[i].c != '[') && (ps[i].Tok? ==> IsName(ps[i].name))
  }

  /** Every `[` in the template opens a placeholder token. */
  ghost predicate NoStrayBracket(s: string) {
    Canonical(Parse(s))
  }

  /** Canonical pieces survive a round trip through their text. */
  lemma {:induction false} ParseFlatten(ps: seq<Piece>)
    requires Canonical(ps)
    ensures Parse(Flatten(ps)) == ps
  {
    if ps != [] {
      var s := Flatten(ps);
      var rest := Flatten(ps[1..]);
      assert s == PieceText(ps[0]) + rest;
      ParseFlatten(ps[1..]);
      match ps[0]
      case Lit(c) =>
        assert s[0] == c && s[1..] == rest;
        assert TokenAt(s).None?;
      case Tok(n) =>
        assert Bracket(n) <= s;
        TokenAtIff(s, n);
        assert s[|n| + 2..] == rest;
    }
  }

  // ---------------------------------------------------------------------------
  // Names

  /** Names of the tokens, in template order, repetitions kept. */
  function Names(ps: seq<Piece>): seq<string> {
    if ps == [] then []
    else (if ps[0].Tok? then [ps[0].name] else []) + Names(ps[1..])
  }

  /** The names `finditer`/`exec` report for template `s`, in order. */
  function Scan(s: string): seq<string> {
    Names(Parse(s))
  }

  lemma NamesAppend(a: seq<Piece>, b: seq<Piece>)
    ensures Names(a + b) == Names(a) + Names(b)
  {
    if a == [] {
      assert a + b == b;
    } else {
      assert (a + b)[1..] == a[1..] + b;
      NamesAppend(a[1..], b);
    }
  }

  /** An occurrence in a suffix of `s` is an occurrence in `s`. */
  lemma OccursUp(s: string, d: nat, p: string, k: nat)
    requires d <= |s| && OccursAt(s[d..], p, k)
    ensures OccursAt(s, p, k + d)
  {
    assert s[d..][k..k + |p|] == s[k + d..k + d + |p|];
  }

  /** An occurrence in `s` at or after `d` is an occurrence in `s[d..]`. */
  lemma OccursDown(s: string, d: nat, p: string, k: nat)
    requires d <= k && OccursAt(s, p, k)
    ensures OccursAt(s[d..], p, k - d)
  {
    assert s[d..][k - d..k - d + |p|] == s[k..k + |p|];
  }

  /** One step of the scan: a matched token, or one literal character. */
  lemma ScanStep(s: string)
    requires s != []
    ensures TokenAt(s).Some? ==>
      Scan(s) == [TokenAt(s).value] + Scan(s[|TokenAt(s).value| + 2..])
    ensures TokenAt(s).None? ==> Scan(s) == Scan(s[1..])
  {
    match TokenAt(s)
    case Some(m) =>
      assert Parse(s) == [Tok(m)] + Parse(s[|m| + 2..]);
      assert ([Tok(m)] + Parse(s[|m| + 2..]))[1..] == Parse(s[|m| + 2..]);
    case None =>
      assert Parse(s) == [Lit(s[0])] + Parse(s[1..]);
      assert ([Lit(s[0])] + Parse(s[1..]))[1..] == Parse(s[1..]);
  }

  /** Every name the scan reports is a bracketed name occurring in `s`. */
  lemma {:induction false} ScanSound(s: string, n: string)
    requires n in Scan(s)
    ensures IsName(n) && exists k :: OccursAt(s, Bracket(n), k)
    decreases |s|
  {
    if TokenAt(s).Some? && TokenAt(s).value == n {
      assert OccursAt(s, Bracket(n), 0);
    } else {
      var d := SkipOne(s);
      ScanStep(s);
      assert n in Scan(s[d..]);
      ScanSound(s[d..], n);
      var k :| OccursAt(s[d..], Bracket(n), k);
      OccursUp(s, d, Bracket(n), k);
    }
  }

  /** An occurrence of a token starts with `[`. */
  lemma OpeningBracketAt(s: string, n: string, k: nat)
    requires OccursAt(s, Bracket(n), k)
    ensures k < |s| && s[k] == '['
  {
    assert s[k..k + |n| + 2][0] == Bracket(n)[0];
  }

  /** Every occurrence of a bracketed name in `s` is reported by the scan:
      no occurrence is hidden inside another match. */
  lemma {:induction false} ScanComplete(s: string, n: string, k: nat)
    requires IsName(n) && OccursAt(s, Bracket(n), k)
    ensures n in Scan(s)
    decreases |s|
  {
    if k == 0 {
      ScanHead(s, n);
    } else {
      OpeningBracketAt(s, n, k);
      var d := SkipOne(s);
      assert 0 < d <= k by {
        if TokenAt(s).Some? {
          NoBracketInsideToken(s);
        }
      }
      OccursDown(s, d, Bracket(n), k);
      ScanComplete(s[d..], n, k - d);
      ScanTail(s, n);
    }
  }

  /** How far one step of the scan advances. */
  function SkipOne(s: string): (d: nat)
    requires s != []
    ensures 0 < d <= |s|
  {
    match TokenAt(s)
    case Some(m) => |m| + 2
    case None => 1
  }

  /** A name the scan reports after its first step is reported. */
  lemma ScanTail(s: string, n: string)
    requires s != [] && n in Scan(s[SkipOne(s)..])
    ensures n in Scan(s)
  {
    ScanStep(s);
  }

  /** A token at the very start is reported. */
  lemma ScanHead(s: string, n: string)
    requires IsName(n) && OccursAt(s, Bracket(n), 0)
    ensures n in Scan(s)
  {
    assert Bracket(n) <= s;
    TokenAtIff(s, n);
    ScanStep(s);
  }

  /** The scan finds `n` exactly when `[n]` occurs in the template and `n`
      is a name. */
  lemma ScanIff(s: string, n: string)
    ensures n in Scan(s) <==> IsName(n) && exists k :: OccursAt(s, Bracket(n), k)
  {
    if n in Scan(s) {
      ScanSound(s, n);
    }
    if IsName(n) && exists k :: OccursAt(s, Bracket(n), k) {
      var k :| OccursAt(s, Bracket(n), k);
      ScanComplete(s, n, k);
    }
  }

  lemma ScanIffAll(s: string)
    ensures forall n :: n in Scan(s) <==> IsName(n) && exists k :: OccursAt(s, Bracket(n), k)
  {
    forall n {
      ScanIff(s, n);
    }
  }

  // ---------------------------------------------------------------------------
  // Substitution

  /** `fields.get(h, "")`: the value of `h`, or the empty string. */
  function Lookup(F: map<string, string>, h: string): string {
    if h in F then F[h] else ""
  }

  function Lits(v: string): (r: seq<Piece>)
    ensures |r| == |v| && Flatten(r) == v
    ensures forall i :: 0 <= i < |r| ==> r[i] == Lit(v[i])
  {
    if v == [] then []
    else
      assert Flatten([Lit(v[0])] + Lits(v[1..])) == [v[0]] + Flatten(Lits(v[1..])) by {
        FlattenAppend([Lit(v[0])], Lits(v[1..]));
      }
      [Lit(v[0])] + Lits(v[1..])
  }

  /** Simultaneous substitution: every token whose name is in `H` becomes the
      text of its value; other tokens and all literals stay. */
  function Subst(ps: seq<Piece>, H: set<string>, F: map<string, string>): seq<Piece> {
    if ps == [] then []
    else
      (if ps[0].Tok? && ps[0].name in H then Lits(Lookup(F, ps[0].name)) else [ps[0]])
      + Subst(ps[1..], H, F)
  }

  /** Python's `for h in order: s = s.replace(f"[{h}]", value(h))`, and the
      same loop with `replaceAll` in the page. */
  function ReplaceSeq(s: string, order: seq<string>, F: map<string, string>): string
    decreases |order|
  {
    if order == [] then s
    else ReplaceSeq(ReplaceAll(s, Bracket(order[0]), Lookup(F, order[0])), order[1..], F)
  }

  /** The names whose replacement actually changes their token: those whose
      value is not the token itself. */
  function Effective(order: seq<string>, F: map<string, string>): set<string> {
    set h | h in order && Lookup(F, h) != Bracket(h)
  }

  /** One more round of the loop. */
  lemma {:induction false} ReplaceSeqSnoc(s: string, order: seq<string>, h: string, F: map<string, string>)
    ensures ReplaceSeq(s, order + [h], F) == ReplaceAll(ReplaceSeq(s, order, F), Bracket(h), Lookup(F, h))
    decreases |order|
  {
    if order != [] {
      assert (order + [h])[1..] == order[1..] + [h];
      ReplaceSeqSnoc(ReplaceAll(s, Bracket(order[0]), Lookup(F, order[0])), order[1..], h, F);
    }
  }

  /** Values that keep the result canonical: no `[`, or the token itself. */
  ghost predicate SafeValues(order: seq<string>, F: map<string, string>) {
    forall h :: h in order ==>
      IsName(h) && ('[' !in Lookup(F, h) || Lookup(F, h) == Bracket(h))
  }

  lemma SubstAppend(a: seq<Piece>, b: seq<Piece>, H: set<string>, F: map<string, string>)
    ensures Subst(a + b, H, F) == Subst(a, H, F) + Subst(b, H, F)
  {
    if a == [] {
      assert a + b == b;
    } else {
      assert (a + b)[1..] == a[1..] + b;
      SubstAppend(a[1..], b, H, F);
    }
  }

  lemma SubstCanonical(ps: seq<Piece>, H: set<string>, F: map<string, string>)
    requires Canonical(ps)
    requires forall h :: h in H ==> '[' !in Lookup(F, h)
    ensures Canonical(Subst(ps, H, F))
  {
    if ps != [] {
      SubstCanonical(ps[1..], H, F);
      var head := if ps[0].Tok? && ps[0].name in H then Lits(Lookup(F, ps[0].name)) else [ps[0]];
      if ps[0].Tok? && ps[0].name in H {
        var v := Lookup(F, ps[0].name);
        assert forall i :: 0 <= i < |head| ==> head[i] == Lit(v[i]) && v[i] in v;
      }
    }
  }

  /** Substituting `h` after the set `D` is substituting `D + {h}`. */
  lemma SubstStep(ps: seq<Piece>, D: set<string>, h: string, F: map<string, string>)
    ensures Subst(Subst(ps, D, F), {h}, F) == Subst(ps, D + {h}, F)
  {
    if ps != [] {
      SubstStep(ps[1..], D, h, F);
      var head := if ps[0].Tok? && ps[0].name in D then Lits(Lookup(F, ps[0].name)) else [ps[0]];
      SubstAppend(head, Subst(ps[1..], D, F), {h}, F);
      if ps[0].Tok? && ps[0].name in D {
        LitsUntouched(Lookup(F, ps[0].name), {h}, F);
      } else {
        assert head[1..] == [];
      }
    }
  }

  lemma LitsUntouched(v: string, H: set<string>, F: map<string, string>)
    ensures Subst(Lits(v), H, F) == Lits(v)
  {
    if v != [] {
      assert Lits(v)[1..] == Lits(v[1..]);
      LitsUntouched(v[1..], H, F);
    }
  }

  /** When `p` does not start `x`, `replace` copies the first character. */
  lemma ReplaceStep(x: string, p: string, r: string)
    requires p != [] && x != [] && !(p <= x)
    ensures ReplaceAll(x, p, r) == [x[0]] + ReplaceAll(x[1..], p, r)
  {
    if |x| < |p| {
      assert |x[1..]| < |p|;
      assert x == [x[0]] + x[1..];
    }
  }

  /** A text that starts with the token of `n` does not start with the token
      of another name. */
  lemma OtherTokenNotPrefix(n: string, h: string, rest: string)
    requires IsName(n) && IsName(h) && n != h
    ensures !(Bracket(h) <= Bracket(n) + rest)
  {
    var x := Bracket(n) + rest;
    assert Bracket(n) <= x;
    TokenAtIff(x, n);
    TokenAtIff(x, h);
  }

  /** `replace` of one bracketed name steps over the token of another. */
  lemma ReplaceSkipsToken(n: string, h: string, rest: string, v: string)
    requires IsName(n) && IsName(h) && n != h
    ensures ReplaceAll(Bracket(n) + rest, Bracket(h), v) == Bracket(n) + ReplaceAll(rest, Bracket(h), v)
  {
    var b := Bracket(n);
    OtherTokenNotPrefix(n, h, rest);
    assert '[' !in b[1..] by {
      assert forall i :: 1 <= i < |b| ==> b[i] != '[';
    }
    ReplaceSkipsOpening(b, rest, Bracket(h), v);
  }

  /** `replace` of a pattern starting with `[` steps over a text whose only
      `[` is its first character, when the pattern does not match there. */
  lemma ReplaceSkipsOpening(s: string, t: string, p: string, r: string)
    requires p != [] && p[0] == '[' && s != [] && '[' !in s[1..]
    requires !(p <= s + t)
    ensures ReplaceAll(s + t, p, r) == s + ReplaceAll(t, p, r)
  {
    var u := s[1..] + t;
    assert s + t == [s[0]] + u;
    ReplaceCons(s[0], u, p, r);
    ReplaceSkipsPrefix(s[1..], t, p, r);
    assert [s[0]] + (s[1..] + ReplaceAll(t, p, r)) == s + ReplaceAll(t, p, r);
  }

  /** Where the pattern does not match, `replace` keeps the character. */
  lemma ReplaceCons(c: char, u: string, p: string, r: string)
    requires p != [] && !(p <= [c] + u)
    ensures ReplaceAll([c] + u, p, r) == [c] + ReplaceAll(u, p, r)
  {
    assert ([c] + u)[1..] == u;
    if |[c] + u| < |p| {
      assert |u| < |p|;
    }
  }

  /** One `replace` of `[h]` by a `[`-free value on a canonical text is the
      substitution of `h` on its pieces. */
  lemma {:induction false} ReplaceOne(ps: seq<Piece>, h: string, v: string, F: map<string, string>)
    requires Canonical(ps) && IsName(h) && '[' !in v && Lookup(F, h) == v
    ensures ReplaceAll(Flatten(ps), Bracket(h), v) == Flatten(Subst(ps, {h}, F))
  {
    if ps != [] {
      var rest := Flatten(ps[1..]);
      ReplaceOne(ps[1..], h, v, F);
      var head := if ps[0].Tok? && ps[0].name in {h} then Lits(v) else [ps[0]];
      assert Subst(ps, {h}, F) == head + Subst(ps[1..], {h}, F);
      FlattenAppend(head, Subst(ps[1..], {h}, F));
      assert Flatten(ps) == PieceText(ps[0]) + rest;
      match ps[0]
      case Lit(c) =>
        assert Flatten(head) == [c];
        ReplaceSkipsPrefix([c], rest, Bracket(h), v);
      case Tok(n) =>
        if n == h {
          var x := Bracket(h) + rest;
          assert Bracket(h) <= x && x[|Bracket(h)|..] == rest;
        } else {
          assert Flatten(head) == Bracket(n);
          ReplaceSkipsToken(n, h, rest, v);
        }
    }
  }

  /** The sequential loop over a list of names equals the simultaneous
      substitution of the names it really replaces, whatever their order,
      provided every `[` of the template opens a token and the values bring
      no `[` of their own. */
  lemma {:induction false} ReplaceSeqIsSubst(s: string, order: seq<string>, F: map<string, string>, D: set<string>)
    requires Canonical(Parse(s)) && SafeValues(order, F)
    requires forall h :: h in D ==> '[' !in Lookup(F, h)
    ensures ReplaceSeq(Flatten(Subst(Parse(s), D, F)), order, F)
         == Flatten(Subst(Parse(s), D + Effective(order, F), F))
  {
    var ps := Parse(s);
    var cur := Subst(ps, D, F);
    SubstCanonical(ps, D, F);
    if order == [] {
      assert Effective(order, F) == {};
      assert D + {} == D;
    } else {
      var h := order[0];
      var v := Lookup(F, h);
      var next := ReplaceAll(Flatten(cur), Bracket(h), v);
      assert SafeValues(order[1..], F);
      if v == Bracket(h) {
        ReplaceSelf(Flatten(cur), Bracket(h));
        ReplaceSeqIsSubst(s, order[1..], F, D);
        assert Effective(order, F) == Effective(order[1..], F);
      } else {
        ReplaceOne(cur, h, v, F);
        SubstStep(ps, D, h, F);
        assert next == Flatten(Subst(ps, D + {h}, F));
        ReplaceSeqIsSubst(s, order[1..], F, D + {h});
        assert Effective(order, F) == {h} + Effective(order[1..], F);
        assert D + {h} + Effective(order[1..], F) == D + Effective(order, F);
      }
    }
  }

  /** The sequential replacement loop on a template with no stray `[` does
      not depend on the order of the names, only on their set. */
  lemma ReplaceSeqOrderFree(s: string, order: seq<string>, F: map<string, string>)
    requires NoStrayBracket(s) && SafeValues(order, F)
    ensures ReplaceSeq(s, order, F) == Flatten(Subst(Parse(s), Effective(order, F), F))
  {
    var ps := Parse(s);
    SubstEmpty(ps, F);
    FlattenParse(s);
    ReplaceSeqIsSubst(s, order, F, {});
    assert {} + Effective(order, F) == Effective(order, F);
  }

  lemma SubstEmpty(ps: seq<Piece>, F: map<string, string>)
    ensures Subst(ps, {}, F) == ps
  {
    if ps != [] {
      SubstEmpty(ps[1..], F);
      assert [ps[0]] + ps[1..] == ps;
    }
  }

  /** After substitution the tokens left are exactly those not substituted. */
  lemma NamesAfterSubst(ps: seq<Piece>, H: set<string>, F: map<string, string>, n: string)
    ensures n in Names(Subst(ps, H, F)) <==> n in Names(ps) && n !in H
  {
    if ps != [] {
      var head := if ps[0].Tok? && ps[0].name in H then Lits(Lookup(F, ps[0].name)) else [ps[0]];
      NamesAppend(head, Subst(ps[1..], H, F));
      NamesAppend([ps[0]], ps[1..]);
      assert [ps[0]] + ps[1..] == ps;
      NamesAfterSubst(ps[1..], H, F, n);
      if ps[0].Tok? && ps[0].name in H {
        NamesOfLits(Lookup(F, ps[0].name));
      }
    }
  }

  /** On a template with no stray `[`, substituting `[`-free values for the
      names in `H` leaves exactly the tokens of the other names. */
  lemma ScanAfterSubst(s: string, H: set<string>, F: map<string, string>, n: string)
    requires NoStrayBracket(s)
    requires forall h :: h in H ==> '[' !in Lookup(F, h)
    ensures n in Scan(Flatten(Subst(Parse(s), H, F))) <==> n in Scan(s) && n !in H
  {
    SubstCanonical(Parse(s), H, F);
    ParseFlatten(Subst(Parse(s), H, F));
    NamesAfterSubst(Parse(s), H, F, n);
  }

  lemma NamesOfLits(v: string)
    ensures Names(Lits(v)) == []
  {
  }

  lemma ReplaceAFirst()
    ensures ReplaceAll("[[a]b]", "[a]", "") == "[b]"
  {
    var t := "[[a]b]";
    assert t[1..] == "[a]b]" && t[1] != "[a]"[1];
    ReplaceStep(t, "[a]", "");
    var u := t[1..];
    assert "[a]" <= u && u[3..] == "b]";
    assert ReplaceAll(u[3..], "[a]", "") == "b]";
  }

  lemma ReplaceBMisses()
    ensures ReplaceAll("[[a]b]", "[b]", "c") == "[[a]b]"
  {
    var t := "[[a]b]";
    var t1, t2, t3 := t[1..], t[2..], t[3..];
    assert t1 == "[a]b]" && t2 == "a]b]" && t3 == "]b]";
    assert t1[1..] == t2 && t2[1..] == t3;
    assert t[1] != "[b]"[1] && t1[1] != "[b]"[1] && t2[0] != '[' && t3[0] != '[';
    ReplaceStep(t, "[b]", "c");
    ReplaceStep(t1, "[b]", "c");
    ReplaceStep(t2, "[b]", "c");
    ReplaceStep(t3, "[b]", "c");
    assert ReplaceAll(t3[1..], "[b]", "c") == t3[1..];
  }

  /** A template where the order matters: with a stray `[` in front of a
      token, replacing `a` first creates a `[b]` that a later replacement
      of `b` consumes, while the other order leaves it in the text. */
  lemma OrderMattersWithStrayBracket()
    ensures var F := map["a" := "", "b" := "c"];
      ReplaceSeq("[[a]b]", ["a", "b"], F) == "c" &&
      ReplaceSeq("[[a]b]", ["b", "a"], F) == "[b]"
  {
    var F := map["a" := "", "b" := "c"];
    var t := "[[a]b]";
    assert Lookup(F, "a") == "" && Lookup(F, "b") == "c";
    assert Bracket("a") == "[a]" && Bracket("b") == "[b]";
    ReplaceAFirst();
    ReplaceBMisses();
    assert ReplaceAll("[b]", "[b]", "c") == "c";
    var ab: seq<string>, ba: seq<string> := ["a", "b"], ["b", "a"];
    assert ab[1..] == ["b"] && ba[1..] == ["a"];
    assert ReplaceSeq(t, ab, F) == ReplaceSeq("[b]", ["b"], F);
    assert ReplaceSeq("[b]", ["b"], F) == ReplaceSeq("c", [], F);
    assert ReplaceSeq(t, ba, F) == ReplaceSeq(t, ["a"], F);
    assert ReplaceSeq(t, ["a"], F) == ReplaceSeq("[b]", [], F);
  }
}

/** When two keys of a configuration file may be patched in either order: exactly when no match tangles with another. */
module PatchOrder {
  import opened Replacement
  import opened ConfigPattern

  /** A value whose quoted form neither ends early nor looks like the opening of the other key. */
  ghost predicate Fits(value: string, other: string) {
    NoQuote(value) && NoOpening(other, value)
  }

  /** Key `a` patched to `va` first, then key `b` to `vb`. */
  function Patched(a: string, va: string, b: string, vb: string, s: string): string {
    InOrder(Regex(a), Canonical(a, va), Regex(b), Canonical(b, vb), s)
  }

  lemma KeysApart(a: string, va: string, b: string, vb: string)
    requires Separate(a, b) && Fits(va, b) && Fits(vb, a)
    ensures Apart(Regex(a), Canonical(a, va), Regex(b), Canonical(b, vb))
  {
    RegexLocal(a);
    RegexLocal(b);
    KeysExclusive(a, b);
    CanonicalReads(a, va);
    CanonicalReads(b, vb);
    OtherNotInside(a, va, b);
    OtherNotInside(b, vb, a);
    PatchMakesNoNew(b, a, va);
    PatchMakesNoNew(a, b, vb);
  }

  // ---------------------------------------------------------------- a match that starts in the other key's value

  lemma {:induction false} FirstMatch(re: Pattern, s: string, n: nat) returns (p: nat)
    requires n <= |s| && !NoMatchBefore(re, s, n)
    ensures p < n && Match(re, s[p..]) > 0 && NoMatchBefore(re, s, p)
  {
    p := 0;
    while Match(re, s[p..]) == 0
      invariant p <= n && NoMatchBefore(re, s, p)
      decreases n - p
    {
      p := p + 1;
    }
  }

  lemma OpeningQuote(key: string, s: string)
    requires MatchLen(key, s) > 0
    ensures 0 < Opening(key, s) < MatchLen(key, s) && s[Opening(key, s) - 1] == '"'
  {
    var i := OpeningSound(key, s);
  }

  lemma ValueHasNoQuote(key: string, s: string)
    ensures forall k :: Opening(key, s) <= k < MatchLen(key, s) - 1 ==> s[k] != '"'
  {
    var o := Opening(key, s);
    assert forall k :: o <= k < MatchLen(key, s) - 1 ==> s[k] == s[o..][k - o];
  }

  /** The inner match starts behind the opening of the outer one and ends behind the outer one. */
  lemma InnerMatchLeaves(a: string, b: string, s: string, p: nat)
    requires Separate(a, b) && p < MatchLen(a, s) && MatchLen(b, s[p..]) > 0
    ensures Opening(a, s) <= p && p + MatchLen(b, s[p..]) > MatchLen(a, s)
  {
    OpeningQuote(b, s[p..]);
    if p < Opening(a, s) {
      MatchStartsWithKey(b, s[p..]);
      OpeningExcludes(a, b, s, p);
    } else {
      ValueHasNoQuote(a, s);
      assert s[p + Opening(b, s[p..]) - 1] == '"';
    }
  }

  lemma MatchIs(key: string, t: string, q: nat)
    requires Opening(key, t) > 0 && Opening(key, t) + q < |t| && Quote(t[Opening(key, t)..]) == q
    ensures MatchLen(key, t) == Opening(key, t) + q + 1
  {
  }

  lemma CutHasNoQuote(b: string, front: string, rest: string, o: nat)
    requires IsKey(b) && o <= |front| && forall k :: o <= k < |front| ==> front[k] != '"'
    ensures var t, e := front + b + " = \"" + rest, |front| + |b| + 3;
      t[e] == '"' && forall k :: o <= k < e ==> t[k] != '"'
  {
  }

  /** The outer opening, cut at `p` and continued with `b = "`, is a match that ends there. */
  lemma CutValue(a: string, b: string, s: string, p: nat, rest: string)
    requires IsKey(a) && IsKey(b) && 0 < Opening(a, s) <= p < MatchLen(a, s)
    ensures MatchLen(a, s[..p] + b + " = \"" + rest) == p + |b| + 4
  {
    var t, o, e := s[..p] + b + " = \"" + rest, Opening(a, s), p + |b| + 3;
    assert s[..o] <= t;
    OpeningLocal(a, s, t);
    ValueHasNoQuote(a, s);
    CutHasNoQuote(b, s[..p], rest, o);
    QuoteIs(t[o..], e - o);
    MatchIs(a, t, e - o);
  }

  lemma PatchKeepsHead(key: string, value: string, s: string)
    requires IsKey(key) && s != ""
    ensures var t := Patch(Regex(key), Canonical(key, value), s); t != "" && t[0] == s[0]
  {
    if MatchLen(key, s) > 0 {
      MatchStartsWithKey(key, s);
    }
  }

  /** Patching `a` first leaves what follows the outer match in front of the rest. */
  lemma OuterFirst(a: string, va: string, b: string, vb: string, s: string)
    requires Separate(a, b) && Fits(va, b) && Fits(vb, a)
    requires 0 < MatchLen(a, s) < |s|
    ensures var t := Patched(a, va, b, vb, s);
      |Canonical(a, va)| < |t| && t[|Canonical(a, va)|] == s[MatchLen(a, s)]
  {
    KeysApart(a, va, b, vb);
    HeadOfFirst(Regex(a), Canonical(a, va), Regex(b), Canonical(b, vb), s);
    var rest := s[MatchLen(a, s)..];
    PatchKeepsHead(a, va, rest);
    PatchKeepsHead(b, vb, Patch(Regex(a), Canonical(a, va), rest));
  }

  lemma CanonicalRegroups(front: string, key: string, value: string, tail: string)
    ensures front + (Canonical(key, value) + tail) == front + key + " = \"" + (value + "\"" + tail)
  {
  }

  /** Patching `b` first cuts the value of `a`; what is patched as the match of `a` ends in `b = "`. */
  lemma InnerPatched(a: string, b: string, value: string, s: string, p: nat) returns (tail: string)
    requires IsKey(a) && IsKey(b) && 0 < Opening(a, s) <= p < MatchLen(a, s)
    requires MatchLen(b, s[p..]) > 0 && NoMatchBefore(Regex(b), s, p)
    ensures var t := Patch(Regex(b), Canonical(b, value), s);
      0 < Match(Regex(a), t) && t[Match(Regex(a), t)..] == value + "\"" + tail
  {
    var re := Regex(b);
    var found := s[p..];
    PatchFirst(re, Canonical(b, value), s, p, found);
    tail := Patch(re, Canonical(b, value), found[Match(re, found)..]);
    CanonicalRegroups(s[..p], b, value, tail);
    CutValue(a, b, s, p, value + "\"" + tail);
  }

  /** Patching `b` first leaves the value of `b` in front of the rest. */
  lemma InnerFirst(a: string, va: string, b: string, x: char, s: string, p: nat)
    requires IsKey(a) && IsKey(b) && 0 < Opening(a, s) <= p < MatchLen(a, s)
    requires MatchLen(b, s[p..]) > 0 && NoMatchBefore(Regex(b), s, p)
    ensures var t := Patched(b, [x], a, va, s);
      |Canonical(a, va)| < |t| && t[|Canonical(a, va)|] == x
  {
    var tail := InnerPatched(a, b, [x], s, p);
    var t := Patch(Regex(b), Canonical(b, [x]), s);
    var rest := t[Match(Regex(a), t)..];
    PatchKeepsHead(a, va, rest);
    PatchHead(Regex(a), Canonical(a, va), t);
  }

  function Fresh(c: char, d: char, e: char): (x: char)
    ensures x != c && x != d && x != e && x != '"'
  {
    if '0' != c && '0' != d && '0' != e then '0'
    else if '1' != c && '1' != d && '1' != e then '1'
    else if '2' != c && '2' != d && '2' != e then '2'
    else '3'
  }

  lemma ShortFits(x: char, a: string, b: string)
    requires IsKey(a) && IsKey(b) && x != a[0] && x != '"'
    ensures Fits([x], a) && Fits("", b)
  {
  }

  lemma TangledHead(a: string, b: string, s: string) returns (va: string, vb: string)
    requires Separate(a, b) && MatchLen(a, s) > 0 && !NoMatchWithin(Regex(b), s, MatchLen(a, s))
    ensures Fits(va, b) && Fits(vb, a)
    ensures Patched(a, va, b, vb, s) != Patched(b, vb, a, va, s)
  {
    var p := FirstMatch(Regex(b), s, MatchLen(a, s));
    InnerMatchLeaves(a, b, s, p);
    OpeningQuote(a, s);
    var x := Fresh(s[MatchLen(a, s)], a[0], b[0]);
    va, vb := "", [x];
    ShortFits(x, a, b);
    OuterFirst(a, va, b, vb, s);
    InnerFirst(a, va, b, x, s, p);
  }

  lemma CommonHead(head: string, u: string, v: string)
    requires u != v
    ensures head + u != head + v
  {
    assert (head + u)[|head|..] == u && (head + v)[|head|..] == v;
  }

  /** Tangled text: for some values of the two keys, the order decides what is written. */
  lemma {:induction false} TangledOrdersDiffer(a: string, b: string, s: string) returns (va: string, vb: string)
    requires Separate(a, b) && !Untangled(Regex(a), Regex(b), s)
    ensures Fits(va, b) && Fits(vb, a)
    ensures Patched(a, va, b, vb, s) != Patched(b, vb, a, va, s)
    decreases |s|
  {
    var n, m := MatchLen(a, s), MatchLen(b, s);
    KeysExclusive(a, b);
    if n > 0 && !NoMatchWithin(Regex(b), s, n) {
      va, vb := TangledHead(a, b, s);
    } else if n == 0 && m > 0 && !NoMatchWithin(Regex(a), s, m) {
      vb, va := TangledHead(b, a, s);
    } else {
      var rest := if n > 0 then s[n..] else if m > 0 then s[m..] else s[1..];
      va, vb := TangledOrdersDiffer(a, b, rest);
      SameHead(a, va, b, vb, s);
    }
  }

  /** An untangled head comes out the same in both orders, in front of the rest. */
  lemma SameHead(a: string, va: string, b: string, vb: string, s: string)
    requires Separate(a, b) && Fits(va, b) && Fits(vb, a) && s != ""
    requires MatchLen(a, s) > 0 ==> NoMatchWithin(Regex(b), s, MatchLen(a, s))
    requires MatchLen(b, s) > 0 ==> NoMatchWithin(Regex(a), s, MatchLen(b, s))
    requires var n, m := MatchLen(a, s), MatchLen(b, s);
      var rest := if n > 0 then s[n..] else if m > 0 then s[m..] else s[1..];
      Patched(a, va, b, vb, rest) != Patched(b, vb, a, va, rest)
    ensures Patched(a, va, b, vb, s) != Patched(b, vb, a, va, s)
  {
    var n, m := MatchLen(a, s), MatchLen(b, s);
    var rest := if n > 0 then s[n..] else if m > 0 then s[m..] else s[1..];
    var u, v := Patched(a, va, b, vb, rest), Patched(b, vb, a, va, rest);
    var A, B, textA, textB := Regex(a), Regex(b), Canonical(a, va), Canonical(b, vb);
    KeysApart(a, va, b, vb);
    assert n == Match(A, s) && m == Match(B, s);
    if n > 0 {
      HeadOfFirst(A, textA, B, textB, s);
      HeadOfSecond(B, textB, A, textA, s);
      CommonHead(textA, u, v);
    } else if m > 0 {
      HeadOfSecond(A, textA, B, textB, s);
      HeadOfFirst(B, textB, A, textA, s);
      CommonHead(textB, u, v);
    } else {
      HeadOfNeither(A, textA, B, textB, s);
      HeadOfNeither(B, textB, A, textA, s);
      CommonHead([s[0]], u, v);
    }
  }

  ghost predicate Commute(a: string, b: string, s: string) {
    forall va, vb :: Fits(va, b) && Fits(vb, a) ==> Patched(a, va, b, vb, s) == Patched(b, vb, a, va, s)
  }

  /** The order never matters exactly when no match starts inside a leftmost match of the other key. */
  lemma CommuteIffUntangled(a: string, b: string, s: string)
    requires Separate(a, b)
    ensures Commute(a, b, s) <==> Untangled(Regex(a), Regex(b), s)
  {
    if Untangled(Regex(a), Regex(b), s) {
      forall va, vb | Fits(va, b) && Fits(vb, a)
        ensures Patched(a, va, b, vb, s) == Patched(b, vb, a, va, s)
      {
        KeysApart(a, va, b, vb);
        OrdersAgree(Regex(a), Canonical(a, va), Regex(b), Canonical(b, vb), s);
      }
    } else {
      var va, vb := TangledOrdersDiffer(a, b, s);
    }
  }

  lemma EmbeddedRegroups(a: string, b: string, value: string)
    ensures var s := Canonical(a, b + " = ") + (value + "\"");
      |a| + 4 <= |s| && s[|a| + 4..] == Canonical(b, value) + ""
  {
  }

  /** The text of key `a` ends in the opening of key `b`. */
  lemma EmbeddedTangles(a: string, b: string, value: string)
    requires IsKey(a) && IsKey(b) && NoQuote(value)
    ensures !Untangled(Regex(a), Regex(b), Canonical(a, b + " = ") + (value + "\""))
  {
    var outer, s := Canonical(a, b + " = "), Canonical(a, b + " = ") + (value + "\"");
    OuterNoQuote(b);
    CanonicalMatches(a, b + " = ", value + "\"");
    EmbeddedRegroups(a, b, value);
    CanonicalMatches(b, value, "");
    MatchInside(Regex(a), Regex(b), s, |outer|, |a| + 4);
  }

  lemma OuterNoQuote(b: string)
    requires IsKey(b)
    ensures NoQuote(b + " = ")
  {
  }

  lemma MatchInside(a: Pattern, b: Pattern, s: string, n: nat, p: nat)
    requires Match(a, s) == n <= |s| && 0 < p < n && Match(b, s[p..]) > 0
    ensures !Untangled(a, b, s)
  {
    assert !NoMatchWithin(b, s, n);
  }
}

/** Leftmost, non-overlapping replacement of the matches of any compiled pattern. */
module Replacement {
  import opened Options

  /** A compiled pattern: the length of the match at the head of a text, or 0 for none. */
  type Pattern = string -> nat

  /** A match is never longer than the text. */
  function Match(re: Pattern, s: string): (n: nat)
    ensures n <= |s|
  {
    if re(s) <= |s| then re(s) else 0
  }

  function Patch(re: Pattern, text: string, s: string): string
    decreases |s|
  {
    if s == "" then ""
    else
      var n := Match(re, s);
      if n > 0 then text + Patch(re, text, s[n..]) else [s[0]] + Patch(re, text, s[1..])
  }

  lemma PatchStep(re: Pattern, text: string, s: string, i: nat, out: string)
    requires i < |s|
    ensures var n := Match(re, s[i..]);
      out + Patch(re, text, s[i..]) ==
        if n > 0 then out + text + Patch(re, text, s[i + n..]) else out + [s[i]] + Patch(re, text, s[i + 1..])
  {
    var n := Match(re, s[i..]);
    assert s[i..][n..] == s[i + n..];
    assert s[i..][1..] == s[i + 1..];
  }

  /** What a replacement string comes to for the match of a given position and length. */
  type Filling = (nat, nat) -> string

  /** The text of `s` from position `i` on, with each match replaced by its filling. */
  function Rewrite(re: Pattern, fill: Filling, s: string, i: nat): string
    decreases |s| - i
  {
    if i >= |s| then ""
    else
      var n := Match(re, s[i..]);
      if n > 0 then fill(i, n) + Rewrite(re, fill, s, i + n) else [s[i]] + Rewrite(re, fill, s, i + 1)
  }

  /** When every match gets the same text, positions do not matter. */
  lemma {:induction false} RewriteIsPatch(re: Pattern, fill: Filling, text: string, s: string, i: nat)
    requires i <= |s| && forall p, n :: fill(p, n) == text
    ensures Rewrite(re, fill, s, i) == Patch(re, text, s[i..])
    decreases |s| - i
  {
    if i == |s| {
    } else {
      var n := Match(re, s[i..]);
      RewriteIsPatch(re, fill, text, s, if n > 0 then i + n else i + 1);
      assert s[i..][n..] == s[i + n..];
      assert s[i..][1..] == s[i + 1..];
    }
  }

  /** The next match from `i` on: where it starts, or the length of the text if there is none. */
  ghost predicate NextMatch(re: Pattern, s: string, i: nat, p: nat) {
    && i <= p <= |s| && (p < |s| ==> Match(re, s[p..]) > 0)
    && forall q: nat :: i <= q < p ==> Match(re, s[q..]) == 0
  }

  lemma KeepsOneMore(s: string, i: nat, p: nat, rest: string)
    requires i < p <= |s|
    ensures [s[i]] + (s[i + 1..p] + rest) == s[i..p] + rest
  {
    assert s[i..p] == [s[i]] + s[i + 1..p];
  }

  /** Where there is no match, the text stays. */
  lemma {:induction false} RewriteSkips(re: Pattern, fill: Filling, s: string, i: nat, p: nat)
    requires i <= p <= |s| && forall q: nat :: i <= q < p ==> Match(re, s[q..]) == 0
    ensures Rewrite(re, fill, s, i) == s[i..p] + Rewrite(re, fill, s, p)
    decreases p - i
  {
    if i == p {
    } else {
      RewriteSkips(re, fill, s, i + 1, p);
      KeepsOneMore(s, i, p, Rewrite(re, fill, s, p));
    }
  }

  /** Up to the next match the text stays; the match is filled in for its place and length; so on behind it. */
  lemma RewriteNext(re: Pattern, fill: Filling, s: string, i: nat, p: nat)
    requires NextMatch(re, s, i, p)
    ensures p == |s| ==> Rewrite(re, fill, s, i) == s[i..]
    ensures p < |s| ==>
      var n := Match(re, s[p..]);
      Rewrite(re, fill, s, i) == s[i..p] + (fill(p, n) + Rewrite(re, fill, s, p + n))
  {
    RewriteSkips(re, fill, s, i, p);
  }

  lemma ConcatAssociative(a: string, b: string, c: string)
    ensures a + (b + c) == a + b + c
  {
  }

  method RegexReplace(re: Pattern, fill: Filling, content: string) returns (out: string)
    ensures out == Rewrite(re, fill, content, 0)
  {
    out := "";
    var i := 0;
    while i < |content|
      invariant i <= |content|
      invariant Rewrite(re, fill, content, 0) == out + Rewrite(re, fill, content, i)
    {
      var n := Match(re, content[i..]);
      if n > 0 {
        ConcatAssociative(out, fill(i, n), Rewrite(re, fill, content, i + n));
        out := out + fill(i, n);
        i := i + n;
      } else {
        ConcatAssociative(out, [content[i]], Rewrite(re, fill, content, i + 1));
        out := out + [content[i]];
        i := i + 1;
      }
    }
  }

  ghost predicate NoMatchBefore(re: Pattern, s: string, n: nat)
    requires n <= |s|
  {
    forall p: nat :: p < n ==> Match(re, s[p..]) == 0
  }

  /** Text before the first match is kept. */
  lemma {:induction false} PatchSkips(re: Pattern, text: string, s: string, n: nat)
    requires n <= |s| && NoMatchBefore(re, s, n)
    ensures Patch(re, text, s) == s[..n] + Patch(re, text, s[n..])
  {
    if n > 0 {
      PatchSkips(re, text, s, n - 1);
      PatchStep(re, text, s, n - 1, s[..n - 1]);
      assert s[..n] == s[..n - 1] + [s[n - 1]];
    } else {
      assert s[0..] == s;
    }
  }

  lemma PatchHead(re: Pattern, text: string, t: string)
    requires Match(re, t) > 0
    ensures Patch(re, text, t) == text + Patch(re, text, t[Match(re, t)..])
  {
  }

  /** The first match is replaced, and the rest behind it patched. */
  lemma PatchFirst(re: Pattern, text: string, s: string, p: nat, found: string)
    requires p <= |s| && NoMatchBefore(re, s, p) && found == s[p..] && Match(re, found) > 0
    ensures Patch(re, text, s) == s[..p] + (text + Patch(re, text, found[Match(re, found)..]))
  {
    PatchSkips(re, text, s, p);
    PatchHead(re, text, found);
  }

  /** `t` keeps the first `n` characters of `s` and patches the rest. */
  ghost predicate PatchedFrom(re: Pattern, text: string, s: string, t: string, n: nat) {
    n <= |s| && n <= |t| && t[..n] == s[..n] && t[n..] == Patch(re, text, s[n..])
  }

  lemma UnpatchedHead(re: Pattern, text: string, s: string, t: string, n: nat)
    requires PatchedFrom(re, text, s, t, n) && n < |t| && !(text <= t[n..])
    ensures PatchedFrom(re, text, s, t, n + 1)
  {
    var rest := s[n..];
    assert rest != "" && Match(re, rest) == 0;
    assert rest[1..] == s[n + 1..] && t[n..][1..] == t[n + 1..];
    assert t[n] == t[n..][0] == rest[0] == s[n];
  }

  /** Read from `k` on, a text patched from there, without the replacement up to `n`, was not patched before `n`. */
  lemma {:induction false} UnpatchedPrefix(re: Pattern, text: string, s: string, t: string, k: nat, n: nat)
    requires PatchedFrom(re, text, s, t, k) && k <= n <= |t|
    requires forall p: nat :: k <= p < n ==> !(text <= t[p..])
    ensures PatchedFrom(re, text, s, t, n)
    decreases n - k
  {
    if k == n {
    } else {
      UnpatchedHead(re, text, s, t, k);
      UnpatchedPrefix(re, text, s, t, k + 1, n);
    }
  }

  // ---------------------------------------------------------------- laws of patterns and their replacements

  /** A match depends on its own text only. */
  ghost predicate Local(re: Pattern) {
    forall s, t :: Match(re, s) > 0 && s[..Match(re, s)] <= t ==> Match(re, t) == Match(re, s)
  }

  /** The replacement is itself a match, of its own length, whatever follows. */
  ghost predicate Reads(re: Pattern, text: string) {
    text != "" && forall rest :: Match(re, text + rest) == |text|
  }

  /** No match starts in the replacement text from position `from` on, whatever follows. */
  ghost predicate NoneInside(re: Pattern, text: string, from: nat) {
    forall rest: string, p: nat :: from <= p < |text| ==> Match(re, (text + rest)[p..]) == 0
  }

  /** Replacing matches of `other` behind the head makes no match of `re` at the head. */
  ghost predicate NoNew(re: Pattern, other: Pattern, text: string) {
    forall s :: s != "" && Match(re, s) == 0 && Match(other, s) == 0 ==> Match(re, Patch(other, text, s)) == 0
  }

  ghost predicate Exclusive(a: Pattern, b: Pattern) {
    forall s :: Match(a, s) == 0 || Match(b, s) == 0
  }

  // ---------------------------------------------------------------- patterns that end in a quoted value

  predicate NoQuote(s: string) {
    forall i :: 0 <= i < |s| ==> s[i] != '"'
  }

  ghost predicate NeedsQuote(re: Pattern) {
    forall s :: NoQuote(s) ==> Match(re, s) == 0
  }

  /** `re` is the opening `op` followed by text up to a closing quote: only that quote can be missing. */
  ghost predicate OpenedBy(re: Pattern, op: Pattern) {
    forall s ::
      && (Match(re, s) > 0 ==> Match(op, s) > 0)
      && (Match(op, s) > 0 && Match(re, s) == 0 ==> NoQuote(s[Match(op, s)..]))
  }

  /** The replacement `text` does not start inside an opening. */
  ghost predicate AbsentInside(op: Pattern, text: string) {
    forall s: string, p: nat :: 0 < p < Match(op, s) ==> !(text <= s[p..])
  }

  lemma {:induction false} NoQuoteNoPatch(re: Pattern, text: string, s: string)
    requires NeedsQuote(re) && NoQuote(s)
    ensures Patch(re, text, s) == s
  {
    if s == "" {
    } else {
      NoQuoteNoPatch(re, text, s[1..]);
    }
  }

  /** An opening at the head of a text patched behind its head was there before. */
  lemma OpeningStays(op: Pattern, other: Pattern, text: string, s: string)
    requires Local(op) && AbsentInside(op, text)
    requires s != "" && Match(other, s) == 0 && Match(op, Patch(other, text, s)) > 0
    ensures var t := Patch(other, text, s);
      var o := Match(op, t);
      Match(op, s) == o && PatchedFrom(other, text, s, t, o)
  {
    var t := Patch(other, text, s);
    var o := Match(op, t);
    assert PatchedFrom(other, text, s, t, 1);
    UnpatchedPrefix(other, text, s, t, 1, o);
    assert t[..o] <= s;
  }

  lemma UnpatchedTail(other: Pattern, text: string, s: string, t: string, o: nat)
    requires PatchedFrom(other, text, s, t, o) && NeedsQuote(other) && NoQuote(s[o..])
    ensures t == s
  {
    NoQuoteNoPatch(other, text, s[o..]);
    assert t == t[..o] + t[o..] && s == s[..o] + s[o..];
  }

  lemma OpenedWithoutMatch(re: Pattern, op: Pattern, s: string)
    requires OpenedBy(re, op)
    ensures Match(re, s) > 0 ==> Match(op, s) > 0
    ensures Match(op, s) > 0 && Match(re, s) == 0 ==> NoQuote(s[Match(op, s)..])
  {
  }

  /** A head without a match still has none when only text behind it was patched. */
  lemma HeadStaysUnmatched(re: Pattern, op: Pattern, other: Pattern, text: string, s: string)
    requires Local(op) && OpenedBy(re, op) && NeedsQuote(other) && AbsentInside(op, text)
    requires s != "" && Match(re, s) == 0 && Match(other, s) == 0
    ensures Match(re, Patch(other, text, s)) == 0
  {
    var t := Patch(other, text, s);
    OpenedWithoutMatch(re, op, s);
    OpenedWithoutMatch(re, op, t);
    if Match(op, t) > 0 {
      OpeningStays(op, other, text, s);
      UnpatchedTail(other, text, s, t, Match(op, t));
    }
  }

  /** Such patterns make no new match at the head when text behind it is patched. */
  lemma QuotedNoNew(re: Pattern, op: Pattern, other: Pattern, text: string)
    requires Local(op) && OpenedBy(re, op) && NeedsQuote(other) && AbsentInside(op, text)
    ensures NoNew(re, other, text)
  {
    forall s | s != "" && Match(re, s) == 0 && Match(other, s) == 0
      ensures Match(re, Patch(other, text, s)) == 0
    {
      HeadStaysUnmatched(re, op, other, text, s);
    }
  }

  // ---------------------------------------------------------------- one pattern

  /** The text with every match blanked out. */
  function Outline(re: Pattern, s: string): seq<Option<char>>
    decreases |s|
  {
    if s == "" then []
    else
      var n := Match(re, s);
      if n > 0 then [None] + Outline(re, s[n..]) else [Some(s[0])] + Outline(re, s[1..])
  }

  /** Patching changes the matches only: everything outside them stays, in its place. */
  lemma {:induction false} OutlineKept(re: Pattern, text: string, s: string)
    requires Reads(re, text) && NoNew(re, re, text)
    ensures Outline(re, Patch(re, text, s)) == Outline(re, s)
    decreases |s|
  {
    if s == "" {
    } else {
      var n := Match(re, s);
      if n > 0 {
        OutlineKept(re, text, s[n..]);
        var rest := Patch(re, text, s[n..]);
        assert (text + rest)[|text|..] == rest;
      } else {
        OutlineKept(re, text, s[1..]);
        assert Match(re, Patch(re, text, s)) == 0;
      }
    }
  }

  /** Patching twice is patching once. */
  lemma {:induction false} PatchTwice(re: Pattern, text: string, s: string)
    requires Reads(re, text) && NoNew(re, re, text)
    ensures Patch(re, text, Patch(re, text, s)) == Patch(re, text, s)
    decreases |s|
  {
    if s == "" {
    } else {
      var n := Match(re, s);
      if n > 0 {
        PatchTwice(re, text, s[n..]);
        var rest := Patch(re, text, s[n..]);
        assert (text + rest)[|text|..] == rest;
      } else {
        PatchTwice(re, text, s[1..]);
        assert Match(re, Patch(re, text, s)) == 0;
      }
    }
  }

  /** A match at any position whatever is exactly the replacement. */
  predicate EveryRead(re: Pattern, text: string, s: string) {
    s == "" || ((Match(re, s) > 0 ==> s[..Match(re, s)] == text) && EveryRead(re, text, s[1..]))
  }

  lemma {:induction false} EveryReadSuffix(re: Pattern, text: string, s: string, n: nat)
    requires n <= |s| && EveryRead(re, text, s)
    ensures EveryRead(re, text, s[n..])
  {
    if n > 0 {
      EveryReadSuffix(re, text, s[1..], n - 1);
      assert s[1..][n - 1..] == s[n..];
    } else {
      assert s[0..] == s;
    }
  }

  /** `front` adds no match of its own. */
  lemma {:induction false} EveryReadPrepend(re: Pattern, text: string, s: string, n: nat)
    requires n <= |s| && NoMatchBefore(re, s, n) && EveryRead(re, text, s[n..])
    ensures EveryRead(re, text, s)
  {
    assert s[0..] == s;
    if n == 0 {
    } else {
      forall p: nat | p < n - 1
        ensures Match(re, s[1..][p..]) == 0
      {
        assert s[1..][p..] == s[p + 1..];
      }
      assert s[1..][n - 1..] == s[n..];
      EveryReadPrepend(re, text, s[1..], n - 1);
    }
  }

  /** A match that reads the replacement is replaced by itself. */
  lemma HeadReads(re: Pattern, text: string, s: string)
    requires s != "" && EveryRead(re, text, s)
    ensures var n := Match(re, s); n > 0 ==> s == text + s[n..] && EveryRead(re, text, s[n..])
  {
    var n := Match(re, s);
    if n > 0 {
      EveryReadSuffix(re, text, s, n);
      assert s == s[..n] + s[n..];
    }
  }

  lemma {:induction false} NothingToPatch(re: Pattern, text: string, s: string)
    requires EveryRead(re, text, s)
    ensures Patch(re, text, s) == s
    decreases |s|
  {
    if s == "" {
    } else {
      HeadReads(re, text, s);
      var n := Match(re, s);
      NothingToPatch(re, text, if n > 0 then s[n..] else s[1..]);
      assert n == 0 ==> s == [s[0]] + s[1..];
    }
  }

  lemma {:induction false} PatchedEveryRead(re: Pattern, text: string, s: string)
    requires Reads(re, text) && NoneInside(re, text, 1) && NoNew(re, re, text)
    ensures EveryRead(re, text, Patch(re, text, s))
    decreases |s|
  {
    if s == "" {
    } else {
      var n := Match(re, s);
      if n > 0 {
        PatchedEveryRead(re, text, s[n..]);
        var t := text + Patch(re, text, s[n..]);
        forall p: nat | p < |text| - 1
          ensures Match(re, t[1..][p..]) == 0
        {
          assert t[1..][p..] == t[p + 1..];
        }
        assert t[1..][|text| - 1..] == Patch(re, text, s[n..]);
        EveryReadPrepend(re, text, t[1..], |text| - 1);
      } else {
        PatchedEveryRead(re, text, s[1..]);
        assert Match(re, Patch(re, text, s)) == 0;
        assert Patch(re, text, s)[1..] == Patch(re, text, s[1..]);
      }
    }
  }

  // ---------------------------------------------------------------- two patterns

  /** Patching a second pattern keeps the first one patched. */
  lemma {:induction false} OtherKeepsEveryRead(a: Pattern, textA: string, b: Pattern, textB: string, s: string)
    requires Local(a) && NoneInside(b, textA, 0) && NoneInside(a, textB, 0) && NoNew(a, b, textB)
    requires EveryRead(a, textA, s)
    ensures EveryRead(a, textA, Patch(b, textB, s))
    decreases |s|
  {
    if s == "" {
    } else {
      var n, t := Match(b, s), Patch(b, textB, s);
      if n > 0 {
        EveryReadSuffix(a, textA, s, n);
        OtherKeepsEveryRead(a, textA, b, textB, s[n..]);
        assert t[|textB|..] == Patch(b, textB, s[n..]);
        EveryReadPrepend(a, textA, t, |textB|);
      } else {
        OtherKeepsEveryRead(a, textA, b, textB, s[1..]);
        assert t[1..] == Patch(b, textB, s[1..]);
        HeadStaysRead(a, textA, b, textB, s);
      }
    }
  }

  lemma HeadStaysRead(a: Pattern, textA: string, b: Pattern, textB: string, s: string)
    requires Local(a) && NoneInside(b, textA, 0) && NoNew(a, b, textB)
    requires s != "" && Match(b, s) == 0 && EveryRead(a, textA, s)
    ensures var t := Patch(b, textB, s); Match(a, t) > 0 ==> t[..Match(a, t)] == textA
  {
    var m, t := Match(a, s), Patch(b, textB, s);
    if m > 0 {
      assert s == textA + s[m..];
      PatchSkips(b, textB, s, m);
      assert s[..m] <= t;
      assert Match(a, t) == m;
    }
  }

  /** Patching both keys, twice over, is patching both once, and every match of either reads its value. */
  lemma BothTwice(a: Pattern, textA: string, b: Pattern, textB: string, s: string)
    requires Local(a) && Reads(a, textA) && Reads(b, textB)
    requires NoneInside(a, textA, 1) && NoneInside(b, textA, 0) && NoneInside(a, textB, 0) && NoneInside(b, textB, 1)
    requires NoNew(a, a, textA) && NoNew(a, b, textB) && NoNew(b, b, textB)
    ensures var once := Patch(b, textB, Patch(a, textA, s));
      Patch(b, textB, Patch(a, textA, once)) == once && EveryRead(a, textA, once) && EveryRead(b, textB, once)
  {
    var first := Patch(a, textA, s);
    PatchedEveryRead(a, textA, s);
    OtherKeepsEveryRead(a, textA, b, textB, first);
    NothingToPatch(a, textA, Patch(b, textB, first));
    PatchedEveryRead(b, textB, first);
    NothingToPatch(b, textB, Patch(b, textB, first));
  }

  /** No match of either pattern starts inside a leftmost match of the other. */
  ghost predicate Untangled(a: Pattern, b: Pattern, s: string)
    decreases |s|
  {
    s == "" ||
    var n, m := Match(a, s), Match(b, s);
    if n > 0 then NoMatchWithin(b, s, n) && Untangled(a, b, s[n..])
    else if m > 0 then NoMatchWithin(a, s, m) && Untangled(a, b, s[m..])
    else Untangled(a, b, s[1..])
  }

  ghost predicate NoMatchWithin(re: Pattern, s: string, n: nat)
    requires n <= |s|
  {
    forall p: nat :: 0 < p < n ==> Match(re, s[p..]) == 0
  }

  /** Both patterns replaced in a single scan. */
  function PatchBoth(a: Pattern, textA: string, b: Pattern, textB: string, s: string): string
    decreases |s|
  {
    if s == "" then ""
    else
      var n, m := Match(a, s), Match(b, s);
      if n > 0 then textA + PatchBoth(a, textA, b, textB, s[n..])
      else if m > 0 then textB + PatchBoth(a, textA, b, textB, s[m..])
      else [s[0]] + PatchBoth(a, textA, b, textB, s[1..])
  }

  /** What keeps the two patterns and their replacements from disturbing each other. */
  ghost predicate Apart(a: Pattern, textA: string, b: Pattern, textB: string) {
    && Local(a) && Local(b) && Exclusive(a, b)
    && Reads(a, textA) && NoneInside(b, textA, 0) && NoNew(b, a, textA)
    && Reads(b, textB) && NoneInside(a, textB, 0) && NoNew(a, b, textB)
  }

  function InOrder(a: Pattern, textA: string, b: Pattern, textB: string, s: string): string {
    Patch(b, textB, Patch(a, textA, s))
  }

  lemma HeadOfFirst(a: Pattern, textA: string, b: Pattern, textB: string, s: string)
    requires Apart(a, textA, b, textB) && Match(a, s) > 0
    ensures InOrder(a, textA, b, textB, s) == textA + InOrder(a, textA, b, textB, s[Match(a, s)..])
  {
    var t := Patch(a, textA, s);
    PatchSkips(b, textB, t, |textA|);
    assert t[..|textA|] == textA && t[|textA|..] == Patch(a, textA, s[Match(a, s)..]);
  }

  lemma HeadOfSecond(a: Pattern, textA: string, b: Pattern, textB: string, s: string)
    requires Apart(a, textA, b, textB) && Match(b, s) > 0 && NoMatchWithin(a, s, Match(b, s))
    ensures InOrder(a, textA, b, textB, s) == textB + InOrder(a, textA, b, textB, s[Match(b, s)..])
  {
    var m, t := Match(b, s), Patch(a, textA, s);
    assert s[0..] == s;
    PatchSkips(a, textA, s, m);
    assert s[..m] <= t && t[m..] == Patch(a, textA, s[m..]);
    assert Match(b, t) == m;
  }

  lemma HeadOfNeither(a: Pattern, textA: string, b: Pattern, textB: string, s: string)
    requires Apart(a, textA, b, textB) && s != "" && Match(a, s) == 0 && Match(b, s) == 0
    ensures InOrder(a, textA, b, textB, s) == [s[0]] + InOrder(a, textA, b, textB, s[1..])
  {
    var t := Patch(a, textA, s);
    assert Match(b, t) == 0 && t[1..] == Patch(a, textA, s[1..]);
  }

  /** On untangled text, one pattern after the other is the single scan. */
  lemma {:induction false} OneThenOther(a: Pattern, textA: string, b: Pattern, textB: string, s: string)
    requires Apart(a, textA, b, textB) && Untangled(a, b, s)
    ensures InOrder(a, textA, b, textB, s) == PatchBoth(a, textA, b, textB, s)
    decreases |s|
  {
    if s == "" {
    } else {
      var n, m := Match(a, s), Match(b, s);
      OneThenOther(a, textA, b, textB, if n > 0 then s[n..] else if m > 0 then s[m..] else s[1..]);
      if n > 0 {
        HeadOfFirst(a, textA, b, textB, s);
      } else if m > 0 {
        HeadOfSecond(a, textA, b, textB, s);
      } else {
        HeadOfNeither(a, textA, b, textB, s);
      }
    }
  }

  /** On untangled text the order of the two patterns does not matter. */
  lemma OrdersAgree(a: Pattern, textA: string, b: Pattern, textB: string, s: string)
    requires Apart(a, textA, b, textB) && Untangled(a, b, s)
    ensures InOrder(a, textA, b, textB, s) == InOrder(b, textB, a, textA, s)
  {
    UntangledSymmetric(a, b, s);
    OneThenOther(a, textA, b, textB, s);
    OneThenOther(b, textB, a, textA, s);
    PatchBothSymmetric(a, textA, b, textB, s);
  }

  lemma {:induction false} UntangledSymmetric(a: Pattern, b: Pattern, s: string)
    requires Exclusive(a, b)
    ensures Untangled(a, b, s) == Untangled(b, a, s)
    decreases |s|
  {
    if s == "" {
    } else {
      var n, m := Match(a, s), Match(b, s);
      UntangledSymmetric(a, b, if n > 0 then s[n..] else if m > 0 then s[m..] else s[1..]);
    }
  }

  lemma {:induction false} PatchBothSymmetric(a: Pattern, textA: string, b: Pattern, textB: string, s: string)
    requires Exclusive(a, b)
    ensures PatchBoth(a, textA, b, textB, s) == PatchBoth(b, textB, a, textA, s)
    decreases |s|
  {
    if s == "" {
    } else {
      var n, m := Match(a, s), Match(b, s);
      PatchBothSymmetric(a, textA, b, textB, if n > 0 then s[n..] else if m > 0 then s[m..] else s[1..]);
    }
  }

  // ---------------------------------------------------------------- what both patches leave alone

  /** The text with every leftmost match of either pattern blanked out. */
  function OutlineBoth(a: Pattern, b: Pattern, s: string): seq<Option<char>>
    decreases |s|
  {
    if s == "" then []
    else
      var n, m := Match(a, s), Match(b, s);
      if n > 0 then [None] + OutlineBoth(a, b, s[n..])
      else if m > 0 then [None] + OutlineBoth(a, b, s[m..])
      else [Some(s[0])] + OutlineBoth(a, b, s[1..])
  }

  /** Neither pattern, once patched, makes a new match of itself. */
  ghost predicate Stable(a: Pattern, textA: string, b: Pattern, textB: string) {
    NoNew(a, a, textA) && NoNew(b, b, textB)
  }

  lemma NeitherStays(a: Pattern, textA: string, b: Pattern, textB: string, s: string)
    requires Apart(a, textA, b, textB) && Stable(a, textA, b, textB)
    requires s != "" && Match(a, s) == 0 && Match(b, s) == 0
    ensures var t := InOrder(a, textA, b, textB, s); Match(a, t) == 0 && Match(b, t) == 0
  {
    var t := Patch(a, textA, s);
    assert t != "" && Match(a, t) == 0 && Match(b, t) == 0;
  }

  lemma OutlineStep(a: Pattern, b: Pattern, text: string, rest: string, n: nat)
    requires 0 < |text| == n
    requires Match(a, text + rest) == n || (Match(a, text + rest) == 0 && Match(b, text + rest) == n)
    ensures OutlineBoth(a, b, text + rest) == [None] + OutlineBoth(a, b, rest)
  {
    assert (text + rest)[n..] == rest;
  }

  /** On untangled text, everything outside the matches of both keys stays, in its place. */
  lemma {:induction false} OutlineBothKept(a: Pattern, textA: string, b: Pattern, textB: string, s: string)
    requires Apart(a, textA, b, textB) && Stable(a, textA, b, textB) && Untangled(a, b, s)
    ensures OutlineBoth(a, b, InOrder(a, textA, b, textB, s)) == OutlineBoth(a, b, s)
    decreases |s|
  {
    if s == "" {
    } else {
      var n, m := Match(a, s), Match(b, s);
      var rest := if n > 0 then s[n..] else if m > 0 then s[m..] else s[1..];
      OutlineBothKept(a, textA, b, textB, rest);
      var after := InOrder(a, textA, b, textB, rest);
      if n > 0 {
        HeadOfFirst(a, textA, b, textB, s);
        OutlineStep(a, b, textA, after, |textA|);
      } else if m > 0 {
        HeadOfSecond(a, textA, b, textB, s);
        OutlineStep(a, b, textB, after, |textB|);
      } else {
        HeadOfNeither(a, textA, b, textB, s);
        NeitherStays(a, textA, b, textB, s);
        assert ([s[0]] + after)[1..] == after;
      }
    }
  }
}

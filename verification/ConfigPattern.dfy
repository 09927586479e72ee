/**
 The pattern key\s*=\s*"[^"]*" of ConfigManager::save() as an explicit scanner. Its character
 classes exclude each other, so from a given start there is at most one match.
 */
module ConfigPattern {
  import opened Replacement

  predicate IsSpace(c: char) {
    c == ' ' || c == '\t' || c == '\n' || c == '\r' || c == 11 as char || c == 12 as char
  }

  /** White space is the six characters of the regex class: tab to carriage return, and the blank. */
  lemma WhiteSpaceIs(c: char)
    ensures IsSpace(c) <==> c as int in {9, 10, 11, 12, 13, 32}
  {
    assert '\t' as int == 9 && '\n' as int == 10 && '\r' as int == 13 && ' ' as int == 32;
    assert (11 as char) as int == 11 && (12 as char) as int == 12;
    assert (c as int) as char == c;
  }

  /** Characters of the pattern between the key and the quoted value. */
  predicate IsDelimiter(c: char) {
    IsSpace(c) || c == '=' || c == '"'
  }

  predicate IsKey(key: string) {
    key != "" && forall i :: 0 <= i < |key| ==> !IsDelimiter(key[i])
  }

  function Spaces(s: string): (n: nat)
    ensures n <= |s| && (forall i :: 0 <= i < n ==> IsSpace(s[i]))
    ensures n < |s| ==> !IsSpace(s[n])
  {
    if s != "" && IsSpace(s[0]) then 1 + Spaces(s[1..]) else 0
  }

  /** Length of key\s*=\s*" at the head of the text, or 0. */
  function Opening(key: string, s: string): (o: nat)
    ensures o <= |s|
  {
    if !(key <= s) then 0
    else
      var i := |key| + Spaces(s[|key|..]);
      if i == |s| || s[i] != '=' then 0
      else
        var j := i + 1 + Spaces(s[i + 1..]);
        if j == |s| || s[j] != '"' then 0 else j + 1
  }

  /** Index of the first quote, or the length of the text. */
  function Quote(s: string): (q: nat)
    ensures q <= |s| && (forall i :: 0 <= i < q ==> s[i] != '"')
    ensures q < |s| ==> s[q] == '"'
  {
    if s == "" || s[0] == '"' then 0 else 1 + Quote(s[1..])
  }

  /** Length of the whole match at the head of the text, or 0. */
  function MatchLen(key: string, s: string): (n: nat)
    ensures n <= |s|
  {
    var o := Opening(key, s);
    if o == 0 then 0
    else
      var q := Quote(s[o..]);
      if o + q == |s| then 0 else o + q + 1
  }

  function Regex(key: string): Pattern {
    (s: string) => MatchLen(key, s)
  }

  function OpeningRegex(key: string): Pattern {
    (s: string) => Opening(key, s)
  }

  function Canonical(key: string, value: string): string {
    key + " = \"" + value + "\""
  }

  // ---------------------------------------------------------------- the scanner reads a prefix

  /** The opening `w` has its equals sign at `i`. */
  predicate EqualsAt(key: string, w: string, i: nat) {
    && |key| <= i < |w| - 1
    && key <= w
    && (forall k :: |key| <= k < i ==> IsSpace(w[k]))
    && w[i] == '='
    && (forall k :: i < k < |w| - 1 ==> IsSpace(w[k]))
    && w[|w| - 1] == '"'
  }

  lemma OpeningSound(key: string, s: string) returns (i: nat)
    requires Opening(key, s) > 0
    ensures EqualsAt(key, s[..Opening(key, s)], i)
  {
    i := |key| + Spaces(s[|key|..]);
    assert forall k :: |key| <= k < i ==> s[k] == s[|key|..][k - |key|];
    assert forall k :: i < k < Opening(key, s) - 1 ==> s[k] == s[i + 1..][k - i - 1];
  }

  lemma SpacesAre(s: string, from: nat, n: nat)
    requires from <= n < |s| && (forall i :: from <= i < n ==> IsSpace(s[i])) && !IsSpace(s[n])
    ensures Spaces(s[from..]) == n - from
  {
  }

  lemma OpeningIs(key: string, s: string, i: nat, j: nat)
    requires key <= s && |key| <= i < j < |s| && s[i] == '=' && s[j] == '"'
    requires Spaces(s[|key|..]) == i - |key| && Spaces(s[i + 1..]) == j - i - 1
    ensures Opening(key, s) == j + 1
  {
  }

  lemma PartsInText(key: string, s: string, o: nat, i: nat)
    requires o <= |s| && EqualsAt(key, s[..o], i)
    ensures key <= s && |key| <= i < o - 1 && s[i] == '=' && s[o - 1] == '"'
    ensures (forall k :: |key| <= k < i ==> IsSpace(s[k])) && (forall k :: i < k < o - 1 ==> IsSpace(s[k]))
  {
    assert forall k :: 0 <= k < o ==> s[..o][k] == s[k];
  }

  lemma OpeningComplete(key: string, s: string, o: nat, i: nat)
    requires o <= |s| && EqualsAt(key, s[..o], i)
    ensures Opening(key, s) == o > 0
  {
    PartsInText(key, s, o, i);
    SpacesAre(s, |key|, i);
    SpacesAre(s, i + 1, o - 1);
    OpeningIs(key, s, i, o - 1);
  }

  lemma QuoteIs(s: string, q: nat)
    requires q < |s| && s[q] == '"' && forall i :: 0 <= i < q ==> s[i] != '"'
    ensures Quote(s) == q
  {
  }

  lemma OpeningLocal(key: string, s: string, t: string)
    requires Opening(key, s) > 0 && s[..Opening(key, s)] <= t
    ensures Opening(key, t) == Opening(key, s)
  {
    var i := OpeningSound(key, s);
    assert t[..Opening(key, s)] == s[..Opening(key, s)];
    OpeningComplete(key, t, Opening(key, s), i);
  }

  lemma MatchParts(key: string, s: string)
    requires MatchLen(key, s) > 0
    ensures var n, o := MatchLen(key, s), Opening(key, s);
      0 < o < n && s[n - 1] == '"' && forall i :: o <= i < n - 1 ==> s[i] != '"'
  {
    var o := Opening(key, s);
    assert forall i :: o <= i < |s| ==> s[i] == s[o..][i - o];
  }

  lemma MatchFromParts(key: string, t: string, n: nat)
    requires 0 < Opening(key, t) < n <= |t| && t[n - 1] == '"'
    requires forall i :: Opening(key, t) <= i < n - 1 ==> t[i] != '"'
    ensures MatchLen(key, t) == n
  {
    var o := Opening(key, t);
    assert forall i :: 0 <= i < n - o ==> t[o..][i] == t[o + i];
    QuoteIs(t[o..], n - 1 - o);
  }

  lemma MatchLocal(key: string, s: string, t: string)
    requires MatchLen(key, s) > 0 && s[..MatchLen(key, s)] <= t
    ensures MatchLen(key, t) == MatchLen(key, s)
  {
    var n, o := MatchLen(key, s), Opening(key, s);
    MatchParts(key, s);
    assert forall i :: 0 <= i < n ==> t[i] == s[..n][i] == s[i];
    assert s[..o] <= t;
    OpeningLocal(key, s, t);
    MatchFromParts(key, t, n);
  }

  lemma RegexLocal(key: string)
    ensures Local(Regex(key)) && Local(OpeningRegex(key))
  {
    forall s, t | Match(Regex(key), s) > 0 && s[..Match(Regex(key), s)] <= t
      ensures Match(Regex(key), t) == Match(Regex(key), s)
    {
      MatchLocal(key, s, t);
    }
    forall s, t | Match(OpeningRegex(key), s) > 0 && s[..Match(OpeningRegex(key), s)] <= t
      ensures Match(OpeningRegex(key), t) == Match(OpeningRegex(key), s)
    {
      OpeningLocal(key, s, t);
    }
  }

  /** The match is the opening, a text without quotes, and the quote that closes it. */
  lemma RegexQuoted(key: string)
    ensures OpenedBy(Regex(key), OpeningRegex(key)) && NeedsQuote(Regex(key))
  {
    forall s
      ensures NoQuote(s) ==> MatchLen(key, s) == 0
      ensures Opening(key, s) > 0 && MatchLen(key, s) == 0 ==> NoQuote(s[Opening(key, s)..])
    {
      if Opening(key, s) > 0 {
        var i := OpeningSound(key, s);
        assert s[Opening(key, s) - 1] == '"';
      }
    }
  }

  // ---------------------------------------------------------------- where keys can occur

  ghost predicate Contains(s: string, key: string) {
    exists p: nat :: p <= |s| && key <= s[p..]
  }

  ghost predicate Separate(a: string, b: string) {
    IsKey(a) && IsKey(b) && !Contains(a, b) && !Contains(b, a)
  }

  /** Behind its key, an opening is all delimiters. */
  lemma OpeningDelimiters(key: string, s: string, m: nat)
    requires |key| <= m < Opening(key, s)
    ensures IsDelimiter(s[m])
  {
    var i := OpeningSound(key, s);
    assert s[m] == s[..Opening(key, s)][m];
  }

  /** A key that starts inside an opening lies inside the key of that opening. */
  lemma OpeningExcludes(key: string, other: string, s: string, p: nat)
    requires IsKey(key) && IsKey(other)
    requires p < Opening(key, s) && other <= s[p..]
    ensures p + |other| <= |key| && other <= key[p..]
  {
    var m := if p < |key| then |key| else p;
    OpeningDelimiters(key, s, m);
    assert forall k :: p <= k < p + |other| ==> s[k] == other[k - p] && !IsDelimiter(s[k]);
    assert forall k :: p <= k < |key| ==> key[k] == s[k];
  }

  /** Canonical text is a match of its own length, whatever follows. */
  lemma CanonicalMatches(key: string, value: string, rest: string)
    requires IsKey(key) && NoQuote(value)
    ensures Opening(key, Canonical(key, value) + rest) == |key| + 4
    ensures MatchLen(key, Canonical(key, value) + rest) == |Canonical(key, value)|
  {
    var s := Canonical(key, value) + rest;
    assert s[..|key| + 4] == key + " = \"";
    assert EqualsAt(key, s[..|key| + 4], |key| + 1);
    OpeningComplete(key, s, |key| + 4, |key| + 1);
    assert s[|key| + 4..] == value + "\"" + rest;
    QuoteIs(s[|key| + 4..], |value|);
  }

  /** No opening of the key starts in the value: none that its closing quote would complete. */
  ghost predicate NoOpening(key: string, value: string) {
    forall p: nat :: p <= |value| ==> Opening(key, value[p..] + "\"") == 0
  }

  /** The only quote of an opening is its last character. */
  lemma OpeningQuoteIsLast(key: string, s: string)
    requires IsKey(key) && Opening(key, s) > 0
    ensures s[Opening(key, s) - 1] == '"' && forall k :: 0 <= k < Opening(key, s) - 1 ==> s[k] != '"'
  {
    var i := OpeningSound(key, s);
    var w := s[..Opening(key, s)];
    assert forall k :: 0 <= k < |w| ==> w[k] == s[k];
    assert forall k :: 0 <= k < |key| ==> s[k] == key[k] && !IsDelimiter(key[k]);
  }

  /** An opening that starts in a quoted text without quotes ends with that text. */
  lemma OpeningUpToQuote(key: string, value: string, rest: string)
    requires IsKey(key) && NoQuote(value) && Opening(key, value + "\"" + rest) > 0
    ensures Opening(key, value + "\"") > 0
  {
    var tail := value + "\"" + rest;
    OpeningQuoteIsLast(key, tail);
    QuotedEnd(value, rest, Opening(key, tail) - 1);
    OpeningLocal(key, tail, value + "\"");
  }

  lemma TailOfCanonical(key: string, value: string, rest: string, p: nat)
    requires |key| + 4 <= p < |Canonical(key, value)|
    ensures (Canonical(key, value) + rest)[p..] == value[p - |key| - 4..] + "\"" + rest
  {
  }

  /** An opening that starts in the value of canonical text is the rest of the value and its quote. */
  lemma OpeningInValue(key: string, value: string, other: string, rest: string, p: nat)
    requires IsKey(other) && NoQuote(value) && |key| + 4 <= p < |Canonical(key, value)|
    requires Opening(other, (Canonical(key, value) + rest)[p..]) > 0
    ensures Opening(other, value[p - |key| - 4..] + "\"") > 0
  {
    TailOfCanonical(key, value, rest, p);
    OpeningUpToQuote(other, value[p - |key| - 4..], rest);
  }

  /** The first quote behind a text without quotes is the one that closes it. */
  lemma QuotedEnd(value: string, rest: string, q: nat)
    requires NoQuote(value) && q < |value + "\"" + rest| && (value + "\"" + rest)[q] == '"'
    requires forall k :: 0 <= k < q ==> (value + "\"" + rest)[k] != '"'
    ensures q == |value| && (value + "\"" + rest)[..q + 1] == value + "\""
  {
    assert (value + "\"" + rest)[|value|] == '"';
    assert forall k :: 0 <= k < |value| ==> (value + "\"" + rest)[k] == value[k];
  }

  /** No opening starts inside canonical text, except within its key, unless the value has one. */
  lemma OpeningInCanonical(key: string, value: string, other: string, rest: string, p: nat)
    requires IsKey(key) && IsKey(other) && NoQuote(value) && NoOpening(other, value)
    requires p < |Canonical(key, value)| && Opening(other, (Canonical(key, value) + rest)[p..]) > 0
    ensures p + |other| <= |key| && other <= key[p..]
  {
    var s := Canonical(key, value) + rest;
    CanonicalMatches(key, value, rest);
    if p >= |key| + 4 {
      OpeningInValue(key, value, other, rest, p);
      assert false;
    } else {
      assert other <= s[p..];
      OpeningExcludes(key, other, s, p);
    }
  }

  // ---------------------------------------------------------------- the laws, for keys that stay apart

  lemma CanonicalReads(key: string, value: string)
    requires IsKey(key) && NoQuote(value)
    ensures Reads(Regex(key), Canonical(key, value))
  {
    forall rest
      ensures Match(Regex(key), Canonical(key, value) + rest) == |Canonical(key, value)|
    {
      CanonicalMatches(key, value, rest);
    }
  }

  lemma MatchStartsWithKey(key: string, s: string)
    requires MatchLen(key, s) > 0
    ensures key <= s
  {
  }

  lemma OtherNotAt(key: string, value: string, other: string, rest: string, p: nat)
    requires Separate(key, other) && NoQuote(value) && NoOpening(other, value) && p < |Canonical(key, value)|
    ensures Opening(other, (Canonical(key, value) + rest)[p..]) == 0
  {
    if Opening(other, (Canonical(key, value) + rest)[p..]) > 0 {
      OpeningInCanonical(key, value, other, rest, p);
    }
  }

  lemma OtherNotInside(key: string, value: string, other: string)
    requires Separate(key, other) && NoQuote(value) && NoOpening(other, value)
    ensures NoneInside(Regex(other), Canonical(key, value), 0)
  {
    var text := Canonical(key, value);
    forall rest: string, p: nat | p < |text|
      ensures Match(Regex(other), (text + rest)[p..]) == 0
    {
      OtherNotAt(key, value, other, rest, p);
    }
  }

  lemma OwnNotInside(key: string, value: string)
    requires IsKey(key) && NoQuote(value) && NoOpening(key, value)
    ensures NoneInside(Regex(key), Canonical(key, value), 1)
  {
    var text := Canonical(key, value);
    forall rest: string, p: nat | 1 <= p < |text|
      ensures Match(Regex(key), (text + rest)[p..]) == 0
    {
      if Opening(key, (text + rest)[p..]) > 0 {
        OpeningInCanonical(key, value, key, rest, p);
      }
    }
  }

  /** Behind its key, an opening goes on with a space or the equals sign. */
  lemma OpeningGoesOn(key: string, s: string)
    requires Opening(key, s) > 0
    ensures key <= s && |key| < |s| && (IsSpace(s[|key|]) || s[|key|] == '=')
  {
    var i := OpeningSound(key, s);
    assert s[|key|] == s[..Opening(key, s)][|key|];
  }

  lemma PatchMakesNoNew(key: string, patched: string, value: string)
    requires (key == patched && IsKey(key)) || Separate(key, patched)
    ensures NoNew(Regex(key), Regex(patched), Canonical(patched, value))
  {
    var text := Canonical(patched, value);
    forall s: string, p: nat | 0 < p < Match(OpeningRegex(key), s)
      ensures !(text <= s[p..])
    {
      if text <= s[p..] {
        assert patched <= text;
        assert patched <= s[p..];
        OpeningExcludes(key, patched, s, p);
      }
    }
    RegexLocal(key);
    RegexQuoted(key);
    RegexQuoted(patched);
    QuotedNoNew(Regex(key), OpeningRegex(key), Regex(patched), text);
  }

  lemma SharedHead(a: string, b: string, s: string)
    requires a <= s && b <= s
    ensures Contains(a, b) || Contains(b, a)
  {
    assert a[0..] == a && b[0..] == b;
    assert a <= b || b <= a;
  }

  lemma KeysExclusive(a: string, b: string)
    requires Separate(a, b)
    ensures Exclusive(Regex(a), Regex(b))
  {
    forall s
      ensures MatchLen(a, s) == 0 || MatchLen(b, s) == 0
    {
      if a <= s && b <= s {
        SharedHead(a, b, s);
      }
    }
  }
}

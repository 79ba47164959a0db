/**
 * The two string operations the command handler relies on, as Python defines
 * them: `str.startswith` with a tuple of prefixes, and `str.split()` with no
 * separator, which splits on runs of whitespace and never yields an empty token.
 */
module Text {

  /** The characters for which Python's `str.isspace()` holds, i.e. the separators of `str.split()`. */
  predicate IsSpace(c: char) {
    ('\U{9}' <= c <= '\U{D}') || ('\U{1C}' <= c <= ' ') || c == '\U{85}' || c == '\U{A0}' ||
    c == '\U{1680}' || ('\U{2000}' <= c <= '\U{200A}') || c == '\U{2028}' || c == '\U{2029}' ||
    c == '\U{202F}' || c == '\U{205F}' || c == '\U{3000}'
  }

  /** `t` holds no whitespace character. */
  predicate NoSpace(t: string) {
    forall i :: 0 <= i < |t| ==> !IsSpace(t[i])
  }

  /** `w` is whitespace only (the empty string included). */
  predicate AllSpace(w: string) {
    forall i :: 0 <= i < |w| ==> IsSpace(w[i])
  }

  /** A token as `str.split()` yields it: non-empty and free of whitespace. */
  predicate IsToken(t: string) {
    t != [] && NoSpace(t)
  }

  predicate StartsWith(s: string, prefix: string) {
    |prefix| <= |s| && s[..|prefix|] == prefix
  }

  /** `s.startswith(prefixes)` for a tuple: tries the prefixes left to right; true exactly when some prefix matches. */
  predicate StartsWithAny(s: string, prefixes: seq<string>)
    ensures StartsWithAny(s, prefixes) <==> exists i :: 0 <= i < |prefixes| && StartsWith(s, prefixes[i])
  {
    if prefixes == [] then false
    else if StartsWith(s, prefixes[0]) then true
    else
      assert forall i :: 1 <= i < |prefixes| ==> prefixes[i] == prefixes[1..][i - 1];
      StartsWithAny(s, prefixes[1..])
  }

  /** The length of the run of non-whitespace characters at the start of `s`. */
  function WordLength(s: string): (n: nat)
    ensures n <= |s|
    ensures NoSpace(s[..n])
    ensures n < |s| ==> IsSpace(s[n])
  {
    if s == [] || IsSpace(s[0]) then 0 else 1 + WordLength(s[1..])
  }

  /** `s.split()`: the maximal runs of non-whitespace characters of `s`, in order. */
  function Split(s: string): (tokens: seq<string>)
    ensures forall i :: 0 <= i < |tokens| ==> IsToken(tokens[i])
    decreases |s|
  {
    if s == [] then []
    else if IsSpace(s[0]) then Split(s[1..])
    else
      var n := WordLength(s);
      [s[..n]] + Split(s[n..])
  }

  /** `" ".join(tokens)`. */
  function Join(tokens: seq<string>): string {
    if tokens == [] then ""
    else if |tokens| == 1 then tokens[0]
    else tokens[0] + " " + Join(tokens[1..])
  }

  /**
   * The tokens laid out with arbitrary whitespace: `gaps[k]` follows `tokens[k]`.
   * `Join` is the special case of single spaces and no trailing whitespace.
   */
  function Spaced(tokens: seq<string>, gaps: seq<string>): string
    requires |gaps| == |tokens|
  {
    if tokens == [] then "" else tokens[0] + gaps[0] + Spaced(tokens[1..], gaps[1..])
  }

  /** Proper tokens, each followed by whitespace that is non-empty except possibly after the last one. */
  predicate Layout(tokens: seq<string>, gaps: seq<string>) {
    |gaps| == |tokens| &&
    (forall k :: 0 <= k < |tokens| ==> IsToken(tokens[k])) &&
    (forall k :: 0 <= k < |gaps| ==> AllSpace(gaps[k])) &&
    (forall k :: 0 <= k < |gaps| - 1 ==> gaps[k] != [])
  }

  /** `s` with every whitespace character deleted. */
  function DropSpaces(s: string): (r: string)
    ensures |r| <= |s|
  {
    if s == [] then ""
    else if IsSpace(s[0]) then DropSpaces(s[1..])
    else [s[0]] + DropSpaces(s[1..])
  }

  function Concat(tokens: seq<string>): string {
    if tokens == [] then "" else tokens[0] + Concat(tokens[1..])
  }

  lemma {:induction false} WordLengthOfToken(t: string, rest: string)
    requires IsToken(t)
    requires rest == [] || IsSpace(rest[0])
    ensures WordLength(t + rest) == |t|
    decreases |t|
  {
    var s := t + rest;
    assert s[0] == t[0];
    if |t| > 1 {
      assert s[1..] == t[1..] + rest;
      WordLengthOfToken(t[1..], rest);
    } else {
      assert s[1..] == rest;
    }
  }

  /** Splitting whitespace-joined tokens gives the tokens back. */
  lemma {:induction false} SplitJoin(tokens: seq<string>)
    requires forall i :: 0 <= i < |tokens| ==> IsToken(tokens[i])
    ensures Split(Join(tokens)) == tokens
    decreases |tokens|
  {
    if tokens == [] {
    } else if |tokens| == 1 {
      var t := tokens[0];
      WordLengthOfToken(t, "");
      assert t + "" == t;
      assert t[|t|..] == [];
      assert t[..|t|] == t;
    } else {
      var t, rest := tokens[0], Join(tokens[1..]);
      var s := t + " " + rest;
      assert s == t + (" " + rest);
      WordLengthOfToken(t, " " + rest);
      assert s[..|t|] == t;
      assert s[|t|..] == " " + rest;
      assert (" " + rest)[1..] == rest;
      SplitJoin(tokens[1..]);
      assert Split(s) == [t] + tokens[1..];
    }
  }

  /** Whitespace in front of a string does not change its split. */
  lemma {:induction false} SplitSkipsSpace(w: string, s: string)
    requires AllSpace(w)
    ensures Split(w + s) == Split(s)
    decreases |w|
  {
    if w == [] {
      assert w + s == s;
    } else {
      assert (w + s)[1..] == w[1..] + s;
      SplitSkipsSpace(w[1..], s);
    }
  }

  /** A token followed by whitespace, or by nothing, is the first token of the split. */
  lemma {:induction false} SplitTokenThen(t: string, rest: string)
    requires IsToken(t)
    requires rest == [] || IsSpace(rest[0])
    ensures Split(t + rest) == [t] + Split(rest)
  {
    var s := t + rest;
    WordLengthOfToken(t, rest);
    assert s[0] == t[0];
    assert s[..|t|] == t;
    assert s[|t|..] == rest;
  }

  /**
   * `str.split()` recovers the tokens whatever whitespace comes before, between
   * (at least one character) and after them: spaces, tabs, newlines, U+3000 alike.
   */
  lemma {:induction false} SplitSpaced(lead: string, tokens: seq<string>, gaps: seq<string>)
    requires AllSpace(lead) && Layout(tokens, gaps)
    ensures Split(lead + Spaced(tokens, gaps)) == tokens
    decreases |tokens|
  {
    SplitSkipsSpace(lead, Spaced(tokens, gaps));
    if tokens != [] {
      var t, g, rest := tokens[0], gaps[0], Spaced(tokens[1..], gaps[1..]);
      assert Layout(tokens[1..], gaps[1..]) by {
        assert forall k :: 0 <= k < |tokens| - 1 ==> tokens[1..][k] == tokens[k + 1];
        assert forall k :: 0 <= k < |gaps| - 1 ==> gaps[1..][k] == gaps[k + 1];
      }
      SplitSpaced(g, tokens[1..], gaps[1..]);
      assert Spaced(tokens, gaps) == t + (g + rest);
      SplitTokenThen(t, g + rest);
    }
  }

  /** Every string is some whitespace followed by a layout of tokens, so `SplitSpaced` determines `Split` everywhere. */
  lemma {:induction false} LayoutExists(s: string) returns (lead: string, tokens: seq<string>, gaps: seq<string>)
    ensures AllSpace(lead) && Layout(tokens, gaps)
    ensures s == lead + Spaced(tokens, gaps)
    decreases |s|
  {
    if s == [] {
      lead, tokens, gaps := "", [], [];
    } else if IsSpace(s[0]) {
      var l;
      l, tokens, gaps := LayoutExists(s[1..]);
      lead := [s[0]] + l;
    } else {
      var n := WordLength(s);
      var t := s[..n];
      var l, ts, gs := LayoutExists(s[n..]);
      assert s == t + s[n..];
      lead, tokens, gaps := "", [t] + ts, [l] + gs;
      assert tokens[1..] == ts && gaps[1..] == gs;
      assert Spaced(tokens, gaps) == t + (l + Spaced(ts, gs));
    }
  }

  lemma {:induction false} DropSpacesAppend(a: string, b: string)
    ensures DropSpaces(a + b) == DropSpaces(a) + DropSpaces(b)
    decreases |a|
  {
    if a == [] {
      assert a + b == b;
    } else {
      assert (a + b)[1..] == a[1..] + b;
      DropSpacesAppend(a[1..], b);
    }
  }

  lemma {:induction false} DropSpacesOfNoSpace(t: string)
    requires NoSpace(t)
    ensures DropSpaces(t) == t
    decreases |t|
  {
    if t != [] {
      DropSpacesOfNoSpace(t[1..]);
    }
  }

  /** `str.split()` loses nothing but whitespace: the tokens, concatenated, are `s` without its whitespace. */
  lemma {:induction false} SplitKeepsEveryOtherCharacter(s: string)
    ensures Concat(Split(s)) == DropSpaces(s)
    decreases |s|
  {
    if s == [] {
    } else if IsSpace(s[0]) {
      SplitKeepsEveryOtherCharacter(s[1..]);
    } else {
      var n := WordLength(s);
      assert s == s[..n] + s[n..];
      DropSpacesAppend(s[..n], s[n..]);
      DropSpacesOfNoSpace(s[..n]);
      SplitKeepsEveryOtherCharacter(s[n..]);
      assert Split(s)[1..] == Split(s[n..]);
    }
  }
}

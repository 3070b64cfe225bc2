/** SQL text as the handlers assemble it, as a sequence of tokens: words and
    `?` placeholders. Concatenating fragments is sequence concatenation;
    `String.prototype.replace` is a token-level rewrite. */
module Sql {

  datatype Token = Word(text: string) | Hole

  type Text = seq<Token>

  /** The number of `?` placeholders. */
  function Holes(s: Text): nat
  {
    if s == [] then 0 else (if s[0].Hole? then 1 else 0) + Holes(s[1..])
  }

  /** Text without a placeholder. */
  predicate Plain(s: Text)
  {
    forall i | 0 <= i < |s| :: s[i].Word?
  }

  lemma {:induction false} HolesAppend(a: Text, b: Text)
    ensures Holes(a + b) == Holes(a) + Holes(b)
  {
    if a != [] {
      assert (a + b)[1..] == a[1..] + b;
      HolesAppend(a[1..], b);
    } else {
      assert a + b == b;
    }
  }

  lemma {:induction false} PlainHoles(s: Text)
    requires Plain(s)
    ensures Holes(s) == 0
  {
    if s != [] {
      PlainHoles(s[1..]);
    }
  }

  /** `s.replace(pat, rep)` with a string pattern: the first occurrence only. */
  function ReplaceFirst(s: Text, pat: Text, rep: Text): Text
    requires pat != []
    decreases |s|
  {
    if |pat| <= |s| && s[..|pat|] == pat then rep + s[|pat|..]
    else if s == [] then []
    else [s[0]] + ReplaceFirst(s[1..], pat, rep)
  }

  /** `s.replace(/pat/g, rep)`: every occurrence, scanning left to right. */
  function ReplaceAll(s: Text, pat: Text, rep: Text): Text
    requires pat != []
    decreases |s|
  {
    if |pat| <= |s| && s[..|pat|] == pat then rep + ReplaceAll(s[|pat|..], pat, rep)
    else if s == [] then []
    else [s[0]] + ReplaceAll(s[1..], pat, rep)
  }

  /** Replacing placeholder-free text by placeholder-free text keeps every
      placeholder. */
  lemma {:induction false} ReplaceFirstHoles(s: Text, pat: Text, rep: Text)
    requires pat != [] && Plain(pat) && Plain(rep)
    ensures Holes(ReplaceFirst(s, pat, rep)) == Holes(s)
    decreases |s|
  {
    if |pat| <= |s| && s[..|pat|] == pat {
      assert s == pat + s[|pat|..];
      HolesAppend(pat, s[|pat|..]);
      HolesAppend(rep, s[|pat|..]);
      PlainHoles(pat);
      PlainHoles(rep);
    } else if s != [] {
      ReplaceFirstHoles(s[1..], pat, rep);
    }
  }

  lemma {:induction false} ReplaceAllHoles(s: Text, pat: Text, rep: Text)
    requires pat != [] && Plain(pat) && Plain(rep)
    ensures Holes(ReplaceAll(s, pat, rep)) == Holes(s)
    decreases |s|
  {
    if |pat| <= |s| && s[..|pat|] == pat {
      var rest := s[|pat|..];
      ReplaceAllHoles(rest, pat, rep);
      assert s == pat + rest;
      HolesAppend(pat, rest);
      HolesAppend(rep, ReplaceAll(rest, pat, rep));
      PlainHoles(pat);
      PlainHoles(rep);
    } else if s != [] {
      ReplaceAllHoles(s[1..], pat, rep);
    }
  }

  /** A text that opens with the pattern has exactly that occurrence
      replaced. */
  lemma ReplaceFirstAtStart(pat: Text, rest: Text, rep: Text)
    requires pat != []
    ensures ReplaceFirst(pat + rest, pat, rep) == rep + rest
  {
    assert (pat + rest)[..|pat|] == pat;
    assert (pat + rest)[|pat|..] == rest;
  }

  /** With a one-token pattern, `replace(/w/g, rep)` works token by token. */
  lemma ReplaceTokenCons(t: Token, s: Text, w: Token, rep: Text)
    ensures ReplaceAll([t] + s, [w], rep) == (if t == w then rep else [t]) + ReplaceAll(s, [w], rep)
  {
    assert ([t] + s)[..1] == [t];
    assert ([t] + s)[1..] == s;
  }

  /** ... so it distributes over concatenation. */
  lemma {:induction false} ReplaceTokenAppend(a: Text, b: Text, w: Token, rep: Text)
    ensures ReplaceAll(a + b, [w], rep) == ReplaceAll(a, [w], rep) + ReplaceAll(b, [w], rep)
    decreases |a|
  {
    if a == [] {
      assert a + b == b;
    } else {
      assert a + b == [a[0]] + (a[1..] + b);
      assert a == [a[0]] + a[1..];
      ReplaceTokenCons(a[0], a[1..] + b, w, rep);
      ReplaceTokenCons(a[0], a[1..], w, rep);
      ReplaceTokenAppend(a[1..], b, w, rep);
    }
  }

  /** No occurrence of the token is left, when the replacement has none. */
  lemma {:induction false} ReplaceTokenRemoves(s: Text, w: Token, rep: Text)
    requires w !in rep
    ensures w !in ReplaceAll(s, [w], rep)
    decreases |s|
  {
    if s != [] {
      assert s == [s[0]] + s[1..];
      ReplaceTokenCons(s[0], s[1..], w, rep);
      ReplaceTokenRemoves(s[1..], w, rep);
    }
  }

  /** Text without the token is left as it is. */
  lemma {:induction false} ReplaceTokenAbsent(s: Text, w: Token, rep: Text)
    requires w !in s
    ensures ReplaceAll(s, [w], rep) == s
    decreases |s|
  {
    if s != [] {
      assert s == [s[0]] + s[1..];
      ReplaceTokenCons(s[0], s[1..], w, rep);
      ReplaceTokenAbsent(s[1..], w, rep);
    }
  }
}

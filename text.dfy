/** String operations the portal's code relies on: `toLowerCase`, Node's
    `path.extname`, decimal rendering of a number and
    `String.prototype.split`. */
module Text {

  // ---------------------------------------------------------------------
  // Lower case

  /** `toLowerCase` on one character; only ASCII letters are mapped. */
  function LowerChar(c: char): char
  {
    if 'A' <= c <= 'Z' then (c as int - 'A' as int + 'a' as int) as char else c
  }

  function Lower(s: string): (r: string)
    ensures |r| == |s|
    ensures forall i | 0 <= i < |s| :: r[i] == LowerChar(s[i])
  {
    if s == [] then [] else [LowerChar(s[0])] + Lower(s[1..])
  }

  /** Lower-casing never creates or removes a '.' or a '/'. */
  lemma LowerKeepsSeparators(c: char)
    ensures LowerChar(c) == '.' <==> c == '.'
    ensures LowerChar(c) == '/' <==> c == '/'
  {
  }

  lemma LowerIdempotent(s: string)
    ensures Lower(Lower(s)) == Lower(s)
  {
  }

  lemma LowerSlice(s: string, k: nat)
    requires k <= |s|
    ensures Lower(s)[k..] == Lower(s[k..])
  {
  }

  // ---------------------------------------------------------------------
  // path.extname

  function LastIndexOf(s: string, c: char): (r: int)
    ensures -1 <= r < |s|
    ensures r >= 0 ==> s[r] == c
    ensures forall i | r < i < |s| :: s[i] != c
  {
    if s == [] then -1
    else if s[|s| - 1] == c then |s| - 1
    else LastIndexOf(s[..|s| - 1], c)
  }

  /** The part of a path after its last '/'. */
  function Basename(path: string): (r: string)
    ensures '/' !in r
    ensures |r| <= |path| && r == path[|path| - |r|..]
  {
    path[LastIndexOf(path, '/') + 1..]
  }

  /** Node's `path.extname` (POSIX) on a path without a trailing '/': from the
      last '.' of the last segment, unless that '.' opens the segment or the
      segment is "..". */
  function Extname(path: string): (r: string)
    ensures r == "" || (r[0] == '.' && '.' !in r[1..] && '/' !in r)
    ensures |r| <= |path| && r == path[|path| - |r|..]
  {
    var base := Basename(path);
    var dot := LastIndexOf(base, '.');
    if dot <= 0 || base == ".." then ""
    else
      assert base[dot..] == path[|path| - |base| + dot..];
      base[dot..]
  }

  /** The shape of a non-empty extension as `Extname` returns it. */
  predicate IsExtension(e: string)
  {
    e != "" && e[0] == '.' && '.' !in e[1..] && '/' !in e
  }

  lemma LastIndexOfLower(s: string, c: char)
    requires c == '.' || c == '/'
    ensures LastIndexOf(Lower(s), c) == LastIndexOf(s, c)
  {
    var r, r' := LastIndexOf(s, c), LastIndexOf(Lower(s), c);
    forall i | 0 <= i < |s|
      ensures Lower(s)[i] == c <==> s[i] == c
    {
      LowerKeepsSeparators(s[i]);
    }
  }

  lemma BasenameLower(path: string)
    ensures Basename(Lower(path)) == Lower(Basename(path))
  {
    LastIndexOfLower(path, '/');
    LowerSlice(path, LastIndexOf(path, '/') + 1);
  }

  lemma LowerDotDot(s: string)
    ensures Lower(s) == ".." <==> s == ".."
  {
    if |s| == 2 {
      LowerKeepsSeparators(s[0]);
      LowerKeepsSeparators(s[1]);
      assert s == [s[0], s[1]];
    }
  }

  /** `path.extname(name).toLowerCase()` sees the same extension whether or
      not the name was lower-cased first. */
  lemma ExtnameLower(path: string)
    ensures Extname(Lower(path)) == Lower(Extname(path))
  {
    BasenameLower(path);
    var base := Basename(path);
    LastIndexOfLower(base, '.');
    LowerDotDot(base);
    var dot := LastIndexOf(base, '.');
    if dot > 0 && base != ".." {
      LowerSlice(base, dot);
    }
  }

  /** `path.extname(name).toLowerCase()` is the same for a name and its
      lower-cased form. */
  lemma LowerExtnameIgnoresCase(name: string)
    ensures Lower(Extname(Lower(name))) == Lower(Extname(name))
  {
    ExtnameLower(name);
    LowerIdempotent(Extname(name));
  }

  /** The last occurrence of c is at k when s[k] is c and nothing after it is. */
  lemma LastIndexOfAt(s: string, c: char, k: nat)
    requires k < |s| && s[k] == c
    requires forall i | k < i < |s| :: s[i] != c
    ensures LastIndexOf(s, c) == k
  {
  }

  /** The last c of `a + [c] + b` is the one after a when b holds none. */
  lemma LastIndexOfJoin(a: string, c: char, b: string)
    requires c !in b
    ensures LastIndexOf(a + [c] + b, c) == |a|
  {
    var s := a + [c] + b;
    assert s[|a|] == c;
    assert s[|a| + 1..] == b;
    assert forall i | |a| < i < |s| :: s[i] == s[|a| + 1..][i - |a| - 1];
    LastIndexOfAt(s, c, |a|);
  }

  /** A name made of a stem without '/' and an extension keeps that extension,
      whatever directory it is placed under. */
  lemma ExtnameOfJoin(dir: string, stem: string, ext: string)
    requires IsExtension(ext) && stem != "" && stem != "." && '/' !in stem
    ensures Extname(dir + "/" + stem + ext) == ext
  {
    var base := stem + ext;
    assert '/' !in base;
    var path := dir + "/" + base;
    assert dir + "/" + stem + ext == path;
    LastIndexOfJoin(dir, '/', base);
    assert path[|dir| + 1..] == base;
    assert base == stem + "." + ext[1..];
    LastIndexOfJoin(stem, '.', ext[1..]);
    assert base[|stem|..] == ext;
  }

  /** A name without a '.' after its last '/' has no extension. */
  lemma ExtnameOfPlain(dir: string, stem: string)
    requires '/' !in stem && '.' !in stem
    ensures Extname(dir + "/" + stem) == ""
  {
    LastIndexOfJoin(dir, '/', stem);
    assert (dir + "/" + stem)[|dir| + 1..] == stem;
  }

  // ---------------------------------------------------------------------
  // Decimal numbers

  function DigitChar(d: nat): (c: char)
    requires d < 10
    ensures '0' <= c <= '9'
  {
    ('0' as int + d) as char
  }

  function DigitValue(c: char): nat
    requires '0' <= c <= '9'
  {
    c as int - '0' as int
  }

  /** `${n}` for a non-negative integer. */
  function NatToString(n: nat): (r: string)
    ensures r != []
    ensures forall i | 0 <= i < |r| :: '0' <= r[i] <= '9'
  {
    if n < 10 then [DigitChar(n)] else NatToString(n / 10) + [DigitChar(n % 10)]
  }

  predicate AllDigits(s: string)
  {
    forall i | 0 <= i < |s| :: '0' <= s[i] <= '9'
  }

  /** Decimal value of a string of digits. */
  function ParseDigits(s: string): nat
    requires AllDigits(s)
  {
    if s == [] then 0 else 10 * ParseDigits(s[..|s| - 1]) + DigitValue(s[|s| - 1])
  }

  /** Rendering a number in decimal loses nothing. */
  lemma {:induction false} ParseNatToString(n: nat)
    ensures ParseDigits(NatToString(n)) == n
  {
    var r := NatToString(n);
    if n >= 10 {
      ParseNatToString(n / 10);
      assert r[..|r| - 1] == NatToString(n / 10);
    }
  }

  // ---------------------------------------------------------------------
  // String.prototype.split with a one-character separator

  function IndexOf(s: string, c: char): (r: int)
    ensures -1 <= r < |s|
    ensures r >= 0 ==> s[r] == c
    ensures forall i | 0 <= i < |s| && (r < 0 || i < r) :: s[i] != c
  {
    if s == [] then -1
    else if s[0] == c then 0
    else var k := IndexOf(s[1..], c); if k < 0 then -1 else k + 1
  }

  function JoinWith(parts: seq<string>, sep: char): string
    requires |parts| >= 1
  {
    if |parts| == 1 then parts[0] else parts[0] + [sep] + JoinWith(parts[1..], sep)
  }

  /** `s.split(sep)`: the pieces between separators, at least one. */
  function Split(s: string, sep: char): (parts: seq<string>)
    ensures |parts| >= 1
    decreases |s|
  {
    var i := IndexOf(s, sep);
    if i < 0 then [s] else [s[..i]] + Split(s[i + 1..], sep)
  }

  /** No piece of a split holds the separator, and joining the pieces back
      with the separator gives the string again. */
  lemma {:induction false} SplitJoin(s: string, sep: char)
    ensures forall i | 0 <= i < |Split(s, sep)| :: sep !in Split(s, sep)[i]
    ensures JoinWith(Split(s, sep), sep) == s
    decreases |s|
  {
    var i := IndexOf(s, sep);
    if i >= 0 {
      var rest := Split(s[i + 1..], sep);
      SplitJoin(s[i + 1..], sep);
      var parts := Split(s, sep);
      assert parts == [s[..i]] + rest;
      assert parts[0] == s[..i] && parts[1..] == rest;
      assert s == s[..i] + [sep] + s[i + 1..];
    }
  }
}

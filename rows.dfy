/** The SQL statements the portal issues, as operations on a table held as a
    sequence of rows in insertion order: SELECT ... WHERE, DELETE ... WHERE,
    UPDATE ... WHERE, ORDER BY ... DESC and LIMIT/OFFSET. */
module Rows {
  import opened Base

  /** `SELECT * WHERE p`, in table order. */
  function Select<T>(s: seq<T>, p: T -> bool): (r: seq<T>)
    ensures |r| <= |s|
    ensures forall i | 0 <= i < |r| :: p(r[i])
    ensures forall x | x in s && p(x) :: x in r
    ensures forall x | x in r :: x in s
  {
    if s == [] then [] else (if p(s[0]) then [s[0]] else []) + Select(s[1..], p)
  }

  /** `rows[0]` of `SELECT * WHERE p`, or null when no row matches. */
  function First<T>(s: seq<T>, p: T -> bool): (r: Option<T>)
    ensures r.None? <==> forall x | x in s :: !p(x)
    ensures r.Some? ==> r.value in s && p(r.value)
  {
    var rows := Select(s, p);
    if rows == [] then None else Some(rows[0])
  }

  /** `SELECT COUNT(*) WHERE p`. */
  function Count<T>(s: seq<T>, p: T -> bool): nat
  {
    |Select(s, p)|
  }

  /** The rows left by `DELETE WHERE p`: every row that does not satisfy p,
      in the same order. */
  function Delete<T>(s: seq<T>, p: T -> bool): (r: seq<T>)
    ensures |r| <= |s|
    ensures forall i | 0 <= i < |r| :: !p(r[i])
    ensures forall x | x in s && !p(x) :: x in r
    ensures forall x | x in r :: x in s
  {
    if s == [] then [] else (if p(s[0]) then [] else [s[0]]) + Delete(s[1..], p)
  }

  /** `UPDATE SET f WHERE p`: the rows satisfying p are rewritten by f, every
      other row is left as it was, and no row is added or removed. */
  function Update<T>(s: seq<T>, p: T -> bool, f: T -> T): (r: seq<T>)
    ensures |r| == |s|
    ensures forall i | 0 <= i < |s| :: r[i] == if p(s[i]) then f(s[i]) else s[i]
  {
    if s == [] then [] else [if p(s[0]) then f(s[0]) else s[0]] + Update(s[1..], p, f)
  }

  /** Reading back with the WHERE of an UPDATE that keeps its rows selected
      finds the updated form of the row found before. */
  lemma {:induction false} FirstAfterUpdate<T>(s: seq<T>, p: T -> bool, f: T -> T)
    requires forall x | p(x) :: p(f(x))
    ensures First(Update(s, p, f), p) == if First(s, p).Some? then Some(f(First(s, p).value)) else None
  {
    if s != [] {
      FirstAfterUpdate(s[1..], p, f);
      var u := Update(s, p, f);
      assert u[0] == (if p(s[0]) then f(s[0]) else s[0]) && u[1..] == Update(s[1..], p, f);
      assert Select(u, p) == (if p(u[0]) then [u[0]] else []) + Select(u[1..], p);
    }
  }

  lemma {:induction false} SelectAppend<T>(a: seq<T>, b: seq<T>, p: T -> bool)
    ensures Select(a + b, p) == Select(a, p) + Select(b, p)
  {
    if a == [] {
      assert a + b == b;
    } else {
      var head := if p(a[0]) then [a[0]] else [];
      calc {
        Select(a + b, p);
        { assert (a + b)[0] == a[0]; assert (a + b)[1..] == a[1..] + b; }
        head + Select(a[1..] + b, p);
        { SelectAppend(a[1..], b, p); }
        head + (Select(a[1..], p) + Select(b, p));
        (head + Select(a[1..], p)) + Select(b, p);
      }
    }
  }

  /** A DELETE removes exactly the rows a SELECT with the same WHERE returns. */
  lemma {:induction false} DeleteCount<T>(s: seq<T>, p: T -> bool)
    ensures |Delete(s, p)| == |s| - Count(s, p)
  {
    if s != [] {
      DeleteCount(s[1..], p);
    }
  }

  /** An UPDATE or DELETE whose WHERE matches nothing leaves the table as it was. */
  lemma {:induction false} NoMatchUnchanged<T>(s: seq<T>, p: T -> bool, f: T -> T)
    requires forall x | x in s :: !p(x)
    ensures Update(s, p, f) == s
    ensures Delete(s, p) == s
    ensures Count(s, p) == 0
  {
    if s != [] {
      NoMatchUnchanged(s[1..], p, f);
    }
  }

  // ---------------------------------------------------------------------
  // ORDER BY key DESC, LIMIT, OFFSET

  ghost predicate NewestFirst<T>(s: seq<T>, key: T -> int)
  {
    forall i, j | 0 <= i < j < |s| :: key(s[i]) >= key(s[j])
  }

  /** A row no older than the head of a newest-first listing may go in front. */
  lemma NewestFirstCons<T>(a: T, s: seq<T>, key: T -> int)
    requires NewestFirst(s, key)
    requires s == [] || key(s[0]) <= key(a)
    ensures NewestFirst([a] + s, key)
  {
  }

  /** Putting the head back in front of a listing that holds the rest of the
      rows and x keeps the order, when x sorts after the head. */
  lemma InsertBehind<T>(x: T, s: seq<T>, key: T -> int, rest: seq<T>)
    requires NewestFirst(s, key) && s != [] && key(s[0]) > key(x)
    requires NewestFirst(rest, key) && multiset(rest) == multiset(s[1..]) + multiset{x} && |rest| == |s|
    requires rest[0] == x || (s[1..] != [] && rest[0] == s[1..][0])
    ensures NewestFirst([s[0]] + rest, key)
    ensures multiset([s[0]] + rest) == multiset(s) + multiset{x}
  {
    assert s == [s[0]] + s[1..];
    assert key(rest[0]) <= key(s[0]) by {
      if rest[0] != x {
        assert rest[0] == s[1];
      }
    }
    NewestFirstCons(s[0], rest, key);
  }

  function InsertDesc<T>(x: T, s: seq<T>, key: T -> int): (r: seq<T>)
    requires NewestFirst(s, key)
    ensures NewestFirst(r, key)
    ensures multiset(r) == multiset(s) + multiset{x}
    ensures |r| == |s| + 1
    ensures r[0] == x || (s != [] && r[0] == s[0])
  {
    if s == [] || key(s[0]) <= key(x) then
      NewestFirstCons(x, s, key);
      [x] + s
    else
      var rest := InsertDesc(x, s[1..], key);
      InsertBehind(x, s, key, rest);
      [s[0]] + rest
  }

  /** `ORDER BY key DESC`: the same rows, newest first (ties are returned in
      an order SQL leaves unspecified; here, table order). */
  function SortDesc<T>(s: seq<T>, key: T -> int): (r: seq<T>)
    ensures NewestFirst(r, key)
    ensures multiset(r) == multiset(s)
    ensures |r| == |s|
  {
    if s == [] then []
    else
      assert s == [s[0]] + s[1..];
      InsertDesc(s[0], SortDesc(s[1..], key), key)
  }

  /** `LIMIT limit OFFSET offset`. */
  function Page<T>(s: seq<T>, offset: nat, limit: nat): (r: seq<T>)
    ensures |r| == Min(limit, Max(0, |s| - offset))
    ensures forall i | 0 <= i < |r| :: r[i] == s[offset + i]
  {
    if offset >= |s| then []
    else if limit >= |s| - offset then s[offset..]
    else s[offset..offset + limit]
  }

  /** A page of a newest-first listing is itself newest first, and holds rows
      no older than any row after it. */
  lemma PageNewest<T>(s: seq<T>, key: T -> int, offset: nat, limit: nat)
    requires NewestFirst(s, key)
    ensures NewestFirst(Page(s, offset, limit), key)
    ensures forall i, j | 0 <= i < |Page(s, offset, limit)| && offset + |Page(s, offset, limit)| <= j < |s| ::
              key(Page(s, offset, limit)[i]) >= key(s[j])
  {
  }

  /** In a newest-first listing, a row missing from the first n is no newer
      than any of them. */
  lemma BeyondPrefixIsOlder<T>(s: seq<T>, key: T -> int, n: nat, m: T)
    requires NewestFirst(s, key) && n <= |s|
    requires m in s && m !in s[..n]
    ensures forall i | 0 <= i < n :: key(s[i]) >= key(m)
  {
    assert s == s[..n] + s[n..];
    assert m in s[n..];
    var k :| 0 <= k < |s| - n && s[n..][k] == m;
    assert s[n + k] == m;
  }

  /** `ORDER BY key DESC LIMIT limit OFFSET offset`: rows of the table only,
      newest first, as many as remain after the offset up to the limit. */
  function NewestPage<T>(s: seq<T>, key: T -> int, offset: nat, limit: nat): (r: seq<T>)
    ensures |r| == Min(limit, Max(0, |s| - offset))
    ensures forall i | 0 <= i < |r| :: r[i] in s
    ensures NewestFirst(r, key)
  {
    var sorted := SortDesc(s, key);
    PageNewest(sorted, key, offset, limit);
    assert forall i | 0 <= i < |sorted| :: sorted[i] in multiset(s);
    Page(sorted, offset, limit)
  }

  /** Consecutive pages tile the listing: the first `offset` rows followed
      by the page at `offset` are the first `offset + limit` rows, and every
      row before the page is no older than any row on it. */
  lemma NewestPagesTile<T>(s: seq<T>, key: T -> int, offset: nat, limit: nat)
    ensures NewestPage(s, key, 0, offset) + NewestPage(s, key, offset, limit) == NewestPage(s, key, 0, offset + limit)
    ensures forall i, j | 0 <= i < |NewestPage(s, key, 0, offset)| && 0 <= j < |NewestPage(s, key, offset, limit)| ::
              key(NewestPage(s, key, 0, offset)[i]) >= key(NewestPage(s, key, offset, limit)[j])
  {
    var sorted := SortDesc(s, key);
    var before, page, all := Page(sorted, 0, offset), Page(sorted, offset, limit), Page(sorted, 0, offset + limit);
    assert before + page == all;
    forall i, j | 0 <= i < |before| && 0 <= j < |page|
      ensures key(before[i]) >= key(page[j])
    {
      assert before[i] == sorted[i] && page[j] == sorted[offset + j];
    }
  }

  /** A first page at least as long as the table holds every row. */
  lemma NewestPageComplete<T>(s: seq<T>, key: T -> int, limit: nat)
    requires limit >= |s|
    ensures forall x | x in s :: x in NewestPage(s, key, 0, limit)
  {
    var sorted := SortDesc(s, key);
    assert NewestPage(s, key, 0, limit) == sorted;
    forall x | x in s
      ensures x in sorted
    {
      assert x in multiset(s);
    }
  }

  /** A row a first page leaves out is no newer than any row on it. */
  lemma NewestPageHoldsNewest<T>(s: seq<T>, key: T -> int, limit: nat, m: T)
    requires m in s && m !in NewestPage(s, key, 0, limit)
    ensures forall i | 0 <= i < |NewestPage(s, key, 0, limit)| :: key(NewestPage(s, key, 0, limit)[i]) >= key(m)
  {
    var sorted := SortDesc(s, key);
    var r := NewestPage(s, key, 0, limit);
    assert r == sorted[..|r|];
    assert m in multiset(sorted);
    BeyondPrefixIsOlder(sorted, key, |r|, m);
  }
}

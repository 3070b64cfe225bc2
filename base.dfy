/** Values shared by every part of the portal model: optional values (SQL NULL,
    JavaScript null/undefined), HTTP replies, JavaScript's `||` defaulting, and
    the bcrypt stand-in. */
module Base {

  /** SQL NULL / JavaScript null or undefined. */
  datatype Option<+T> = None | Some(value: T)

  /** An HTTP reply: the status code and the `message` field of its JSON body
      ("" when the body has none). */
  datatype Reply = Reply(status: nat, message: string)

  /** What a server action returns to its form: whether it succeeded and the
      message to show. */
  datatype ActionResult = ActionResult(success: bool, message: string)

  /** The HTTP method of a request; every method a handler does not serve is
      `OtherVerb`. */
  datatype Verb = GET | POST | PUT | PATCH | DELETE | OtherVerb

  /** JavaScript `s || fallback` for a string: the empty string is falsy. */
  function OrElse(s: string, fallback: string): string
  {
    if s != "" then s else fallback
  }

  /** JavaScript `s || null`, as stored in a nullable column. */
  function OrNull(s: string): Option<string>
  {
    if s != "" then Some(s) else None
  }

  /** JavaScript `Math.max` and `Math.min` on integers. */
  function Max(a: int, b: int): int { if a >= b then a else b }
  function Min(a: int, b: int): int { if a <= b then a else b }

  /** bcrypt's `hash(plain, cost)`: salt and cost are not modelled, so the
      digest is a deterministic, injective tagging of the plain text. */
  function Hash(plain: string): string
  {
    "$2b$" + plain
  }

  /** bcrypt's `compare(plain, stored)`. */
  predicate Matches(plain: string, stored: string)
  {
    stored == Hash(plain)
  }

  /** A stored digest accepts exactly the password it was made from. */
  lemma MatchesExactly(plain: string, other: string)
    ensures Matches(plain, Hash(plain))
    ensures Matches(other, Hash(plain)) <==> other == plain
  {
    if Matches(other, Hash(plain)) {
      assert Hash(other)[4..] == other;
      assert Hash(plain)[4..] == plain;
    }
  }
}

/**
 * The class list of the document's root element (`classList`), a sequence of
 * distinct tokens, and its `toggle(token, force)` operation.
 */
module Dom {

  /** The list with `token` removed. */
  function Without(s: seq<string>, token: string): (r: seq<string>)
    ensures token !in r
    ensures forall x :: x != token ==> (x in r <==> x in s)
    ensures |r| <= |s|
  {
    if s == [] then []
    else if s[0] == token then Without(s[1..], token)
    else [s[0]] + Without(s[1..], token)
  }

  /**
   * `toggle(token, force)`: with `force` the token is appended unless already
   * present; without it the token is removed. Every other token is kept.
   */
  function Toggled(s: seq<string>, token: string, force: bool): (r: seq<string>)
    ensures token in r <==> force
    ensures forall x :: x != token ==> (x in r <==> x in s)
    ensures force && token in s ==> r == s
  {
    if force then (if token in s then s else s + [token])
    else Without(s, token)
  }

  lemma {:induction false} WithoutAbsent(s: seq<string>, token: string)
    requires token !in s
    ensures Without(s, token) == s
  {
    if s != [] {
      WithoutAbsent(s[1..], token);
    }
  }

  lemma {:induction false} WithoutIdempotent(s: seq<string>, token: string)
    ensures Without(Without(s, token), token) == Without(s, token)
  {
    WithoutAbsent(Without(s, token), token);
  }

  /** Toggling twice with the same force gives what toggling once gives. */
  lemma ToggledIdempotent(s: seq<string>, token: string, force: bool)
    ensures Toggled(Toggled(s, token, force), token, force) == Toggled(s, token, force)
  {
    if !force {
      WithoutIdempotent(s, token);
    }
  }

  /** Adding a token that was absent and removing it again restores the list exactly. */
  lemma {:induction false} ToggledOnThenOff(s: seq<string>, token: string)
    requires token !in s
    ensures Toggled(Toggled(s, token, true), token, false) == s
  {
    WithoutAbsent(s, token);
    WithoutAppended(s, token);
  }

  lemma {:induction false} WithoutAppended(s: seq<string>, token: string)
    ensures Without(s + [token], token) == Without(s, token)
  {
    if s == [] {
      assert s + [token] == [token];
    } else {
      assert (s + [token])[1..] == s[1..] + [token];
      WithoutAppended(s[1..], token);
    }
  }

  class ClassList {
    var tokens: seq<string>

    constructor (tokens: seq<string>)
      ensures this.tokens == tokens
    {
      this.tokens := tokens;
    }

    /** `toggle(token, force)`, which answers whether the token is now present. */
    method Toggle(token: string, force: bool) returns (present: bool)
      modifies this
      ensures tokens == Toggled(old(tokens), token, force)
      ensures present == force
    {
      tokens := Toggled(tokens, token, force);
      present := force;
    }

    function Contains(token: string): (b: bool)
      reads this
      ensures b <==> token in tokens
    {
      token in tokens
    }
  }
}

/**
 The token gate in front of every table route. The Authorization header must be
 present and non-empty; the token is the header's second space-separated field
 (`authorization.split(" ")[1]`); the token's signature and expiry check is the
 signing library's business and enters as the `verify` function, which yields
 the email claim of a token it accepts. Any failure is a 401.
 */
module Auth {
  import opened Opt

  type Email = string

  /** The text up to the first space, or all of it when there is none. */
  function Field(s: string): (f: string)
    ensures f <= s && ' ' !in f
    ensures f == s || s[|f|] == ' '
  {
    if s == [] || s[0] == ' ' then [] else [s[0]] + Field(s[1..])
  }

  /** `h.split(" ")[1]`: None when h has no space, else the field after the first one. */
  function SecondField(h: string): (t: Option<string>)
    ensures t.None? <==> ' ' !in h
    ensures t.Some? ==> |Field(h)| < |h| && t.value == Field(h[|Field(h)| + 1..])
  {
    if h == [] then None
    else if h[0] == ' ' then Some(Field(h[1..]))
    else SecondField(h[1..])
  }

  /** The claim a request carries, or None for a 401. */
  function Authenticate(header: Option<string>, verify: string -> Option<Email>): (claim: Option<Email>)
    ensures header == None || header == Some("") ==> claim == None
    ensures header.Some? && ' ' !in header.value ==> claim == None
    ensures claim.Some? ==>
      header.Some? && SecondField(header.value).Some? && verify(SecondField(header.value).value) == claim
    ensures header.Some? && header.value != "" && SecondField(header.value).Some? ==>
      claim == verify(SecondField(header.value).value)
  {
    if header == None || header == Some("") then None
    else match SecondField(header.value)
      case None => None
      case Some(token) => verify(token)
  }

  lemma FieldOfSpaceless(s: string)
    requires ' ' !in s
    ensures Field(s) == s
  {
  }

  lemma {:induction false} SecondFieldAfterWord(word: string, token: string)
    requires ' ' !in word
    ensures SecondField(word + " " + token) == Some(Field(token))
  {
    if word == [] {
      assert word + " " + token == [' '] + token;
    } else {
      assert (word + " " + token)[1..] == word[1..] + " " + token;
      SecondFieldAfterWord(word[1..], token);
    }
  }

  /** A client's `Bearer <token>` header yields exactly that token as its second field. */
  lemma BearerToken(token: string)
    requires ' ' !in token
    ensures SecondField("Bearer " + token) == Some(token)
  {
    assert "Bearer " + token == "Bearer" + " " + token;
    SecondFieldAfterWord("Bearer", token);
    FieldOfSpaceless(token);
  }

  /** ... and so the claim of such a request is whatever the verifier makes of that token. */
  lemma BearerHeader(token: string, verify: string -> Option<Email>)
    requires ' ' !in token
    ensures Authenticate(Some("Bearer " + token), verify) == verify(token)
  {
    BearerToken(token);
    var header := "Bearer " + token;
    assert header[0] == 'B';
  }
}

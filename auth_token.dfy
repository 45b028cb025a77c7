/** `AuthToken.extract`: the bearer token of an `Authorization` header. */
module AuthToken {
  import opened Wrappers
  import opened Errors
  import opened Strings

  const BearerPrefix := "Bearer "

  const Malformed: Error := Error(UnauthorizedException, "Authorization header missing or malformed")

  /** `extract(req)` given `req.headers.authorization`: a missing or empty header, or one that does not
    * start with exactly "Bearer ", is refused; otherwise element 1 of the header split on spaces. */
  function Extract(header: Option<string>): (r: Result<string, Error>)
    ensures r.Success? <==> header.Some? && BearerPrefix <= header.value
    ensures r.Failure? ==> r.error == Malformed
    ensures r.Success? ==> r.value == TakeUntil(header.value[|BearerPrefix|..], ' ')
    ensures r.Success? ==> ' ' !in r.value
  {
    if header.None? || header.value == "" || !(BearerPrefix <= header.value) then
      Failure(Malformed)
    else
      var h := header.value;
      var rest := h[|BearerPrefix|..];
      assert h == "Bearer" + [' '] + rest;
      SplitAfter("Bearer", ' ', rest);
      SplitFirst(rest, ' ');
      Success(Split(h, ' ')[1])
  }

  /** "Bearer " followed by nothing, or by a second space, yields the empty token rather than an error. */
  lemma EmptyTokens(rest: string)
    ensures Extract(Some(BearerPrefix)) == Success("")
    ensures Extract(Some(BearerPrefix + " " + rest)) == Success("")
  {
    var h := BearerPrefix + " " + rest;
    assert BearerPrefix <= h;
    assert h[|BearerPrefix|..] == " " + rest;
  }

  /** A token without spaces comes back unchanged. */
  lemma {:induction false} ExtractRoundTrip(token: string)
    requires ' ' !in token
    ensures Extract(Some(BearerPrefix + token)) == Success(token)
  {
    var h := BearerPrefix + token;
    assert BearerPrefix <= h;
    assert h[|BearerPrefix|..] == token;
    TakeUntilWhole(token, ' ');
  }
}

/** Splitting the `Authorization` header on single spaces, as JavaScript's
    `split(" ")` does, and taking its second field as the bearer token. */
module BearerHeader {
  import opened Optional

  /** The fields of `s` between single spaces; two adjacent spaces give an
      empty field, and a string without spaces is one field. */
  function Split(s: string): (fields: seq<string>)
    ensures |fields| >= 1
    ensures forall i :: 0 <= i < |fields| ==> ' ' !in fields[i]
  {
    if |s| == 0 then [""]
    else
      var rest := Split(s[1..]);
      if s[0] == ' ' then [""] + rest
      else [[s[0]] + rest[0]] + rest[1..]
  }

  /** The fields glued back together with single spaces. */
  function Join(fields: seq<string>): string
    requires |fields| >= 1
  {
    if |fields| == 1 then fields[0] else fields[0] + " " + Join(fields[1..])
  }

  /** Splitting loses nothing: the fields rejoin to the header. */
  lemma {:induction false} JoinSplit(s: string)
    ensures Join(Split(s)) == s
  {
    if |s| == 0 {
    } else {
      var rest := Split(s[1..]);
      JoinSplit(s[1..]);
      if s[0] == ' ' {
        assert Split(s) == [""] + rest;
        assert (([""] + rest)[1..]) == rest;
        assert s == [' '] + s[1..];
      } else if |rest| == 1 {
        assert Split(s) == [[s[0]] + rest[0]];
        assert s == [s[0]] + s[1..];
      } else {
        var fs := Split(s);
        assert fs == [[s[0]] + rest[0]] + rest[1..];
        assert fs[1..] == rest[1..];
        assert Join(rest) == rest[0] + " " + Join(rest[1..]);
        assert s == [s[0]] + s[1..];
      }
    }
  }

  /** Splitting a prefix without spaces only extends the first field. */
  lemma {:induction false} SplitPrefix(a: string, b: string)
    requires ' ' !in a
    ensures Split(a + b) == [a + Split(b)[0]] + Split(b)[1..]
  {
    if |a| == 0 {
      assert a + b == b;
      var tail := Split(b);
      assert a + tail[0] == tail[0];
      assert [tail[0]] + tail[1..] == tail;
    } else {
      var tail := Split(b);
      assert (a + b)[0] == a[0] && (a + b)[1..] == a[1..] + b;
      SplitPrefix(a[1..], b);
      var rest := Split(a[1..] + b);
      assert rest[0] == a[1..] + tail[0] && rest[1..] == tail[1..];
      assert [a[0]] + rest[0] == a + tail[0];
    }
  }

  /** A leading space closes an empty first field. */
  lemma SplitSpace(c: string)
    ensures Split(" " + c) == [""] + Split(c)
  {
    assert (" " + c)[1..] == c;
  }

  /** Joining fields without spaces and splitting again gives the fields back. */
  lemma {:induction false} SplitJoin(fields: seq<string>)
    requires |fields| >= 1
    requires forall i :: 0 <= i < |fields| ==> ' ' !in fields[i]
    ensures Split(Join(fields)) == fields
  {
    if |fields| == 1 {
      SplitPrefix(fields[0], "");
      assert fields[0] + "" == fields[0];
    } else {
      var tail := Join(fields[1..]);
      SplitJoin(fields[1..]);
      SplitSpace(tail);
      assert fields[0] + " " + tail == fields[0] + (" " + tail);
      SplitPrefix(fields[0], " " + tail);
      assert fields[0] + "" == fields[0];
    }
  }

  /** The second space-separated field of the header, when it is non-empty:
      absent, empty, without a second field or with an empty one gives None.
      The first field (the scheme word) is never looked at. */
  function TokenOf(header: Option<string>): (token: Option<string>)
    ensures token.Some? ==> token.value != "" && ' ' !in token.value
  {
    if header.None? then None
    else
      var fields := Split(header.value);
      if |fields| >= 2 && fields[1] != "" then Some(fields[1]) else None
  }

  /** Any header "scheme token rest", where the scheme and the token hold no
      space and the rest is empty or starts with a space, yields the token. */
  lemma TokenOfBearerForm(scheme: string, token: string, rest: string)
    requires ' ' !in scheme && ' ' !in token && token != ""
    requires rest == "" || rest[0] == ' '
    ensures TokenOf(Some(scheme + " " + token + rest)) == Some(token)
  {
    var h := scheme + " " + token + rest;
    assert h == scheme + (" " + (token + rest));
    SplitSpace(token + rest);
    SplitPrefix(scheme, " " + (token + rest));
    SplitPrefix(token, rest);
    if rest == "" {
      assert Split(rest) == [""];
      assert token + rest == token;
    } else {
      assert rest == " " + rest[1..];
      SplitSpace(rest[1..]);
      assert Split(rest)[0] == "";
    }
    assert token + "" == token;
    assert scheme + "" == scheme;
    assert Split(h)[1] == token;
  }

  /** Conversely every token found has that form: the header is the scheme
      word, one space, the token, then nothing or a space and more. */
  lemma TokenOfShape(header: string, token: string) returns (scheme: string, rest: string)
    requires TokenOf(Some(header)) == Some(token)
    ensures ' ' !in scheme
    ensures rest == "" || rest[0] == ' '
    ensures header == scheme + " " + token + rest
  {
    var fields := Split(header);
    JoinSplit(header);
    scheme := fields[0];
    rest := if |fields| == 2 then "" else " " + Join(fields[2..]);
    assert fields[1..][1..] == fields[2..];
    assert Join(fields) == fields[0] + " " + Join(fields[1..]);
    assert |fields| > 2 ==> Join(fields[1..]) == fields[1] + " " + Join(fields[2..]);
  }
}

/** The bearer-token gate in front of every protected route. */
module AuthMiddleware {
  import opened Optional
  import opened Crypto
  import opened Http
  import opened BearerHeader

  /** Either the request is answered here, or it proceeds with `req.user`. */
  datatype GateResult = Denied(response: Response) | Proceed(user: Claims)

  const NoToken := "Access denied. No token provided."
  const InvalidToken := "Invalid token."

  function Gate(authorization: Option<string>, verify: Verifier): (g: GateResult)
    ensures g.Proceed? <==> TokenOf(authorization).Some? && verify(TokenOf(authorization).value).Some?
    ensures g.Proceed? ==> g.user == verify(TokenOf(authorization).value).value
    ensures g.Denied? ==> g.response.status in {Unauthorized, Forbidden}
    ensures g.Denied? ==> (g.response.status == Unauthorized <==> TokenOf(authorization).None?)
  {
    match TokenOf(authorization)
    case None => Denied(Response(Unauthorized, Message(NoToken)))
    case Some(token) =>
      match verify(token)
      case None => Denied(Response(Forbidden, Message(InvalidToken)))
      case Some(claims) => Proceed(claims)
  }

  /** The scheme word is not checked: any two scheme words give the same decision. */
  lemma GateIgnoresScheme(s1: string, s2: string, token: string, rest: string, verify: Verifier)
    requires ' ' !in s1 && ' ' !in s2 && ' ' !in token && token != ""
    requires rest == "" || rest[0] == ' '
    ensures Gate(Some(s1 + " " + token + rest), verify) == Gate(Some(s2 + " " + token + rest), verify)
  {
    TokenOfBearerForm(s1, token, rest);
    TokenOfBearerForm(s2, token, rest);
  }

  /** A missing header, or one without a space, is answered with 401. */
  lemma GateNoSecondField(authorization: Option<string>, verify: Verifier)
    requires authorization.Some? ==> ' ' !in authorization.value
    ensures Gate(authorization, verify) == Denied(Response(Unauthorized, Message(NoToken)))
  {
    if authorization.Some? {
      SplitPrefix(authorization.value, "");
      assert authorization.value + "" == authorization.value;
    }
  }

  /** A double space after the scheme leaves an empty second field: 401. */
  lemma GateDoubleSpace(scheme: string, rest: string, verify: Verifier)
    requires ' ' !in scheme
    ensures Gate(Some(scheme + "  " + rest), verify) == Denied(Response(Unauthorized, Message(NoToken)))
  {
    var h := scheme + "  " + rest;
    assert h == scheme + (" " + (" " + rest));
    SplitSpace(rest);
    SplitSpace(" " + rest);
    SplitPrefix(scheme, " " + (" " + rest));
    assert scheme + "" == scheme;
    assert Split(h)[1] == "";
  }

  /** A token that is present but fails verification is answered with 403. */
  lemma GateRejectsBadToken(scheme: string, token: string, rest: string, verify: Verifier)
    requires ' ' !in scheme && ' ' !in token && token != ""
    requires rest == "" || rest[0] == ' '
    requires verify(token).None?
    ensures Gate(Some(scheme + " " + token + rest), verify) == Denied(Response(Forbidden, Message(InvalidToken)))
  {
    TokenOfBearerForm(scheme, token, rest);
  }
}

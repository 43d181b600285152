/**
 From an HTTP response to an outcome. The server says "not found" and "conflict" in the text
 of a 400 or 500 response; everything else that is not a success has to stay an error, because
 callers take "user not found" as proof that a user is gone.

 Text is a sequence of Unicode scalar values, its size the bytes of its UTF-8 form. What JSON
 decoding makes of a body comes with the response.
 */
module PveClient {
  import opened Text
  import opened Wrappers
  import UserId

  const MAX_BODY := 1_048_576   // maxResponseBodyBytes

  datatype Decoded = NotJson | Fields(message: string, errors: seq<string>)

  /** errors holds the values of the errors object in the order in which they are visited. */
  datatype Response =
    | NoResponse
    | Response(status: nat, body: string, cutOff: bool, decoded: Decoded)

  datatype Error =
    | Unauthenticated
    | Forbidden
    | Conflict
    | UserNotFound
    | GroupNotFound
    | TokenNotFound
    | OtherError

  /** strings.ToLower, as far as a search for ASCII text can tell. */
  function LowerChar(c: char): char {
    if 'A' <= c <= 'Z' then c - 'A' + 'a'
    else if c == '\U{0130}' then 'i'
    else if c == '\U{212A}' then 'k'
    else c
  }

  function Lower(s: string): (t: string)
    ensures |t| == |s| && forall i :: 0 <= i < |s| ==> t[i] == LowerChar(s[i])
  {
    seq(|s|, i requires 0 <= i < |s| => LowerChar(s[i]))
  }

  /** The fields in which the phrases are looked for. */
  function FieldTexts(r: Response): seq<string>
    requires r.Response? && r.decoded.Fields?
  {
    (if r.decoded.message == "" then [] else [r.decoded.message]) + r.decoded.errors
  }

  /** The text in which the phrases are looked for: the decoded fields, or else the raw body. */
  function Searched(r: Response): string
    requires r.Response?
  {
    if r.decoded.Fields? && (r.decoded.message != "" || r.decoded.errors != []) then
      Lower(Joined(FieldTexts(r)))
    else Lower(r.body)
  }

  /** The whole body arrived and is within the cap. */
  predicate Complete(r: Response) {
    r.Response? && !r.cutOff && UserId.Utf8Len(r.body) <= MAX_BODY
  }

  predicate Success(r: Response) {
    Complete(r) && 200 <= r.status < 300
  }

  /** A response whose text counts. */
  predicate Telling(r: Response) {
    Complete(r) && (r.status == 400 || r.status == 500) && r.body != ""
  }

  predicate SaysConflict(r: Response) {
    Telling(r) && Contains(Searched(r), "already exists")
  }

  predicate SaysNoSuchUser(r: Response) {
    Telling(r) && !SaysConflict(r) && Contains(Searched(r), "no such user")
  }

  predicate SaysNoSuchGroup(r: Response) {
    && Telling(r) && !SaysConflict(r) && !SaysNoSuchUser(r)
    && (Contains(Searched(r), "no such group") || Contains(Searched(r), "does not exist"))
  }

  predicate SaysNoSuchToken(r: Response) {
    && Telling(r) && !SaysConflict(r) && !SaysNoSuchUser(r) && !SaysNoSuchGroup(r)
    && Contains(Lower(r.body), "no such token")
  }

  lemma TokenConflictIsConflict(text: string)
    requires Contains(text, "token already exists")
    ensures Contains(text, "already exists")
  {
    var i :| 0 <= i <= |text| && At(text, "token already exists", i);
    assert text[i + 6..i + 20] == text[i..i + 20][6..] == "already exists";
    assert At(text, "already exists", i + 6);
  }

  /** classifyPVEError. */
  method Classify(r: Response) returns (e: Option<Error>)
    requires Complete(r)
    ensures e == Some(Unauthenticated) <==> r.status == 401
    ensures e == Some(Forbidden) <==> r.status == 403
    ensures e == Some(Conflict) <==> SaysConflict(r)
    ensures e == Some(UserNotFound) <==> SaysNoSuchUser(r)
    ensures e == Some(GroupNotFound) <==> SaysNoSuchGroup(r)
    ensures e != Some(TokenNotFound) && e != Some(OtherError)
  {
    if r.status == 401 {
      return Some(Unauthenticated);
    }
    if r.status == 403 {
      return Some(Forbidden);
    }
    if r.status != 500 && r.status != 400 {
      return None;
    }
    if r.body == "" {
      return None;
    }
    var haystack;
    if r.decoded.Fields? && (r.decoded.message != "" || |r.decoded.errors| > 0) {
      var parts := [];
      if r.decoded.message != "" {
        parts := [r.decoded.message];
      }
      ghost var first := parts;
      for i := 0 to |r.decoded.errors|
        invariant parts == first + r.decoded.errors[..i]
      {
        parts := parts + [r.decoded.errors[i]];
      }
      assert r.decoded.errors[..|r.decoded.errors|] == r.decoded.errors;
      haystack := Lower(Joined(parts));
    } else {
      haystack := Lower(r.body);
    }
    assert haystack == Searched(r);
    hide Searched, Lower, Joined;
    if Contains(haystack, "token already exists") {
      TokenConflictIsConflict(haystack);
      return Some(Conflict);
    }
    hide Contains;
    if Contains(haystack, "already exists") {
      return Some(Conflict);
    }
    if Contains(haystack, "no such user") {
      return Some(UserNotFound);
    }
    if Contains(haystack, "no such group") {
      return Some(GroupNotFound);
    }
    if Contains(haystack, "does not exist") {
      return Some(GroupNotFound);
    }
    return None;
  }

  /** doRequest: None is a success. The body is read, and capped, before anything is decided. */
  method DoRequest(r: Response, tokenEndpoint: bool) returns (e: Option<Error>)
    ensures e.None? <==> Success(r)
    ensures e == Some(UserNotFound) <==> SaysNoSuchUser(r)
    ensures e == Some(Conflict) <==> SaysConflict(r)
    ensures e == Some(GroupNotFound) <==> SaysNoSuchGroup(r)
    ensures e == Some(TokenNotFound) <==> tokenEndpoint && SaysNoSuchToken(r)
    ensures e in {Some(UserNotFound), Some(Conflict), Some(GroupNotFound), Some(TokenNotFound)} ==>
              r.Response? && (r.status == 400 || r.status == 500) && !r.cutOff && UserId.Utf8Len(r.body) <= 1_048_576
    ensures e.None? <==> r.Response? && 200 <= r.status < 300 && !r.cutOff && UserId.Utf8Len(r.body) <= 1_048_576
    ensures PlainText(r) ==>
              && (e == Some(Conflict) <==> Contains(Lower(r.body), "already exists"))
              && (e == Some(UserNotFound) <==>
                    !Contains(Lower(r.body), "already exists") && Contains(Lower(r.body), "no such user"))
              && (e == Some(GroupNotFound) <==>
                    && !Contains(Lower(r.body), "already exists") && !Contains(Lower(r.body), "no such user")
                    && (Contains(Lower(r.body), "no such group") || Contains(Lower(r.body), "does not exist")))
              && (e == Some(TokenNotFound) <==>
                    && tokenEndpoint && Contains(Lower(r.body), "no such token")
                    && !Contains(Lower(r.body), "already exists") && !Contains(Lower(r.body), "no such user")
                    && !Contains(Lower(r.body), "no such group") && !Contains(Lower(r.body), "does not exist"))
  {
    PlainTextExactly(r);
    SearchedPlainText(r);
    hide Searched, Lower, Contains, PlainText;
    if r.NoResponse? || r.cutOff || UserId.Utf8Len(r.body) > MAX_BODY {
      return Some(OtherError);
    }
    if r.status < 200 || r.status >= 300 {
      var classified := Classify(r);
      if tokenEndpoint && classified.None? && (r.status == 400 || r.status == 500) {
        if Contains(Lower(r.body), "no such token") {
          SomethingInBody(r.body, "no such token");
          return Some(TokenNotFound);
        }
      }
      match classified {
        case None => return Some(OtherError);
        case Some(error) =>
          assert error != TokenNotFound && error != OtherError;
          assert error.Unauthenticated? || error.Forbidden? || error.Conflict? || error.UserNotFound? || error.GroupNotFound?;
          assert !SaysNoSuchToken(r);
          return Some(error);
      }
    }
    return None;
  }

  /** A small complete answer of status 400 or 500 that is no JSON; it speaks through its body. */
  predicate PlainText(r: Response) {
    r.Response? && (r.status == 400 || r.status == 500) && !r.cutOff && r.decoded.NotJson? && r.body != ""
    && UserId.Utf8Len(r.body) <= 1_048_576
  }

  lemma PlainTextExactly(r: Response)
    ensures PlainText(r) <==>
            && r.Response? && (r.status == 400 || r.status == 500) && !r.cutOff && r.decoded.NotJson? && r.body != ""
            && UserId.Utf8Len(r.body) <= 1_048_576
    ensures PlainText(r) ==> Telling(r)
    ensures Telling(r) ==> r.Response? && (r.status == 400 || r.status == 500) && !r.cutOff && UserId.Utf8Len(r.body) <= 1_048_576
  {
  }

  lemma SearchedPlainText(r: Response)
    ensures PlainText(r) ==> Searched(r) == Lower(r.body)
  {
  }

  lemma SomethingInBody(body: string, phrase: string)
    requires Contains(Lower(body), phrase) && phrase != ""
    ensures body != ""
  {
  }

  /**
   DeleteUser. "User not found" needs a complete small body at status 400 or 500 that says so;
   no proxy page, no refused login and no oversized or broken answer ever counts as absence.
   */
  method DeleteUser(r: Response) returns (e: Option<Error>)
    ensures e.None? <==> Success(r)
    ensures e == Some(UserNotFound) <==> DeniesUser(r)
    ensures e == Some(UserNotFound) ==>
              r.Response? && (r.status == 400 || r.status == 500) && !r.cutOff && UserId.Utf8Len(r.body) <= 1_048_576
    ensures r.Response? && (r.status == 400 || r.status == 500) && !r.cutOff && r.decoded.NotJson?
            && UserId.Utf8Len(r.body) <= 1_048_576 && Contains(Lower(r.body), "no such user") ==>
              (e == Some(UserNotFound) <==> !Contains(Lower(r.body), "already exists"))
  {
    UserNotFoundExactly(r);
    if r.Response? && Contains(Lower(r.body), "no such user") {
      SomethingInBody(r.body, "no such user");
    }
    hide SaysNoSuchUser, DeniesUser, Contains, Lower;
    e := DoRequest(r, false);
  }

  /** GetUser: the same for a read, whose success also needs a user in the body. */
  method GetUser<U>(r: Response, parsed: Option<U>) returns (user: Option<U>, e: Option<Error>)
    ensures user.Some? <==> e.None?
    ensures user.Some? <==> Success(r) && parsed.Some?
    ensures user.Some? ==> user == parsed
    ensures e == Some(UserNotFound) <==> DeniesUser(r)
    ensures e == Some(UserNotFound) ==>
              r.Response? && (r.status == 400 || r.status == 500) && !r.cutOff && UserId.Utf8Len(r.body) <= 1_048_576
    ensures r.Response? && (r.status == 400 || r.status == 500) && !r.cutOff && r.decoded.NotJson?
            && UserId.Utf8Len(r.body) <= 1_048_576 && Contains(Lower(r.body), "no such user") ==>
              (e == Some(UserNotFound) <==> !Contains(Lower(r.body), "already exists"))
  {
    UserNotFoundExactly(r);
    if r.Response? && Contains(Lower(r.body), "no such user") {
      SomethingInBody(r.body, "no such user");
    }
    hide SaysNoSuchUser, DeniesUser, Contains, Lower;
    e := DoRequest(r, false);
    if e.Some? {
      return None, e;
    }
    if parsed.None? {
      return None, Some(OtherError);
    }
    return parsed, None;
  }

  /** TokenExists: an answer is a complete list that has, or has not, the token. */
  method TokenExists(r: Response, listed: Option<seq<string>>, token: string) returns (found: bool, e: Option<Error>)
    ensures e.None? <==> Success(r) && listed.Some?
    ensures e.None? ==> (found <==> token in listed.value)
    ensures e == Some(UserNotFound) <==> SaysNoSuchUser(r)
    ensures e == Some(TokenNotFound) <==> SaysNoSuchToken(r)
    ensures e.Some? ==> !found
  {
    e := DoRequest(r, true);
    if e.Some? {
      return false, e;
    }
    if listed.None? {
      return false, Some(OtherError);
    }
    for i := 0 to |listed.value|
      invariant token !in listed.value[..i]
    {
      if listed.value[i] == token {
        return true, None;
      }
    }
    return false, None;
  }

  // ---- What the searched text says ----

  function Lowered(parts: seq<string>): (l: seq<string>)
    ensures |l| == |parts| && forall i :: 0 <= i < |parts| ==> l[i] == Lower(parts[i])
  {
    seq(|parts|, i requires 0 <= i < |parts| => Lower(parts[i]))
  }

  lemma LowerConcat(a: string, b: string)
    ensures Lower(a + b) == Lower(a) + Lower(b)
  {
  }

  lemma {:induction false} LowerJoined(parts: seq<string>)
    ensures Lower(Joined(parts)) == Joined(Lowered(parts))
  {
    if |parts| >= 2 {
      var front, last := parts[..|parts| - 1], parts[|parts| - 1];
      LowerJoined(front);
      LowerConcat(Joined(front), " ");
      LowerConcat(Joined(front) + " ", last);
      assert Lower(" ") == " ";
      assert Lowered(parts)[..|parts| - 1] == Lowered(front);
    }
  }

  /** What is searched, part by part: the fields, or the raw body when there are none. */
  function Parts(r: Response): seq<string>
    requires r.Response?
  {
    if r.decoded.Fields? && FieldTexts(r) != [] then Lowered(FieldTexts(r)) else [Lower(r.body)]
  }

  lemma SearchedIsJoined(r: Response)
    requires r.Response?
    ensures Searched(r) == Joined(Parts(r))
  {
    if r.decoded.Fields? {
      LowerJoined(FieldTexts(r));
    }
  }

  /** "no such user" in one part, or broken over neighbouring parts at one or both of its spaces. */
  predicate PartsDenyUser(parts: seq<string>) {
    || InOnePart(parts, "no such user")
    || InPair(parts, "no such", "user") || InPair(parts, "no", "such user")
    || InTriple(parts, "no", "such", "user")
  }

  predicate PartsConflict(parts: seq<string>) {
    InOnePart(parts, "already exists") || InPair(parts, "already", "exists")
  }

  /** What the user is told by the parts, with no joined text in it. */
  predicate DeniesUser(r: Response) {
    Telling(r) && !PartsConflict(Parts(r)) && PartsDenyUser(Parts(r))
  }

  lemma DenyUserExactly(parts: seq<string>)
    ensures Contains(Joined(parts), "no such user") <==> PartsDenyUser(parts)
  {
    assert "no" + " " + "such" == "no such" && "such" + " " + "user" == "such user";
    assert "no" + " " + "such" + " " + "user" == "no such user";
    hide InOnePart, InPair, InTriple, Contains;
    ThreeWordsJoined(parts, "no", "such", "user");
  }

  lemma ConflictExactly(parts: seq<string>)
    ensures Contains(Joined(parts), "already exists") <==> PartsConflict(parts)
  {
    assert "already" + " " + "exists" == "already exists";
    hide InOnePart, InPair, Contains;
    TwoWordsJoined(parts, "already", "exists");
  }

  /** Exactly when a response counts as "user not found", in terms of its fields. */
  lemma UserNotFoundExactly(r: Response)
    ensures SaysNoSuchUser(r) <==> DeniesUser(r)
  {
    hide Contains, Joined, Parts, PartsConflict, PartsDenyUser, Searched;
    if r.Response? {
      SearchedIsJoined(r);
      DenyUserExactly(Parts(r));
      ConflictExactly(Parts(r));
    }
  }

  /**
   A response can be read as denying the user although no field does: then and only then are
   the words of the phrase broken over neighbouring fields, with no conflict reported.
   */
  lemma DeniedByNoFieldExactly(r: Response)
    requires r.Response?
    ensures SaysNoSuchUser(r) && !InOnePart(Parts(r), "no such user") <==>
            && Telling(r) && !PartsConflict(Parts(r)) && !InOnePart(Parts(r), "no such user")
            && (InPair(Parts(r), "no such", "user") || InPair(Parts(r), "no", "such user")
                || InTriple(Parts(r), "no", "such", "user"))
  {
    hide InOnePart, InPair, InTriple, Parts, PartsConflict, Telling, SaysNoSuchUser;
    UserNotFoundExactly(r);
  }

  /** Two fields that together deny the user, and neither of them alone. */
  lemma TwoFieldsDeny(parts: seq<string>)
    requires parts == ["no such", "user"]
    ensures PartsDenyUser(parts) && !InOnePart(parts, "no such user") && !PartsConflict(parts)
  {
    NoRoom("no such", "no such user");
    NoRoom("user", "no such user");
    NoRoom("no such", "already exists");
    NoRoom("user", "already exists");
    assert PairAt(parts, 0, "no such", "user");
    assert !StartsWith("user", "exists");
    hide Contains;
  }

  /** Letters count in either case. */
  lemma LowerOfLetters(c: char)
    ensures 'A' <= c <= 'Z' ==> 'a' <= LowerChar(c) <= 'z' && LowerChar(c) as int - 'a' as int == c as int - 'A' as int
    ensures 'a' <= c <= 'z' || c == ' ' ==> LowerChar(c) == c
  {
  }

  lemma SmallLetters(s: string)
    requires forall i :: 0 <= i < |s| ==> 'a' <= s[i] <= 'z' || s[i] == ' '
    ensures Lower(s) == s
  {
  }

  /** An answer of the server that is read as denying the user although no field of it does. */
  lemma PhraseMaySpanFields() returns (r: Response)
    ensures SaysNoSuchUser(r) && !InOnePart(Parts(r), "no such user")
    ensures r.body == "{\"message\":\"no such\",\"errors\":{\"userid\":\"user\"}}"
    ensures r.decoded == Decoded.Fields("no such", ["user"])
  {
    r := Response(500, "{\"message\":\"no such\",\"errors\":{\"userid\":\"user\"}}", false, Decoded.Fields("no such", ["user"]));
    assert Telling(r);
    SmallLetters("no such");
    SmallLetters("user");
    hide Lower, Telling, PartsDenyUser, PartsConflict, InOnePart, Contains, SaysNoSuchUser;
    assert FieldTexts(r) == ["no such", "user"];
    assert Parts(r) == ["no such", "user"];
    TwoFieldsDeny(Parts(r));
    UserNotFoundExactly(r);
  }

  lemma NoRoom(text: string, phrase: string)
    requires |text| < |phrase|
    ensures !Contains(text, phrase)
  {
  }
}
